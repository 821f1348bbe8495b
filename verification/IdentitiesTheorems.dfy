/** What a fingerprint is answered over every interleaving of requests. */
module IdentitiesTheorems {
  import opened Results
  import opened Identities

  /** How far a request has come: it holds the row it loaded, or one that its hooks
      settled, or settled and demoted the others; or it is over. */
  datatype Stage = Loaded | Ready | Demoted | Over

  /** A request under way. The original is what the update hook found stored. */
  datatype Request = Request(row: Identity, isNew: bool, original: Option<Columns>, stage: Stage)

  /** Create and load begin a request; n names one by the order they began in. */
  datatype Step =
    | CreateStep(id: Id, user: Id, workspace: Id, fp: Fingerprint, domain: string, isPrimary: bool)
    | LoadStep(id: Id)
    | SettleStep(n: nat, sent: Identity, now: nat)
    | DemoteStep(n: nat)
    | SaveStep(n: nat)
    | DeleteStep(n: nat, now: nat)
    | LeaveStep(user: Id, workspace: Id, reason: string, now: nat)

  /** The database, every fingerprint the server issued, and the requests so far. */
  datatype Sys = Sys(db: Db, issued: set<Fingerprint>, requests: seq<Request>)

  const START := Sys(Db([], map[]), {}, [])

  /** A certificate carries a random serial: its digest is one nobody has seen. */
  ghost predicate Fresh(s: Sys, fp: Fingerprint) {
    && fp.hex != "" && fp !in s.issued && fp !in s.db.tombstones && !Present(s.db.rows, fp)
    && forall n :: 0 <= n < |s.requests| ==> s.requests[n].row.fingerprint != fp
  }

  predicate At(s: Sys, n: nat, stage: Stage) { n < |s.requests| && s.requests[n].stage == stage }

  predicate Lands(s: Sys, step: Step) {
    step.SaveStep? && At(s, step.n, Demoted)
    && var r := s.requests[step.n]; if r.isNew then Inserts(s.db.rows, r.row) else Overwrites(s.db.rows, r.row)
  }

  function SettledRow(s: Sys, n: nat, sent: Identity, now: nat): Request
    requires n < |s.requests|
  {
    var r := s.requests[n];
    var original := StoredColumns(s.db.rows, r.row.id);
    r.(row := sent.(id := r.row.id, columns := HookColumns(original, sent.columns, now)),
       original := original, stage := Ready)
  }

  function Saved(s: Sys, n: nat): Sys
    requires n < |s.requests|
  {
    var r := s.requests[n];
    var requests := s.requests[n := r.(stage := Over)];
    if r.isNew then
      Sys(s.db.(rows := Insert(s.db.rows, r.row)),
          if Inserts(s.db.rows, r.row) then s.issued + {r.row.fingerprint} else s.issued, requests)
    else
      Sys(s.db.(rows := Overwrite(s.db.rows, r.row)), s.issued, requests)
  }

  ghost function Next(s: Sys, step: Step): Sys {
    match step
    case CreateStep(id, user, workspace, fp, domain, isPrimary) =>
      if !Fresh(s, fp) then s
      else
        var row := NewIdentity(id, user, workspace, fp, domain, isPrimary);
        s.(requests := s.requests + [Request(row, true, None, Ready)])
    case LoadStep(id) =>
      var k := FindRow(s.db.rows, id, 0);
      if k.None? then s else s.(requests := s.requests + [Request(s.db.rows[k.value], false, None, Loaded)])
    case SettleStep(n, sent, now) =>
      if !At(s, n, Loaded) then s else s.(requests := s.requests[n := SettledRow(s, n, sent, now)])
    case DemoteStep(n) =>
      if !At(s, n, Ready) then s
      else
        var r := s.requests[n];
        var except := if r.isNew then None else Some(r.row.id);
        s.(db := s.db.(rows := Demote(s.db.rows, r.row, except)), requests := s.requests[n := r.(stage := Demoted)])
    case SaveStep(n) =>
      if !At(s, n, Demoted) then s else Saved(s, n)
    case DeleteStep(n, now) =>
      if !At(s, n, Loaded) then s
      else
        var r := s.requests[n];
        s.(db := Delete(s.db, r.row, now), requests := s.requests[n := r.(stage := Over)])
    case LeaveStep(user, workspace, reason, now) =>
      s.(db := RevokeWorkspace(s.db, user, workspace, reason, now))
  }

  ghost function Run(s: Sys, steps: seq<Step>): Sys
    decreases |steps|
  {
    if steps == [] then s else Run(Next(s, steps[0]), steps[1..])
  }

  // -------------------------------------------------------------------- the answers

  ghost predicate Distinct(rows: seq<Identity>) {
    forall i, j :: 0 <= i < j < |rows| ==> rows[i].id != rows[j].id && rows[i].fingerprint != rows[j].fingerprint
  }

  ghost predicate Present(rows: seq<Identity>, fp: Fingerprint) {
    exists i :: 0 <= i < |rows| && rows[i].fingerprint == fp
  }

  lemma FoundAt(rows: seq<Identity>, k: nat)
    requires Distinct(rows) && k < |rows|
    ensures FindRow(rows, rows[k].id, 0) == Some(k)
    ensures FindFingerprint(rows, rows[k].fingerprint, 0) == Some(k)
  {
  }

  lemma LookupRow(db: Db, k: nat)
    requires Distinct(db.rows) && k < |db.rows| && db.rows[k].fingerprint.hex != ""
    ensures Lookup(db, db.rows[k].fingerprint) == AnswerOf(db.rows[k].columns)
  {
    hide FindFingerprint;
    FoundAt(db.rows, k);
  }

  lemma LookupGone(db: Db, fp: Fingerprint)
    requires !Present(db.rows, fp) && fp.hex != ""
    ensures Lookup(db, fp) == Buried(db.tombstones, fp)
  {
  }

  /** Requests write rows in place: each keeps its id and fingerprint. */
  ghost predicate SamePlaces(before: seq<Identity>, after: seq<Identity>) {
    |after| == |before|
    && forall i :: 0 <= i < |before| ==> after[i].id == before[i].id && after[i].fingerprint == before[i].fingerprint
  }

  lemma SamePresence(before: seq<Identity>, after: seq<Identity>)
    requires SamePlaces(before, after)
    ensures Distinct(before) ==> Distinct(after)
    ensures forall fp :: Present(after, fp) <==> Present(before, fp)
  {
    forall fp ensures Present(after, fp) <==> Present(before, fp) {
      if Present(before, fp) {
        var i :| 0 <= i < |before| && before[i].fingerprint == fp;
        assert after[i].fingerprint == fp;
      }
      if Present(after, fp) {
        var i :| 0 <= i < |after| && after[i].fingerprint == fp;
        assert before[i].fingerprint == fp;
      }
    }
  }

  lemma InsertedPresence(rows: seq<Identity>, row: Identity)
    requires Distinct(rows) && Inserts(rows, row)
    ensures Distinct(rows + [row])
    ensures forall fp :: Present(rows + [row], fp) <==> Present(rows, fp) || fp == row.fingerprint
  {
    var after := rows + [row];
    forall fp ensures Present(after, fp) <==> Present(rows, fp) || fp == row.fingerprint {
      if Present(rows, fp) {
        var i :| 0 <= i < |rows| && rows[i].fingerprint == fp;
        assert after[i] == rows[i];
      }
      assert after[|rows|] == row;
    }
  }

  lemma OverwrittenPresence(rows: seq<Identity>, row: Identity)
    requires Distinct(rows) && Overwrites(rows, row)
    ensures Distinct(Overwrite(rows, row))
    ensures
      var gone := rows[FindRow(rows, row.id, 0).value].fingerprint;
      forall fp :: Present(Overwrite(rows, row), fp) <==> fp == row.fingerprint || (Present(rows, fp) && fp != gone)
  {
    hide FindRow;
    var k := FindRow(rows, row.id, 0).value;
    var after := rows[k := row];
    forall fp
      ensures Present(after, fp) <==> fp == row.fingerprint || (Present(rows, fp) && fp != rows[k].fingerprint)
    {
      assert after[k] == row;
      if Present(rows, fp) && fp != rows[k].fingerprint {
        var i :| 0 <= i < |rows| && rows[i].fingerprint == fp;
        assert after[i] == rows[i];
      }
    }
  }

  lemma RemovedPresence(rows: seq<Identity>, k: nat)
    requires Distinct(rows) && k < |rows|
    ensures
      var after := rows[..k] + rows[k + 1..];
      && Distinct(after)
      && (forall fp :: Present(after, fp) <==> Present(rows, fp) && fp != rows[k].fingerprint)
      && (forall i :: 0 <= i < |after| ==> after[i] == rows[if i < k then i else i + 1])
  {
    var after := rows[..k] + rows[k + 1..];
    assert forall i :: 0 <= i < |after| ==> after[i] == rows[if i < k then i else i + 1];
    forall fp ensures Present(after, fp) <==> Present(rows, fp) && fp != rows[k].fingerprint {
      if Present(rows, fp) && fp != rows[k].fingerprint {
        var i :| 0 <= i < |rows| && rows[i].fingerprint == fp;
        assert after[if i < k then i else i - 1] == rows[i];
      }
    }
  }

  lemma InsertedLookup(db: Db, row: Identity, fp: Fingerprint)
    requires Distinct(db.rows) && Inserts(db.rows, row) && fp.hex != ""
    ensures Lookup(db.(rows := db.rows + [row]), fp)
         == if fp == row.fingerprint then AnswerOf(row.columns) else Lookup(db, fp)
  {
    hide Lookup, FindFingerprint, Inserts;
    var t := db.(rows := db.rows + [row]);
    InsertedPresence(db.rows, row);
    if fp == row.fingerprint {
      LookupRow(t, |db.rows|);
    } else if Present(db.rows, fp) {
      var i :| 0 <= i < |db.rows| && db.rows[i].fingerprint == fp;
      assert t.rows[i] == db.rows[i];
      LookupRow(db, i);
      LookupRow(t, i);
    } else {
      LookupGone(db, fp);
      LookupGone(t, fp);
    }
  }

  lemma OverwrittenLookup(db: Db, row: Identity, fp: Fingerprint)
    requires Distinct(db.rows) && Overwrites(db.rows, row) && fp.hex != ""
    ensures
      Lookup(db.(rows := Overwrite(db.rows, row)), fp)
      == if fp == row.fingerprint then AnswerOf(row.columns)
         else if fp == db.rows[FindRow(db.rows, row.id, 0).value].fingerprint then Buried(db.tombstones, fp)
         else Lookup(db, fp)
  {
    hide Lookup, FindFingerprint, FindRow, Taken;
    var t := db.(rows := Overwrite(db.rows, row));
    var k := FindRow(db.rows, row.id, 0).value;
    OverwrittenPresence(db.rows, row);
    if fp == row.fingerprint {
      LookupRow(t, k);
    } else if fp == db.rows[k].fingerprint || !Present(db.rows, fp) {
      LookupGone(t, fp);
      if !Present(db.rows, fp) { LookupGone(db, fp); }
    } else {
      var i :| 0 <= i < |db.rows| && db.rows[i].fingerprint == fp;
      assert t.rows[i] == db.rows[i];
      LookupRow(db, i);
      LookupRow(t, i);
    }
  }

  /** The row a delete removes, if any, has this fingerprint. */
  predicate Removes(db: Db, loaded: Identity, fp: Fingerprint) {
    var k := FindRow(db.rows, loaded.id, 0);
    k.Some? && db.rows[k.value].fingerprint == fp
  }

  lemma DeletedLookup(db: Db, loaded: Identity, now: nat, fp: Fingerprint)
    requires Distinct(db.rows) && fp.hex != ""
    ensures Lookup(Delete(db, loaded, now), fp)
         == if Present(db.rows, fp) && !Removes(db, loaded, fp) then Lookup(db, fp)
            else Buried(Delete(db, loaded, now).tombstones, fp)
  {
    hide Lookup, FindFingerprint, FindRow, Bury;
    var t := Delete(db, loaded, now);
    var k := FindRow(db.rows, loaded.id, 0);
    if k.Some? { RemovedPresence(db.rows, k.value); }
    if Present(db.rows, fp) && !Removes(db, loaded, fp) {
      var i :| 0 <= i < |db.rows| && db.rows[i].fingerprint == fp;
      var j := if k.None? || i < k.value then i else i - 1;
      assert t.rows[j] == db.rows[i];
      LookupRow(db, i);
      LookupRow(t, j);
    } else {
      LookupGone(t, fp);
    }
  }

  lemma InPlaceLookup(db: Db, rows: seq<Identity>, fp: Fingerprint)
    requires Distinct(db.rows) && SamePlaces(db.rows, rows) && fp.hex != ""
    requires forall i :: 0 <= i < |rows| && db.rows[i].fingerprint == fp ==>
               AnswerOf(rows[i].columns) == AnswerOf(db.rows[i].columns)
    ensures Lookup(db.(rows := rows), fp) == Lookup(db, fp)
  {
    hide Lookup, FindFingerprint, AnswerOf;
    SamePresence(db.rows, rows);
    var t := db.(rows := rows);
    if Present(db.rows, fp) {
      var i :| 0 <= i < |rows| && db.rows[i].fingerprint == fp;
      LookupRow(db, i);
      LookupRow(t, i);
    } else {
      LookupGone(db, fp);
      LookupGone(t, fp);
    }
  }

  lemma DistinctStep(s: Sys, step: Step)
    requires Distinct(s.db.rows)
    ensures Distinct(Next(s, step).db.rows)
  {
    hide FindRow, Taken, Demote, RevokeWorkspace, SettledRow, Bury, Fresh;
    if step.DemoteStep? || step.LeaveStep? {
      SamePresence(s.db.rows, Next(s, step).db.rows);
    } else if Lands(s, step) {
      hide Distinct;
      var row := s.requests[step.n].row;
      if s.requests[step.n].isNew { InsertedPresence(s.db.rows, row); } else { OverwrittenPresence(s.db.rows, row); }
    } else if step.DeleteStep? && At(s, step.n, Loaded) {
      hide Distinct;
      var k := FindRow(s.db.rows, s.requests[step.n].row.id, 0);
      if k.Some? { RemovedPresence(s.db.rows, k.value); }
    }
  }

  // ---------------------------------------------------------------- definite answers

  /** An answer is "unknown" for the fingerprints never issued, and for no other. */
  ghost predicate Definite(s: Sys) {
    forall fp :: fp in s.issued <==> Lookup(s.db, fp) != Unknown
  }

  predicate Unsaved(r: Request) { r.isNew && (r.stage == Ready || r.stage == Demoted) }

  /** Every fingerprint issued has its row or its tombstone, and not both. */
  ghost predicate Accounted(s: Sys) {
    && (forall fp :: fp in s.issued <==> fp in s.db.tombstones || Present(s.db.rows, fp))
    && (forall fp :: fp in s.issued ==> fp.hex != "" && !(fp in s.db.tombstones && Present(s.db.rows, fp)))
  }

  /** No row of another id has its fingerprint. */
  ghost predicate Owns(rows: seq<Identity>, row: Identity) {
    forall i :: 0 <= i < |rows| && rows[i].fingerprint == row.fingerprint ==> rows[i].id == row.id
  }

  ghost predicate Serious(s: Sys) {
    && (forall n :: 0 <= n < |s.requests| && Unsaved(s.requests[n]) ==>
          s.requests[n].row.fingerprint !in s.issued && s.requests[n].row.fingerprint.hex != "")
    && (forall n :: 0 <= n < |s.requests| && s.requests[n].stage == Loaded ==>
          !s.requests[n].isNew && s.requests[n].row.fingerprint in s.issued && Owns(s.db.rows, s.requests[n].row))
    && (forall m, n :: 0 <= m < n < |s.requests| && Unsaved(s.requests[m]) && Unsaved(s.requests[n]) ==>
          s.requests[m].row.fingerprint != s.requests[n].row.fingerprint)
  }

  ghost predicate Inv(s: Sys) { Distinct(s.db.rows) && Accounted(s) && Serious(s) }

  /** A save or a delete meets a row of another fingerprint than the one it carries:
      the request sent another, or the id came to be used again after it loaded. */
  predicate Crosses(s: Sys, step: Step) {
    if step.SaveStep? then
      Lands(s, step) && !s.requests[step.n].isNew
      && var row := s.requests[step.n].row;
         s.db.rows[FindRow(s.db.rows, row.id, 0).value].fingerprint != row.fingerprint
    else
      step.DeleteStep? && At(s, step.n, Loaded)
      && var k := FindRow(s.db.rows, s.requests[step.n].row.id, 0);
         k.Some? && s.db.rows[k.value].fingerprint != s.requests[step.n].row.fingerprint
  }

  lemma InvIsDefinite(s: Sys)
    requires Inv(s)
    ensures Definite(s)
  {
    hide Lookup, FindFingerprint, Serious;
    forall fp ensures fp in s.issued <==> Lookup(s.db, fp) != Unknown {
      if fp.hex == "" {
        NamelessIsUnknown(s.db, fp);
      } else if Present(s.db.rows, fp) {
        var i :| 0 <= i < |s.db.rows| && s.db.rows[i].fingerprint == fp;
        LookupRow(s.db, i);
      } else {
        LookupGone(s.db, fp);
      }
    }
  }

  lemma NamelessIsUnknown(db: Db, fp: Fingerprint)
    requires fp.hex == ""
    ensures Lookup(db, fp) == Unknown
  {
  }

  lemma SaveKeeps(s: Sys, n: nat)
    requires Inv(s) && At(s, n, Demoted) && !Crosses(s, SaveStep(n))
    ensures Inv(Saved(s, n))
  {
    hide FindRow, Taken, Distinct, Present, Owns;
    var r := s.requests[n];
    if Lands(s, SaveStep(n)) {
      forall row | Owns(s.db.rows, row) && row.fingerprint in s.issued ensures Owns(Saved(s, n).db.rows, row) {
        SavedOwns(s, n, row);
      }
      if r.isNew {
        InsertedPresence(s.db.rows, r.row);
      } else {
        OverwrittenPresence(s.db.rows, r.row);
        FoundPresent(s.db.rows, r.row.id);
      }
    }
  }

  lemma SavedOwns(s: Sys, n: nat, row: Identity)
    requires Inv(s) && Lands(s, SaveStep(n)) && !Crosses(s, SaveStep(n))
    requires Owns(s.db.rows, row) && row.fingerprint in s.issued
    ensures Owns(Saved(s, n).db.rows, row)
  {
    hide FindRow, Taken, Distinct, Accounted;
  }

  lemma FoundPresent(rows: seq<Identity>, id: Id)
    ensures FindRow(rows, id, 0).Some? ==> Present(rows, rows[FindRow(rows, id, 0).value].fingerprint)
  {
  }

  lemma DeleteKeeps(s: Sys, n: nat, now: nat)
    requires Inv(s) && At(s, n, Loaded) && !Crosses(s, DeleteStep(n, now))
    ensures Inv(Next(s, DeleteStep(n, now)))
  {
    hide FindRow, Distinct, Present, Owns;
    var r := s.requests[n];
    var k := FindRow(s.db.rows, r.row.id, 0);
    FoundPresent(s.db.rows, r.row.id);
    if k.Some? {
      RemovedPresence(s.db.rows, k.value);
      forall row | Owns(s.db.rows, row) ensures Owns(Without(s.db.rows, r.row.id), row) {
        RemovedOwns(s.db.rows, k.value, row);
      }
    } else {
      GoneForgotten(s.db.rows, r.row);
    }
  }

  lemma RemovedOwns(rows: seq<Identity>, k: nat, row: Identity)
    requires Distinct(rows) && k < |rows| && Owns(rows, row)
    ensures Owns(rows[..k] + rows[k + 1..], row)
  {
    RemovedPresence(rows, k);
  }

  lemma GoneForgotten(rows: seq<Identity>, row: Identity)
    requires FindRow(rows, row.id, 0).None? && Owns(rows, row)
    ensures !Present(rows, row.fingerprint)
  {
  }

  lemma StepKeeps(s: Sys, step: Step)
    requires Inv(s) && !Crosses(s, step)
    ensures Inv(Next(s, step))
  {
    match step
    case SaveStep(n) => hide Inv, Saved; if At(s, n, Demoted) { SaveKeeps(s, n); }
    case DeleteStep(n, now) => hide Inv, Delete; if At(s, n, Loaded) { DeleteKeeps(s, n, now); }
    case LoadStep(id) => hide Inv; LoadKeeps(s, id);
    case CreateStep(_, _, _, _, _, _) => hide Distinct, Present, Owns;
    case SettleStep(_, _, _) => hide Distinct, Present, FindRow, Owns;
    case DemoteStep(_) => hide Inv, Demote; InPlaceKeeps(s, step);
    case LeaveStep(_, _, _, _) => hide Inv, RevokeWorkspace; InPlaceKeeps(s, step);
  }

  lemma LoadKeeps(s: Sys, id: Id)
    requires Inv(s)
    ensures Inv(Next(s, LoadStep(id)))
  {
    hide FindRow, Present;
    FoundPresent(s.db.rows, id);
  }

  lemma InPlaceKeeps(s: Sys, step: Step)
    requires Inv(s) && (step.DemoteStep? || step.LeaveStep?)
    ensures Inv(Next(s, step))
  {
    hide Distinct, Present, Demote, RevokeWorkspace;
    SamePresence(s.db.rows, Next(s, step).db.rows);
  }

  /** A step that crosses loses the fingerprint of the row it meets. */
  lemma CrossingLoses(s: Sys, step: Step)
    requires Inv(s) && Crosses(s, step)
    ensures !Definite(Next(s, step))
  {
    hide FindRow, Taken, Distinct, Present, Lookup, Serious;
    var r := s.requests[step.n].row;
    var k := FindRow(s.db.rows, r.id, 0).value;
    var lost := s.db.rows[k].fingerprint;
    FoundPresent(s.db.rows, r.id);
    if step.SaveStep? {
      OverwrittenLookup(s.db, r, lost);
    } else {
      DeletedLookup(s.db, r, step.now, lost);
    }
    assert lost in s.issued && Lookup(Next(s, step).db, lost) == Unknown;
  }

  ghost predicate Always(s: Sys, steps: seq<Step>, p: Sys -> bool)
    decreases |steps|
  {
    p(s) && (steps != [] ==> Always(Next(s, steps[0]), steps[1..], p))
  }

  ghost predicate Never(s: Sys, steps: seq<Step>, q: (Sys, Step) -> bool)
    decreases |steps|
  {
    steps != [] ==> !q(s, steps[0]) && Never(Next(s, steps[0]), steps[1..], q)
  }

  lemma {:induction false} DefiniteFrom(s: Sys, steps: seq<Step>)
    requires Inv(s)
    ensures Always(s, steps, (x: Sys) => Definite(x)) <==> Never(s, steps, (x, y) => Crosses(x, y))
    decreases |steps|
  {
    hide Inv, Next, Crosses, Definite;
    InvIsDefinite(s);
    if steps != [] {
      var t := Next(s, steps[0]);
      if Crosses(s, steps[0]) {
        CrossingLoses(s, steps[0]);
      } else {
        StepKeeps(s, steps[0]);
        DefiniteFrom(t, steps[1..]);
      }
    }
  }

  /** Over every interleaving, an issued fingerprint is never answered "unknown" and no
      other fingerprint is ever answered otherwise, if and only if no save and no
      delete meets a row of another fingerprint. */
  lemma AnswersAreDefinite(steps: seq<Step>)
    ensures Always(START, steps, (x: Sys) => Definite(x)) <==> Never(START, steps, (x, y) => Crosses(x, y))
  {
    DefiniteFrom(START, steps);
  }

  lemma {:induction false} DefiniteRunsKeep(s: Sys, steps: seq<Step>)
    requires Inv(s) && Never(s, steps, (x, y) => Crosses(x, y))
    ensures Inv(Run(s, steps))
    decreases |steps|
  {
    hide Inv, Next, Crosses;
    if steps != [] {
      StepKeeps(s, steps[0]);
      DefiniteRunsKeep(Next(s, steps[0]), steps[1..]);
    }
  }

  /** A create under an id that was used before, or an update that sends another fingerprint. */
  predicate Strays(s: Sys, step: Step) {
    || (step.CreateStep? && exists n :: 0 <= n < |s.requests| && s.requests[n].row.id == step.id)
    || (step.SettleStep? && At(s, step.n, Loaded) && step.sent.fingerprint != s.requests[step.n].row.fingerprint)
  }

  /** Every id has had one fingerprint, and one that rows have has been requested. */
  ghost predicate Paired(s: Sys) {
    && (forall m, n :: 0 <= m < n < |s.requests| && s.requests[m].row.id == s.requests[n].row.id ==>
          s.requests[m].row.fingerprint == s.requests[n].row.fingerprint)
    && (forall i :: 0 <= i < |s.db.rows| ==> Requested(s, s.db.rows[i].id, s.db.rows[i].fingerprint))
  }

  ghost predicate Requested(s: Sys, id: Id, fp: Fingerprint) {
    exists n :: 0 <= n < |s.requests| && s.requests[n].row.id == id && s.requests[n].row.fingerprint == fp
  }

  lemma RequestsKeep(s: Sys, step: Step)
    requires !Strays(s, step)
    ensures
      var t := Next(s, step);
      && |s.requests| <= |t.requests| <= |s.requests| + 1
      && (forall n :: 0 <= n < |s.requests| ==>
            t.requests[n].row.id == s.requests[n].row.id
            && t.requests[n].row.fingerprint == s.requests[n].row.fingerprint)
      && (|t.requests| > |s.requests| ==>
            var r := t.requests[|s.requests|].row;
            if step.CreateStep? then r.id == step.id
            else
              exists i :: 0 <= i < |s.db.rows| && s.db.rows[i].id == r.id
                          && s.db.rows[i].fingerprint == r.fingerprint)
  {
    hide Saved, Demote, RevokeWorkspace, Delete, Fresh;
    if step.SaveStep? && At(s, step.n, Demoted) { SavedRequests(s, step.n); }
  }

  lemma SavedRequests(s: Sys, n: nat)
    requires n < |s.requests|
    ensures Saved(s, n).requests == s.requests[n := s.requests[n].(stage := Over)]
  {
  }

  lemma RowsComeFrom(s: Sys, step: Step, i: nat)
    requires i < |Next(s, step).db.rows|
    ensures
      var r := Next(s, step).db.rows[i];
      || (exists j :: 0 <= j < |s.db.rows| && s.db.rows[j].id == r.id && s.db.rows[j].fingerprint == r.fingerprint)
      || Requested(s, r.id, r.fingerprint)
  {
    hide FindRow, Taken, Demote, RevokeWorkspace, Bury, Fresh, SettledRow;
    var t := Next(s, step);
    if step.SaveStep? && At(s, step.n, Demoted) {
      assert Requested(s, s.requests[step.n].row.id, s.requests[step.n].row.fingerprint);
      assert t.db.rows[i] == s.requests[step.n].row || (i < |s.db.rows| && t.db.rows[i] == s.db.rows[i]);
    } else if step.DeleteStep? && At(s, step.n, Loaded) {
      var k := FindRow(s.db.rows, s.requests[step.n].row.id, 0);
      if k.Some? { assert t.db.rows[i] == s.db.rows[if i < k.value then i else i + 1]; }
    } else {
      assert s.db.rows[i].id == t.db.rows[i].id;
    }
  }

  lemma PairedStep(s: Sys, step: Step)
    requires Paired(s) && !Strays(s, step)
    ensures Paired(Next(s, step)) && !Crosses(s, step)
  {
    hide Next, FindRow;
    var t := Next(s, step);
    RequestsKeep(s, step);
    forall id, fp | Requested(s, id, fp) ensures Requested(t, id, fp) {
      var n :| 0 <= n < |s.requests| && s.requests[n].row.id == id && s.requests[n].row.fingerprint == fp;
      assert t.requests[n].row.id == id;
    }
    forall i | 0 <= i < |t.db.rows| ensures Requested(t, t.db.rows[i].id, t.db.rows[i].fingerprint) {
      RowsComeFrom(s, step, i);
    }
  }

  lemma {:induction false} CarefulFrom(s: Sys, steps: seq<Step>)
    requires Paired(s) && Never(s, steps, (x, y) => Strays(x, y))
    ensures Never(s, steps, (x, y) => Crosses(x, y))
    decreases |steps|
  {
    hide Paired, Next, Strays, Crosses;
    if steps != [] {
      PairedStep(s, steps[0]);
      CarefulFrom(Next(s, steps[0]), steps[1..]);
    }
  }

  /** Where no id is used twice and no update sends another fingerprint, the answers
      are definite throughout. */
  lemma CarefulIsDefinite(steps: seq<Step>)
    requires Never(START, steps, (x, y) => Strays(x, y))
    ensures Always(START, steps, (x: Sys) => Definite(x))
  {
    CarefulFrom(START, steps);
    DefiniteFrom(START, steps);
  }

  // ------------------------------------------------------------- revoked once, revoked

  /** An active row lands under the fingerprint, or its row goes to another without a tombstone. */
  predicate Unrevokes(s: Sys, step: Step, fp: Fingerprint) {
    if step.SaveStep? then
      Lands(s, step)
      && var r := s.requests[step.n];
         if r.row.fingerprint == fp then IsActive(r.row.columns)
         else !r.isNew && Removes(s.db, r.row, fp) && fp !in s.db.tombstones
    else
      step.DeleteStep? && At(s, step.n, Loaded)
      && var row := s.requests[step.n].row;
         Removes(s.db, row, fp) && row.fingerprint != fp && fp !in s.db.tombstones
  }

  lemma RevokedStep(s: Sys, step: Step, fp: Fingerprint)
    requires Distinct(s.db.rows) && Lookup(s.db, fp).RevokedAt?
    ensures Lookup(Next(s, step).db, fp).RevokedAt? <==> !Unrevokes(s, step, fp)
  {
    hide Lookup, FindFingerprint, FindRow, Taken, Demote, RevokeWorkspace, Fresh;
    hide SettledRow, Distinct, Without, Removes;
    if fp.hex == "" {
      NamelessIsUnknown(s.db, fp);
    } else if Lands(s, step) {
      hide Delete;
      SavedLookup(s, step.n, fp);
    } else if step.DeleteStep? && At(s, step.n, Loaded) {
      var row := s.requests[step.n].row;
      DeletedLookup(s.db, row, step.now, fp);
      if !Present(s.db.rows, fp) { LookupGone(s.db, fp); AbsentIsKept(s.db, row, fp); }
    } else if step.DemoteStep? || step.LeaveStep? {
      hide Delete;
      RevokedInPlace(s, step, fp);
    }
  }

  lemma AbsentIsKept(db: Db, row: Identity, fp: Fingerprint)
    requires !Present(db.rows, fp)
    ensures !Removes(db, row, fp)
  {
  }

  lemma SavedLookup(s: Sys, n: nat, fp: Fingerprint)
    requires Distinct(s.db.rows) && Lands(s, SaveStep(n)) && fp.hex != ""
    ensures
      var r := s.requests[n];
      Lookup(Saved(s, n).db, fp)
      == if r.row.fingerprint == fp then AnswerOf(r.row.columns)
         else if !r.isNew && Removes(s.db, r.row, fp) then Buried(s.db.tombstones, fp)
         else Lookup(s.db, fp)
  {
    hide Lookup, FindRow, Taken, Distinct;
    var r := s.requests[n];
    if r.isNew { InsertedLookup(s.db, r.row, fp); } else { OverwrittenLookup(s.db, r.row, fp); }
  }

  /** Demoting and leaving change no revoked answer. */
  lemma RevokedInPlace(s: Sys, step: Step, fp: Fingerprint)
    requires Distinct(s.db.rows) && Lookup(s.db, fp).RevokedAt? && fp.hex != ""
    requires step.DemoteStep? || step.LeaveStep?
    ensures Lookup(Next(s, step).db, fp) == Lookup(s.db, fp)
  {
    hide Lookup, Demote, RevokeWorkspace, Distinct;
    forall i | 0 <= i < |s.db.rows| && s.db.rows[i].fingerprint == fp ensures s.db.rows[i].columns.status == Revoked {
      LookupRow(s.db, i);
    }
    InPlaceLookup(s.db, Next(s, step).db.rows, fp);
  }

  /** A fingerprint answered "revoked" is answered so in every later state if and only
      if no save lands an active row under it and no step takes its row away unburied. */
  lemma {:induction false} RevokedThroughout(s: Sys, steps: seq<Step>, fp: Fingerprint)
    requires Distinct(s.db.rows) && Lookup(s.db, fp).RevokedAt?
    ensures Always(s, steps, (x: Sys) => Lookup(x.db, fp).RevokedAt?)
        <==> Never(s, steps, (x, y) => Unrevokes(x, y, fp))
    decreases |steps|
  {
    hide Next, Lookup, Unrevokes, Distinct;
    if steps != [] {
      DistinctStep(s, steps[0]);
      RevokedStep(s, steps[0], fp);
      if !Unrevokes(s, steps[0], fp) { RevokedThroughout(Next(s, steps[0]), steps[1..], fp); }
    }
  }

  predicate UnderWay(r: Request) { !r.isNew && (r.stage == Ready || r.stage == Demoted) }

  ghost predicate RowSays(rows: seq<Identity>, fp: Fingerprint, answer: Answer) {
    forall i :: 0 <= i < |rows| && rows[i].fingerprint == fp ==> AnswerOf(rows[i].columns) == answer
  }

  predicate UpdateSays(r: Request, row: Identity, answer: Answer) {
    UnderWay(r) && r.row.id == row.id && r.row.fingerprint == row.fingerprint ==> AnswerOf(r.row.columns) == answer
  }

  ghost predicate UpdatesSay(rows: seq<Identity>, requests: seq<Request>, fp: Fingerprint, answer: Answer) {
    forall i, n :: 0 <= i < |rows| && rows[i].fingerprint == fp && 0 <= n < |requests| ==>
      UpdateSays(requests[n], rows[i], answer)
  }

  /** Its row, if it has one, gives this answer, and so does what any update under way
      would save over it: its hook read the row when it gave the answer. */
  ghost predicate Pinned(s: Sys, fp: Fingerprint, answer: Answer) {
    RowSays(s.db.rows, fp, answer) && UpdatesSay(s.db.rows, s.requests, fp, answer)
  }

  lemma PinnedStep(s: Sys, step: Step, fp: Fingerprint, answer: Answer)
    requires Inv(s) && !Crosses(s, step) && fp in s.issued && answer.RevokedAt? && Pinned(s, fp, answer)
    ensures Pinned(Next(s, step), fp, answer)
  {
    match step
    case SaveStep(n) => hide Saved, Inv, Pinned; if At(s, n, Demoted) { PinnedSave(s, n, fp, answer); }
    case DeleteStep(n, now) =>
      hide Inv, Delete, RowSays, UpdatesSay;
      if At(s, n, Loaded) { PinnedDelete(s, n, now, fp, answer); }
    case LoadStep(id) => hide FindRow, Inv;
    case CreateStep(_, _, _, _, _, _) => hide Inv, Fresh;
    case SettleStep(n, sent, now) =>
      hide FindRow, Accounted, Serious;
      if At(s, n, Loaded) { PinnedSettle(s, n, sent, now, fp, answer); }
    case DemoteStep(_) => hide Demote, Inv;
    case LeaveStep(_, _, _, _) => hide RevokeWorkspace, Inv;
  }

  lemma PinnedSettle(s: Sys, n: nat, sent: Identity, now: nat, fp: Fingerprint, answer: Answer)
    requires Distinct(s.db.rows) && At(s, n, Loaded) && answer.RevokedAt? && RowSays(s.db.rows, fp, answer)
    ensures forall i :: 0 <= i < |s.db.rows| && s.db.rows[i].fingerprint == fp ==>
              UpdateSays(SettledRow(s, n, sent, now), s.db.rows[i], answer)
  {
    hide FindRow;
    forall i | 0 <= i < |s.db.rows| && s.db.rows[i].fingerprint == fp
      ensures UpdateSays(SettledRow(s, n, sent, now), s.db.rows[i], answer)
    {
      FoundAt(s.db.rows, i);
    }
  }

  lemma PinnedSave(s: Sys, n: nat, fp: Fingerprint, answer: Answer)
    requires Inv(s) && At(s, n, Demoted) && !Crosses(s, SaveStep(n)) && fp in s.issued && Pinned(s, fp, answer)
    ensures Pinned(Saved(s, n), fp, answer)
  {
    hide FindRow, Taken, Accounted, Distinct;
  }

  lemma PinnedDelete(s: Sys, n: nat, now: nat, fp: Fingerprint, answer: Answer)
    requires At(s, n, Loaded) && Pinned(s, fp, answer)
    ensures Pinned(Next(s, DeleteStep(n, now)), fp, answer)
  {
    hide FindRow, Bury;
    var rows, t := s.db.rows, Next(s, DeleteStep(n, now));
    var k := FindRow(rows, s.requests[n].row.id, 0);
    if k.Some? {
      assert forall i :: 0 <= i < |t.db.rows| ==> t.db.rows[i] == rows[if i < k.value then i else i + 1];
    }
  }

  lemma GoneStays(s: Sys, step: Step, fp: Fingerprint)
    requires Inv(s) && !Crosses(s, step) && fp in s.issued && !Present(s.db.rows, fp)
    ensures !Present(Next(s, step).db.rows, fp) && Lookup(Next(s, step).db, fp) == Lookup(s.db, fp)
  {
    hide FindRow, Demote, RevokeWorkspace, Present, Lookup, Distinct, Taken, Owns, Fresh;
    var t := Next(s, step);
    if step.DemoteStep? || step.LeaveStep? {
      SamePresence(s.db.rows, t.db.rows);
    } else if Lands(s, step) {
      var r := s.requests[step.n];
      FoundPresent(s.db.rows, r.row.id);
      if r.isNew { InsertedPresence(s.db.rows, r.row); } else { OverwrittenPresence(s.db.rows, r.row); }
    } else if step.DeleteStep? && At(s, step.n, Loaded) {
      var k := FindRow(s.db.rows, s.requests[step.n].row.id, 0);
      if k.Some? { RemovedPresence(s.db.rows, k.value); }
    }
    LookupGone(s.db, fp);
    LookupGone(t.db, fp);
  }

  lemma ReadRow(db: Db, fp: Fingerprint) returns (k: nat)
    requires Distinct(db.rows) && Present(db.rows, fp) && fp.hex != ""
    ensures k < |db.rows| && db.rows[k].fingerprint == fp && Lookup(db, fp) == AnswerOf(db.rows[k].columns)
  {
    hide Lookup, Distinct, AnswerOf;
    k :| 0 <= k < |db.rows| && db.rows[k].fingerprint == fp;
    LookupRow(db, k);
  }

  /** In one step, a pinned answer stays what it is while its row does, and revoked after. */
  lemma FinalStep(s: Sys, step: Step, fp: Fingerprint)
    requires Inv(s) && !Crosses(s, step)
    requires Lookup(s.db, fp).RevokedAt? && Pinned(s, fp, Lookup(s.db, fp))
    ensures
      var t := Next(s, step);
      && Lookup(t.db, fp).RevokedAt? && Pinned(t, fp, Lookup(t.db, fp))
      && (Present(t.db.rows, fp) || !Present(s.db.rows, fp) ==> Lookup(t.db, fp) == Lookup(s.db, fp))
      && (!Present(s.db.rows, fp) ==> !Present(t.db.rows, fp))
  {
    hide Lookup, FindRow, Serious, Next, Crosses, UpdatesSay, Distinct, Present;
    var t := Next(s, step);
    InvIsDefinite(s);
    StepKeeps(s, step);
    PinnedStep(s, step, fp, Lookup(s.db, fp));
    if !Present(s.db.rows, fp) {
      GoneStays(s, step, fp);
    } else if Present(t.db.rows, fp) {
      var k := ReadRow(t.db, fp);
    } else {
      LookupGone(t.db, fp);
      StaysIssued(s, step);
      NothingPinned(t, fp, Lookup(t.db, fp));
    }
  }

  lemma StaysIssued(s: Sys, step: Step)
    ensures s.issued <= Next(s, step).issued
  {
    hide Insert, Overwrite, Demote, Delete, RevokeWorkspace, Fresh, SettledRow;
  }

  lemma NothingPinned(s: Sys, fp: Fingerprint, answer: Answer)
    requires !Present(s.db.rows, fp)
    ensures Pinned(s, fp, answer)
  {
  }

  /** Revocation is final. Once every update under way has read the row revoked, then
      over any run that keeps the answers definite, the answer is "revoked" for good;
      its time and reason stand while the row does, and from its removal on. */
  lemma {:induction false} RevocationIsFinal(s: Sys, steps: seq<Step>, fp: Fingerprint)
    requires Inv(s) && Never(s, steps, (x, y) => Crosses(x, y))
    requires Lookup(s.db, fp).RevokedAt? && Pinned(s, fp, Lookup(s.db, fp))
    ensures
      var t := Run(s, steps);
      && Lookup(t.db, fp).RevokedAt?
      && (Present(t.db.rows, fp) || !Present(s.db.rows, fp) ==> Lookup(t.db, fp) == Lookup(s.db, fp))
      && (!Present(s.db.rows, fp) ==> !Present(t.db.rows, fp))
    decreases |steps|
  {
    hide Inv, Next, Crosses, Lookup, Pinned, Present;
    if steps != [] {
      StepKeeps(s, steps[0]);
      FinalStep(s, steps[0], fp);
      RevocationIsFinal(Next(s, steps[0]), steps[1..], fp);
    }
  }
}
