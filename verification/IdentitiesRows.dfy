/** What the rows of identities hold over every interleaving, and runs that are reachable. */
module IdentitiesRows {
  import opened Results
  import opened Identities
  import opened IdentitiesTheorems

  // -------------------------------------------------------------------- one primary

  predicate Placed(row: Identity) { row.user != NOBODY && row.workspace != NOBODY }

  /** Two primary identities of one person in one workspace. */
  predicate Clash(a: Identity, b: Identity) {
    a.columns.isPrimary && b.columns.isPrimary && Placed(a) && a.user == b.user && a.workspace == b.workspace
  }

  ghost predicate OnePrimary(rows: seq<Identity>) {
    forall i, j :: 0 <= i < j < |rows| ==> !Clash(rows[i], rows[j])
  }

  /** The row that lands is primary beside another stored row that is. */
  ghost predicate Doubles(s: Sys, step: Step) {
    Lands(s, step)
    && exists i :: 0 <= i < |s.db.rows| && s.db.rows[i].id != s.requests[step.n].row.id
                   && Clash(s.db.rows[i], s.requests[step.n].row)
  }

  lemma OverwrittenPrimary(rows: seq<Identity>, row: Identity)
    requires Distinct(rows) && OnePrimary(rows) && Overwrites(rows, row)
    ensures OnePrimary(Overwrite(rows, row))
        <==> !exists i :: 0 <= i < |rows| && rows[i].id != row.id && Clash(rows[i], row)
  {
    hide FindRow, Taken, Clash;
    var k := FindRow(rows, row.id, 0).value;
    var after := rows[k := row];
    ClashIsMutual();
    if i :| 0 <= i < |rows| && rows[i].id != row.id && Clash(rows[i], row) {
      assert Clash(after[i], after[k]) && Clash(after[k], after[i]);
    }
  }

  lemma InsertedPrimary(rows: seq<Identity>, row: Identity)
    requires OnePrimary(rows) && Inserts(rows, row)
    ensures OnePrimary(rows + [row]) <==> !exists i :: 0 <= i < |rows| && rows[i].id != row.id && Clash(rows[i], row)
  {
    hide FindRow, Taken, Clash;
    var after := rows + [row];
    if i :| 0 <= i < |rows| && rows[i].id != row.id && Clash(rows[i], row) {
      assert Clash(after[i], after[|rows|]);
    }
  }

  lemma ClashIsMutual()
    ensures forall a, b :: Clash(a, b) <==> Clash(b, a)
  {
  }

  lemma OnePrimaryStep(s: Sys, step: Step)
    requires Distinct(s.db.rows) && OnePrimary(s.db.rows)
    ensures OnePrimary(Next(s, step).db.rows) <==> !Doubles(s, step)
  {
    hide FindRow, Taken, Demote, RevokeWorkspace, Bury, Fresh, SettledRow;
    if Lands(s, step) {
      hide Distinct, OnePrimary, Clash;
      var r := s.requests[step.n];
      if r.isNew { InsertedPrimary(s.db.rows, r.row); } else { OverwrittenPrimary(s.db.rows, r.row); }
    } else if step.DeleteStep? && At(s, step.n, Loaded) {
      var k := FindRow(s.db.rows, s.requests[step.n].row.id, 0);
      if k.Some? { RemovedPresence(s.db.rows, k.value); }
    }
  }

  /** A person has at most one primary identity in a workspace in every state of a run
      if and only if no save lands a primary one beside another that is stored so. */
  lemma {:induction false} OnePrimaryThroughout(s: Sys, steps: seq<Step>)
    requires Distinct(s.db.rows) && OnePrimary(s.db.rows)
    ensures Always(s, steps, (x: Sys) => OnePrimary(x.db.rows)) <==> Never(s, steps, (x, y) => Doubles(x, y))
    decreases |steps|
  {
    hide Next, OnePrimary, Doubles, Distinct;
    if steps != [] {
      DistinctStep(s, steps[0]);
      OnePrimaryStep(s, steps[0]);
      if !Doubles(s, steps[0]) { OnePrimaryThroughout(Next(s, steps[0]), steps[1..]); }
    }
  }

  /** A save that follows its own demotion at once doubles nothing. */
  lemma DemotingThenSaving(s: Sys, n: nat)
    requires Distinct(s.db.rows) && OnePrimary(s.db.rows) && At(s, n, Ready)
    ensures OnePrimary(Next(Next(s, DemoteStep(n)), SaveStep(n)).db.rows)
  {
    hide FindRow, Taken, OnePrimary;
    var t := Next(s, DemoteStep(n));
    DistinctStep(s, DemoteStep(n));
    OnePrimaryStep(s, DemoteStep(n));
    OnePrimaryStep(t, SaveStep(n));
  }

  // ----------------------------------------------------- what a revoked identity keeps

  /** A revoked identity is not primary. */
  predicate Plain(c: Columns) { c.status == Revoked ==> !c.isPrimary }

  /** A revoked identity holds no copy of its key. */
  predicate Cleared(c: Columns) { c.status == Revoked ==> KeyCleared(c) }

  ghost predicate AllPlain(rows: seq<Identity>) {
    forall i :: 0 <= i < |rows| ==> Plain(rows[i].columns)
  }

  ghost predicate AllCleared(rows: seq<Identity>) {
    forall i :: 0 <= i < |rows| ==> Cleared(rows[i].columns)
  }

  /** What a hook that found its row has settled. */
  ghost predicate HooksRan(s: Sys) {
    forall n :: 0 <= n < |s.requests| ==> HookRan(s.requests[n])
  }

  predicate HookRan(r: Request) {
    && (r.stage == Loaded ==> !r.isNew)
    && ((r.stage == Ready || r.stage == Demoted) && (r.isNew || r.original.Some?) ==>
          Plain(r.row.columns) && Cleared(r.row.columns))
    && (UnderWay(r) && r.original.Some? && IsActive(r.row.columns) ==> IsActive(r.original.value))
  }

  lemma HookRuns(s: Sys, n: nat, sent: Identity, now: nat)
    requires At(s, n, Loaded) && !s.requests[n].isNew
    ensures HookRan(SettledRow(s, n, sent, now))
  {
    hide FindRow;
  }

  /** A save that makes a revoked fingerprint stand again is of an update whose hook read
      an active row, or none: unless it lands another fingerprint's or a new row. */
  lemma ReinstatingHookSawActive(s: Sys, n: nat, fp: Fingerprint)
    requires HooksRan(s) && Lands(s, SaveStep(n)) && !s.requests[n].isNew && s.requests[n].row.fingerprint == fp
    requires Unrevokes(s, SaveStep(n), fp)
    ensures s.requests[n].original.None? || IsActive(s.requests[n].original.value)
  {
    hide FindRow, Taken;
    assert HookRan(s.requests[n]);
  }

  lemma HooksStep(s: Sys, step: Step)
    requires HooksRan(s)
    ensures HooksRan(Next(s, step))
  {
    hide FindRow, Insert, Inserts, Overwrite, Demote, RevokeWorkspace, Delete, Fresh, SettledRow;
    if step.SettleStep? && At(s, step.n, Loaded) { HookRuns(s, step.n, step.sent, step.now); }
  }

  /** A save lands what a hook that found no row left alone. */
  predicate LandsUnread(s: Sys, step: Step) {
    Lands(s, step) && !s.requests[step.n].isNew && s.requests[step.n].original.None?
  }

  predicate LeavesAKey(db: Db, user: Id, workspace: Id) {
    user != NOBODY && workspace != NOBODY
    && exists i :: 0 <= i < |db.rows| && Leaving(db.rows[i], user, workspace) && !KeyCleared(db.rows[i].columns)
  }

  predicate KeepsPrimary(s: Sys, step: Step) {
    LandsUnread(s, step) && !Plain(s.requests[step.n].row.columns)
  }

  predicate KeepsKey(s: Sys, step: Step) {
    || (step.LeaveStep? && LeavesAKey(s.db, step.user, step.workspace))
    || (LandsUnread(s, step) && !Cleared(s.requests[step.n].row.columns))
  }

  lemma RevokedKeepStep(s: Sys, step: Step)
    requires HooksRan(s)
    ensures AllPlain(s.db.rows) ==> (AllPlain(Next(s, step).db.rows) <==> !KeepsPrimary(s, step))
    ensures AllCleared(s.db.rows) ==> (AllCleared(Next(s, step).db.rows) <==> !KeepsKey(s, step))
  {
    hide FindRow, Taken, Bury, Fresh, SettledRow;
    var t := Next(s, step);
    if Lands(s, step) {
      LandedAmong(s, step.n);
    } else if step.DeleteStep? && At(s, step.n, Loaded) {
      var k := FindRow(s.db.rows, s.requests[step.n].row.id, 0);
      if k.Some? {
        assert forall i :: 0 <= i < |t.db.rows| ==> t.db.rows[i] == s.db.rows[if i < k.value then i else i + 1];
      }
    } else if step.LeaveStep? && LeavesAKey(s.db, step.user, step.workspace) {
      var i :| 0 <= i < |s.db.rows| && Leaving(s.db.rows[i], step.user, step.workspace)
               && !KeyCleared(s.db.rows[i].columns);
      assert !Cleared(t.db.rows[i].columns);
    }
  }

  lemma LandedAmong(s: Sys, n: nat)
    requires Lands(s, SaveStep(n))
    ensures
      var rows, row := Saved(s, n).db.rows, s.requests[n].row;
      exists k :: 0 <= k < |rows| && rows[k] == row
                  && forall i :: 0 <= i < |rows| && i != k ==> i < |s.db.rows| && rows[i] == s.db.rows[i]
  {
    hide FindRow, Taken;
    var rows, r := Saved(s, n).db.rows, s.requests[n];
    var k := if r.isNew then |s.db.rows| else FindRow(s.db.rows, r.row.id, 0).value;
    assert rows[k] == r.row;
  }

  /** Over every run: a revoked identity is primary somewhere along it if and only if a
      save lands one whose hook found no row; and it keeps a copy of its key if and
      only if such a save lands one, or someone leaves with a key stored. */
  lemma {:induction false} RevokedKeepNothing(s: Sys, steps: seq<Step>)
    requires HooksRan(s)
    ensures AllPlain(s.db.rows) ==>
              (Always(s, steps, (x: Sys) => AllPlain(x.db.rows)) <==> Never(s, steps, (x, y) => KeepsPrimary(x, y)))
    ensures AllCleared(s.db.rows) ==>
              (Always(s, steps, (x: Sys) => AllCleared(x.db.rows)) <==> Never(s, steps, (x, y) => KeepsKey(x, y)))
    decreases |steps|
  {
    hide Next, HooksRan, AllPlain, AllCleared, KeepsPrimary, KeepsKey;
    if steps != [] {
      HooksStep(s, steps[0]);
      RevokedKeepStep(s, steps[0]);
      RevokedKeepNothing(Next(s, steps[0]), steps[1..]);
    }
  }

  // ------------------------------------------------------------------ reachable runs

  /** The empty database is one that every theorem above starts from. */
  lemma StartHolds()
    ensures Inv(START) && Paired(START) && OnePrimary(START.db.rows) && HooksRan(START)
    ensures AllPlain(START.db.rows) && AllCleared(START.db.rows)
  {
  }

  lemma {:induction false} RunLast(s: Sys, steps: seq<Step>, step: Step)
    ensures Run(s, steps + [step]) == Next(Run(s, steps), step)
    decreases |steps|
  {
    hide Next;
    var all := steps + [step];
    if steps == [] {
      assert all[0] == step && all[1..] == [];
    } else {
      assert all[0] == steps[0] && all[1..] == steps[1..] + [step];
      RunLast(Next(s, steps[0]), steps[1..], step);
    }
  }

  lemma Advance(s: Sys, steps: seq<Step>, k: nat)
    requires k < |steps|
    ensures Run(s, steps[..k + 1]) == Next(Run(s, steps[..k]), steps[k])
  {
    hide Next, Run;
    assert steps[..k + 1] == steps[..k] + [steps[k]];
    RunLast(s, steps[..k], steps[k]);
  }

  /** One identity, created, with no request under way. */
  function Newborn(id: Id, user: Id, workspace: Id, fp: Fingerprint): Sys {
    var row := NewIdentity(id, user, workspace, fp, "d", false);
    Sys(Db([row], map[]), {fp}, [Request(row, true, None, Over)])
  }

  lemma NewbornIsReachable(id: Id, user: Id, workspace: Id, fp: Fingerprint)
    requires fp.hex != ""
    ensures
      var steps := [CreateStep(id, user, workspace, fp, "d", false), DemoteStep(0), SaveStep(0)];
      Run(START, steps) == Newborn(id, user, workspace, fp)
  {
    hide Run;
    var steps := [CreateStep(id, user, workspace, fp, "d", false), DemoteStep(0), SaveStep(0)];
    var row := NewIdentity(id, user, workspace, fp, "d", false);
    NoSteps(START, steps[..0]);
    assert Run(START, steps[..1]) == Sys(Db([], map[]), {}, [Request(row, true, None, Ready)])
    by { Advance(START, steps, 0); }
    assert Run(START, steps[..2]) == Sys(Db([], map[]), {}, [Request(row, true, None, Demoted)])
    by { Advance(START, steps, 1); }
    Advance(START, steps, 2);
    assert steps[..3] == steps;
  }

  lemma NoSteps(s: Sys, steps: seq<Step>)
    requires steps == []
    ensures Run(s, steps) == s
  {
  }

  /** The row loaded and read by the hook of an edit that sends it back. */
  function Edited(id: Id, user: Id, workspace: Id, fp: Fingerprint, columns: Columns): Sys {
    var s := Newborn(id, user, workspace, fp);
    var row := s.db.rows[0];
    s.(requests := s.requests + [Request(row.(columns := columns), false, Some(row.columns), Ready)])
  }

  lemma EditedIsReachable(id: Id, user: Id, workspace: Id, fp: Fingerprint, columns: Columns)
    requires fp.hex != "" && columns.status == Active
    ensures
      var s := Newborn(id, user, workspace, fp);
      Run(s, [LoadStep(id), SettleStep(1, s.db.rows[0].(columns := columns), 5)])
      == Edited(id, user, workspace, fp, columns)
  {
    hide Run;
    var s := Newborn(id, user, workspace, fp);
    var steps := [LoadStep(id), SettleStep(1, s.db.rows[0].(columns := columns), 5)];
    NoSteps(s, steps[..0]);
    assert Run(s, steps[..1]) == s.(requests := s.requests + [Request(s.db.rows[0], false, None, Loaded)])
    by { Advance(s, steps, 0); }
    Advance(s, steps, 1);
    assert steps[..2] == steps;
  }

  /** An edit has read the row while it stands; the person leaves and the identity is
      revoked, then the edit is saved: the fingerprint stands again. */
  lemma StaleEditReinstates(id: Id, user: Id, workspace: Id, fp: Fingerprint)
    requires user != NOBODY && workspace != NOBODY && fp.hex != ""
    ensures
      var s := Edited(id, user, workspace, fp, Newborn(id, user, workspace, fp).db.rows[0].columns);
      var steps := [LeaveStep(user, workspace, "membership_ended", 9), DemoteStep(1), SaveStep(1)];
      && Lookup(Run(s, steps[..1]).db, fp) == RevokedAt(9, "membership_ended")
      && Lookup(Run(s, steps).db, fp) == Stands
  {
    hide Run;
    var s := Edited(id, user, workspace, fp, Newborn(id, user, workspace, fp).db.rows[0].columns);
    var row, edit := s.db.rows[0], s.requests[1];
    var steps := [LeaveStep(user, workspace, "membership_ended", 9), DemoteStep(1), SaveStep(1)];
    var ended := Db([row.(columns := Ended(row.columns, "membership_ended", 9))], map[]);
    NoSteps(s, steps[..0]);
    assert Run(s, steps[..1]) == s.(db := ended)
    by { Advance(s, steps, 0); }
    assert Run(s, steps[..2]) == Sys(ended, s.issued, s.requests[1 := edit.(stage := Demoted)])
    by { Advance(s, steps, 1); }
    assert Run(s, steps[..3]).db == s.db
    by { Advance(s, steps, 2); }
    assert steps[..3] == steps;
  }

  const KEYED := Columns(Active, 0, "", false, "wrap", 1, "")

  /** A member stores a key and leaves: their identity is revoked and the copy stays. */
  lemma LeavingKeepsTheKey(id: Id, user: Id, workspace: Id, fp: Fingerprint)
    requires user != NOBODY && workspace != NOBODY && fp.hex != ""
    ensures
      var steps := [DemoteStep(1), SaveStep(1), LeaveStep(user, workspace, "membership_ended", 9)];
      var t := Run(Edited(id, user, workspace, fp, KEYED), steps);
      && Lookup(t.db, fp) == RevokedAt(9, "membership_ended")
      && |t.db.rows| == 1 && t.db.rows[0].columns.sealedKey == "wrap"
  {
    hide Run;
    var s := Edited(id, user, workspace, fp, KEYED);
    var steps := [DemoteStep(1), SaveStep(1), LeaveStep(user, workspace, "membership_ended", 9)];
    var edit := s.requests[1];
    NoSteps(s, steps[..0]);
    assert Run(s, steps[..1]) == s.(requests := s.requests[1 := edit.(stage := Demoted)])
    by { Advance(s, steps, 0); }
    assert Run(s, steps[..2]).db == Db([edit.row], map[])
    by { Advance(s, steps, 1); }
    assert Run(s, steps[..3]).db == Db([edit.row.(columns := Ended(KEYED, "membership_ended", 9))], map[])
    by { Advance(s, steps, 2); }
    assert steps[..3] == steps;
  }

  /** Two creates that both demote before either saves leave two primary identities. */
  lemma TwoPrimaries(a: Id, b: Id, user: Id, workspace: Id, fa: Fingerprint, fb: Fingerprint)
    requires a != b && fa != fb && user != NOBODY && workspace != NOBODY && fa.hex != "" && fb.hex != ""
    ensures
      var steps := [CreateStep(a, user, workspace, fa, "d", true), CreateStep(b, user, workspace, fb, "d", true),
                    DemoteStep(0), DemoteStep(1), SaveStep(0), SaveStep(1)];
      !OnePrimary(Run(START, steps[..6]).db.rows)
  {
    hide Run;
    var steps := [CreateStep(a, user, workspace, fa, "d", true), CreateStep(b, user, workspace, fb, "d", true),
                  DemoteStep(0), DemoteStep(1), SaveStep(0), SaveStep(1)];
    var ra, rb := NewIdentity(a, user, workspace, fa, "d", true), NewIdentity(b, user, workspace, fb, "d", true);
    var pa, pb := Request(ra, true, None, Ready), Request(rb, true, None, Ready);
    assert Run(START, steps[..0]) == START by { NoSteps(START, steps[..0]); }
    assert Run(START, steps[..1]) == Sys(Db([], map[]), {}, [pa])
    by { Advance(START, steps, 0); }
    assert Run(START, steps[..2]) == Sys(Db([], map[]), {}, [pa, pb])
    by { Advance(START, steps, 1); }
    assert Run(START, steps[..3]) == Sys(Db([], map[]), {}, [pa.(stage := Demoted), pb])
    by { Advance(START, steps, 2); }
    assert Run(START, steps[..4]) == Sys(Db([], map[]), {}, [pa.(stage := Demoted), pb.(stage := Demoted)])
    by { Advance(START, steps, 3); }
    assert Run(START, steps[..5]) == Sys(Db([ra], map[]), {fa}, [pa.(stage := Over), pb.(stage := Demoted)])
    by { Advance(START, steps, 4); }
    Advance(START, steps, 5);
    assert Run(START, steps[..6]).db.rows == [ra, rb];
    assert Clash([ra, rb][0], [ra, rb][1]);
  }

  const DEFIANT := Columns(Revoked, 0, "", true, "wrap", 1, "")

  /** The identity deleted after an edit loaded it, the edit settled against nothing. */
  function Waiting(id: Id, user: Id, workspace: Id, one: Fingerprint): Sys {
    var row := NewIdentity(id, user, workspace, one, "d", false);
    Sys(Db([], map[one := Tombstone(6, "deleted", "d")]), {one},
        [Request(row, true, None, Over), Request(row.(columns := DEFIANT), false, None, Ready),
         Request(row, false, None, Over)])
  }

  lemma WaitingIsReachable(id: Id, user: Id, workspace: Id, one: Fingerprint)
    requires one.hex != ""
    ensures
      var s := Newborn(id, user, workspace, one);
      var sent := s.db.rows[0].(columns := DEFIANT);
      Run(s, [LoadStep(id), LoadStep(id), DeleteStep(2, 6), SettleStep(1, sent, 7)])
      == Waiting(id, user, workspace, one)
  {
    hide Run;
    var s := Newborn(id, user, workspace, one);
    var row := s.db.rows[0];
    var steps := [LoadStep(id), LoadStep(id), DeleteStep(2, 6), SettleStep(1, row.(columns := DEFIANT), 7)];
    var held := Request(row, false, None, Loaded);
    NoSteps(s, steps[..0]);
    assert Run(s, steps[..1]) == s.(requests := s.requests + [held])
    by { Advance(s, steps, 0); }
    assert Run(s, steps[..2]) == s.(requests := s.requests + [held, held])
    by { Advance(s, steps, 1); }
    var grave := map[one := Tombstone(6, "deleted", "d")];
    assert Run(s, steps[..3]) == Sys(Db([], grave), {one}, s.requests + [held, held.(stage := Over)])
    by { Advance(s, steps, 2); }
    Advance(s, steps, 3);
    assert steps[..4] == steps;
  }

  /** Another identity comes under the same id before the edit is saved. The newcomer's
      fingerprint becomes "unknown", and the row that the edit leaves is revoked,
      primary and keeps its key. */
  lemma ReusedIdTakesStaleEdit(id: Id, user: Id, workspace: Id, one: Fingerprint, two: Fingerprint)
    requires one != two && one.hex != "" && two.hex != ""
    ensures
      var steps := [CreateStep(id, user, workspace, two, "d", false), DemoteStep(3), SaveStep(3),
                    DemoteStep(1), SaveStep(1)];
      var s := Waiting(id, user, workspace, one);
      var t := Run(s, steps);
      && Lookup(Run(s, steps[..3]).db, two) == Stands && Lookup(t.db, two) == Unknown
      && !AllPlain(t.db.rows) && !AllCleared(t.db.rows)
  {
    hide Run;
    var steps := [CreateStep(id, user, workspace, two, "d", false), DemoteStep(3), SaveStep(3),
                  DemoteStep(1), SaveStep(1)];
    var s := Waiting(id, user, workspace, one);
    var next := NewIdentity(id, user, workspace, two, "d", false);
    var create := Request(next, true, None, Ready);
    NoSteps(s, steps[..0]);
    assert Run(s, steps[..1]) == s.(requests := s.requests + [create])
    by { Advance(s, steps, 0); }
    assert Run(s, steps[..2]) == s.(requests := s.requests + [create.(stage := Demoted)])
    by { Advance(s, steps, 1); }
    var saved := Sys(Db([next], s.db.tombstones), {one, two}, s.requests + [create.(stage := Over)]);
    assert Run(s, steps[..3]) == saved
    by { Advance(s, steps, 2); }
    var edit := saved.requests[1];
    assert Run(s, steps[..4]) == saved.(requests := saved.requests[1 := edit.(stage := Demoted)])
    by { Advance(s, steps, 3); }
    assert Run(s, steps[..5]).db == saved.db.(rows := [edit.row])
    by { Advance(s, steps, 4); }
    assert steps[..5] == steps;
  }
}
