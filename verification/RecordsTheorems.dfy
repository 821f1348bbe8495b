/** Over every run of saves, seals and deletions: the alias graph has no cycle, an
    entry keeps its shape, and no plain save undoes a seal. */
module RecordsTheorems {
  import opened Results
  import opened Records

  datatype Env = Env(limits: Limits, tools: Tools)

  datatype Step =
    | CreateStep(id: Id, rec: Entry, upload: Option<Upload>)
    | UpdateStep(id: Id, loaded: Entry, edited: Entry, upload: Option<Upload>)
    | SealCreateStep(id: Id, blank: Entry, payload: Payload, allowed: bool)
    | SealStep(id: Id, payload: Payload, expected: nat, key: string, title: string, kind: Option<Kind>, allowed: bool)
    | UnsealStep(id: Id, value: string, expected: nat, allowed: bool)
    | DeleteStep(id: Id)

  /** A row as it once stood, in one of the lives of its id. */
  datatype Past = Past(id: Id, life: nat, rec: Entry)

  datatype Sys = Sys(rows: Rows, lives: map<Id, nat>, past: set<Past>)

  const START := Sys(map[], map[], {})

  ghost function Apply(rows: Rows, step: Step, env: Env): (Rows, Outcome<()>) {
    match step
    case CreateStep(id, rec, upload) =>
      PlainCreate(rows, id, rec, upload, env.limits, FileBytes(rows, rec.workspace, id), env.tools)
    case UpdateStep(id, loaded, edited, upload) =>
      PlainUpdate(rows, id, loaded, edited, upload, env.limits, FileBytes(rows, edited.workspace, id), env.tools)
    case SealCreateStep(id, blank, payload, allowed) =>
      SealCreate(rows, id, blank, payload, allowed, env.limits, env.tools)
    case SealStep(id, payload, expected, key, title, kind, allowed) =>
      SealWrite(rows, id, payload, expected, key, title, kind, allowed, env.limits, env.tools)
    case UnsealStep(id, value, expected, allowed) => Unseal(rows, id, value, expected, allowed, env.limits, env.tools)
    case DeleteStep(id) => (Delete(rows, id), Ok(()))
  }

  function Life(s: Sys, id: Id): nat { if id in s.lives then s.lives[id] else 0 }

  ghost function Next(s: Sys, step: Step, env: Env): Sys {
    var rows := Apply(s.rows, step, env).0;
    if step.DeleteStep? || step.id !in rows || (step.id in s.rows && rows == s.rows) then s.(rows := rows)
    else
      var life := if step.id in s.rows then Life(s, step.id) else Life(s, step.id) + 1;
      Sys(rows, s.lives[step.id := life], s.past + {Past(step.id, life, rows[step.id])})
  }

  ghost function Run(s: Sys, steps: seq<Step>, env: Env): Sys
    decreases |steps|
  {
    if steps == [] then s else Run(Next(s, steps[0], env), steps[1..], env)
  }

  // ------------------------------------------------------------- what a save stores

  /** The shape every stored entry has. */
  predicate Shape(rec: Entry) {
    && (rec.isSealed ==>
          rec.value == "" && rec.sealedValue != "" && rec.keyWrap != "" && rec.kind != File && rec.aliasOf.None?)
    && (rec.aliasOf.Some? ==> rec.value == "" && rec.kind != File)
    && (rec.kind == File ==> rec.file != "" && rec.value == "")
    && (rec.kind != File ==> rec.file == "")
    && (rec.kind != File && rec.aliasOf.None? && !rec.isSealed ==> rec.value != "")
  }

  /** An alias is written to a different entry that is none itself. */
  predicate AliasStored(rows: Rows, id: Id, rec: Entry) {
    rec.aliasOf.Some? ==>
      rec.aliasOf.value != id && rec.aliasOf.value in rows && rows[rec.aliasOf.value].aliasOf.None?
  }

  predicate NamedUpload(upload: Option<Upload>) { upload.Some? ==> upload.value.stored != "" }

  lemma ValidateStores(rows: Rows, id: Id, rec: Entry, before: string, upload: Option<Upload>, limits: Limits,
                       used: nat, tools: Tools)
    requires NamedUpload(upload)
    ensures
      var r := Validate(rows, id, rec, before, upload, limits, used, tools);
      r.Ok? ==>
        && Shape(r.value) && AliasStored(rows, id, r.value)
        && SameSealing(r.value, rec) && r.value.key == rec.key && r.value.workspace == rec.workspace
        && r.value.aliasOf == rec.aliasOf && r.value.kind == rec.kind
        && (upload.Some? && limits.maxStorage.Some? && rec.kind == File ==>
              r.value.size == upload.value.size && used + r.value.size <= limits.maxStorage.value)
  {
  }

  predicate Named(step: Step) {
    (step.CreateStep? || step.UpdateStep?) ==> NamedUpload(step.upload)
  }

  /** Every request changes one row at most, and what it stores is validated. */
  lemma ApplyStores(rows: Rows, step: Step, env: Env)
    requires Named(step) && !step.DeleteStep?
    ensures
      var after := Apply(rows, step, env).0;
      || after == rows
      || (step.id in after && after == rows[step.id := after[step.id]]
          && Shape(after[step.id]) && AliasStored(rows, step.id, after[step.id]))
  {
    hide Validate, Shape, AliasStored, FileBytes, SameSealing, NothingSealed, ValidPayload;
    match step
    case CreateStep(id, rec, upload) =>
      ValidateStores(rows, id, rec, "", upload, env.limits, FileBytes(rows, rec.workspace, id), env.tools);
    case UpdateStep(id, loaded, edited, upload) =>
      var used := FileBytes(rows, edited.workspace, id);
      ValidateStores(rows, id, edited, loaded.filename, upload, env.limits, used, env.tools);
    case SealCreateStep(id, blank, payload, allowed) =>
      var made := Blank(blank.workspace, blank.key, blank.title, blank.kind, "");
      ValidateStores(rows, id, ApplySealed(made, payload, 1), "", None, env.limits, 0, env.tools);
    case SealStep(id, payload, expected, key, title, kind, allowed) =>
      if id in rows {
        var written := ApplySealed(rows[id], payload, expected + 1);
        var titled := if title != "" then written.(title := title) else written;
        var typed := if kind.Some? then titled.(kind := kind.value) else titled;
        ValidateStores(rows, id, typed, rows[id].filename, None, env.limits, 0, env.tools);
      }
    case UnsealStep(id, value, expected, allowed) =>
      if id in rows {
        var plain := rows[id].(isSealed := false, value := value, sealedValue := "", sealedVersion := expected + 1,
                               keyEpoch := 0, keyWrap := "");
        ValidateStores(rows, id, plain, rows[id].filename, None, env.limits, 0, env.tools);
      }
  }

  // --------------------------------------------------------------- the alias graph

  /** Following aliases from an entry ends within n steps. */
  ghost predicate Ends(rows: Rows, id: Id, n: nat)
    decreases n
  {
    id in rows && rows[id].aliasOf.Some? ==> n > 0 && Ends(rows, rows[id].aliasOf.value, n - 1)
  }

  ghost predicate AllEnd(rows: Rows) {
    forall id :: id in rows ==> exists n: nat :: Ends(rows, id, n)
  }

  ghost predicate NoDangling(rows: Rows) {
    forall id :: id in rows && rows[id].aliasOf.Some? ==> rows[id].aliasOf.value in rows
  }

  ghost predicate AllShaped(rows: Rows) {
    forall id :: id in rows ==> Shape(rows[id])
  }

  ghost predicate WellKept(rows: Rows) { AllEnd(rows) && NoDangling(rows) && AllShaped(rows) }

  /** Writing one row whose alias is a sink lengthens a path by one step at most. */
  lemma {:induction false} EndsAfterWrite(rows: Rows, id: Id, rec: Entry, x: Id, n: nat)
    requires AliasStored(rows, id, rec) && Ends(rows, x, n)
    ensures Ends(rows[id := rec], x, n + 1)
    decreases n
  {
    var after := rows[id := rec];
    if x == id {
      if rec.aliasOf.Some? {
        assert Ends(after, rec.aliasOf.value, n);
      }
    } else if x in rows && rows[x].aliasOf.Some? {
      EndsAfterWrite(rows, id, rec, rows[x].aliasOf.value, n - 1);
    }
  }

  lemma {:induction false} EndsInPart(rows: Rows, part: Rows, x: Id, n: nat)
    requires Ends(rows, x, n) && forall id :: id in part ==> id in rows && part[id] == rows[id]
    ensures Ends(part, x, n)
    decreases n
  {
    if x in part && part[x].aliasOf.Some? {
      EndsInPart(rows, part, part[x].aliasOf.value, n - 1);
    }
  }

  lemma WriteKeeps(rows: Rows, id: Id, rec: Entry)
    requires WellKept(rows) && Shape(rec) && AliasStored(rows, id, rec)
    ensures WellKept(rows[id := rec])
  {
    hide Shape;
    var after := rows[id := rec];
    forall x | x in after ensures exists n: nat :: Ends(after, x, n) {
      if x == id {
        SinkEnds(rows, rec);
        var n: nat := if rec.aliasOf.Some? then 1 else 0;
        assert Ends(after, x, n);
      } else {
        var n: nat :| Ends(rows, x, n);
        EndsAfterWrite(rows, id, rec, x, n);
      }
    }
  }

  lemma SinkEnds(rows: Rows, rec: Entry)
    requires rec.aliasOf.Some? ==> rec.aliasOf.value in rows && rows[rec.aliasOf.value].aliasOf.None?
    ensures rec.aliasOf.Some? ==> Ends(rows, rec.aliasOf.value, 0)
  {
  }

  lemma DeleteKeeps(rows: Rows, target: Id)
    requires WellKept(rows)
    ensures WellKept(Delete(rows, target))
  {
    hide Shape, LeadsTo;
    var after := Delete(rows, target);
    forall x | x in after ensures exists n: nat :: Ends(after, x, n) {
      var n: nat :| Ends(rows, x, n);
      EndsInPart(rows, after, x, n);
    }
    forall x | x in after && after[x].aliasOf.Some? ensures after[x].aliasOf.value in after {
      LeadsThrough(rows, x, target);
    }
  }

  lemma LeadsThrough(rows: Rows, x: Id, target: Id)
    requires x in rows && rows[x].aliasOf.Some?
    ensures Leads(rows, rows[x].aliasOf.value, target) ==> Leads(rows, x, target)
  {
    if Leads(rows, rows[x].aliasOf.value, target) {
      var n: nat :| LeadsTo(rows, rows[x].aliasOf.value, target, n);
      assert LeadsTo(rows, x, target, n + 1);
    }
  }

  lemma StepKeepsRows(s: Sys, step: Step, env: Env)
    requires WellKept(s.rows) && Named(step)
    ensures WellKept(Next(s, step, env).rows)
  {
    hide WellKept, Shape, AliasStored, Apply, Named;
    NextRows(s, step, env);
    if step.DeleteStep? {
      DeleteKeeps(s.rows, step.id);
    } else {
      ApplyStores(s.rows, step, env);
      var after := Apply(s.rows, step, env).0;
      if after != s.rows {
        WriteKeeps(s.rows, step.id, after[step.id]);
      }
    }
  }

  lemma NextRows(s: Sys, step: Step, env: Env)
    ensures Next(s, step, env).rows == Apply(s.rows, step, env).0
    ensures step.DeleteStep? ==> Next(s, step, env).rows == Delete(s.rows, step.id)
  {
    hide PlainCreate, PlainUpdate, SealCreate, SealWrite, Unseal;
  }

  /** In every reachable state, whatever loads were saved: every entry has its shape,
      every alias names an entry that exists, and following aliases ends. */
  lemma {:induction false} RunKeepsRows(s: Sys, steps: seq<Step>, env: Env)
    requires WellKept(s.rows) && forall k :: 0 <= k < |steps| ==> Named(steps[k])
    ensures WellKept(Run(s, steps, env).rows)
    decreases |steps|
  {
    hide WellKept, Next, Named;
    if steps != [] {
      StepKeepsRows(s, steps[0], env);
      RunKeepsRows(Next(s, steps[0], env), steps[1..], env);
    }
  }

  lemma {:induction false} EndsAlong(rows: Rows, a: Id, b: Id, n: nat, k: nat)
    requires LeadsTo(rows, a, b, n) && Ends(rows, a, k)
    ensures Ends(rows, b, k)
    decreases n
  {
    if a != b {
      EndsAlong(rows, rows[a].aliasOf.value, b, n - 1, k - 1);
      EndsLonger(rows, b, k - 1);
    }
  }

  lemma {:induction false} EndsLonger(rows: Rows, a: Id, k: nat)
    requires Ends(rows, a, k)
    ensures Ends(rows, a, k + 1)
    decreases k
  {
    if a in rows && rows[a].aliasOf.Some? {
      EndsLonger(rows, rows[a].aliasOf.value, k - 1);
    }
  }

  lemma {:induction false} NoReturn(rows: Rows, a: Id, k: nat, n: nat)
    requires a in rows && rows[a].aliasOf.Some? && Ends(rows, a, k) && LeadsTo(rows, rows[a].aliasOf.value, a, n)
    ensures false
    decreases k
  {
    EndsAlong(rows, rows[a].aliasOf.value, a, n, k - 1);
    NoReturn(rows, a, k - 1, n);
  }

  /** No alias leads back to itself, in any reachable state. */
  lemma AliasesNeverCycle(steps: seq<Step>, env: Env, id: Id)
    requires forall k :: 0 <= k < |steps| ==> Named(steps[k])
    ensures
      var rows := Run(START, steps, env).rows;
      id in rows && rows[id].aliasOf.Some? ==>
        rows[id].aliasOf.value in rows && !Leads(rows, rows[id].aliasOf.value, id)
  {
    hide Run, Named, Shape;
    RunKeepsRows(START, steps, env);
    var rows := Run(START, steps, env).rows;
    if id in rows && rows[id].aliasOf.Some? && Leads(rows, rows[id].aliasOf.value, id) {
      var k: nat :| Ends(rows, id, k);
      var n: nat :| LeadsTo(rows, rows[id].aliasOf.value, id, n);
      NoReturn(rows, id, k, n);
    }
  }

  // ------------------------------------------------------------------ no lost seal

  ghost predicate Tracked(s: Sys) {
    && (forall id :: id in s.rows ==> id in s.lives && Past(id, s.lives[id], s.rows[id]) in s.past)
    && (forall p :: p in s.past ==> p.id in s.lives && p.life <= s.lives[p.id])
    && (forall p :: p in s.past && p.id in s.rows && p.life == s.lives[p.id] ==>
          && p.rec.sealedVersion <= s.rows[p.id].sealedVersion
          && (p.rec.sealedVersion == s.rows[p.id].sealedVersion ==> SameSealing(p.rec, s.rows[p.id])))
  }

  /** What an update loaded stood in the entry's present life. */
  ghost predicate LoadedInThisLife(s: Sys, step: Step) {
    step.UpdateStep? && step.id in s.rows ==> Past(step.id, Life(s, step.id), step.loaded) in s.past
  }

  /** A request that changes an entry's sealing raises its version; an update that
      was loaded in the entry's present life does neither. */
  lemma SealingMoves(s: Sys, step: Step, env: Env)
    requires Tracked(s) && Named(step) && !step.DeleteStep? && step.id in s.rows && LoadedInThisLife(s, step)
    ensures
      var after := Apply(s.rows, step, env).0;
      && step.id in after
      && (|| SameSealing(after[step.id], s.rows[step.id])
          || (after[step.id].sealedVersion > s.rows[step.id].sealedVersion && (step.SealStep? || step.UnsealStep?)))
  {
    hide Validate, FileBytes, NothingSealed, ValidPayload;
    var rows := s.rows;
    match step
    case CreateStep(id, rec, upload) =>
    case UpdateStep(id, loaded, edited, upload) =>
      var used := FileBytes(rows, edited.workspace, id);
      ValidateStores(rows, id, edited, loaded.filename, upload, env.limits, used, env.tools);
    case SealCreateStep(id, blank, payload, allowed) =>
    case SealStep(id, payload, expected, key, title, kind, allowed) =>
      var written := ApplySealed(rows[id], payload, expected + 1);
      var titled := if title != "" then written.(title := title) else written;
      var typed := if kind.Some? then titled.(kind := kind.value) else titled;
      ValidateStores(rows, id, typed, rows[id].filename, None, env.limits, 0, env.tools);
    case UnsealStep(id, value, expected, allowed) =>
      var plain := rows[id].(isSealed := false, value := value, sealedValue := "", sealedVersion := expected + 1,
                             keyEpoch := 0, keyWrap := "");
      ValidateStores(rows, id, plain, rows[id].filename, None, env.limits, 0, env.tools);
  }

  lemma TrackedStep(s: Sys, step: Step, env: Env)
    requires Tracked(s) && Named(step) && LoadedInThisLife(s, step)
    ensures Tracked(Next(s, step, env)) && s.past <= Next(s, step, env).past
  {
    hide Shape, AliasStored, PlainCreate, PlainUpdate, SealCreate, SealWrite, Unseal, Leads, LoadedInThisLife;
    if !step.DeleteStep? {
      ApplyStores(s.rows, step, env);
      if step.id in s.rows {
        SealingMoves(s, step, env);
      }
    }
  }

  ghost predicate AllLoadedInThisLife(s: Sys, steps: seq<Step>, env: Env)
    decreases |steps|
  {
    steps != [] ==> LoadedInThisLife(s, steps[0]) && AllLoadedInThisLife(Next(s, steps[0], env), steps[1..], env)
  }

  lemma {:induction false} RunTracked(s: Sys, steps: seq<Step>, env: Env)
    requires Tracked(s) && (forall k :: 0 <= k < |steps| ==> Named(steps[k])) && AllLoadedInThisLife(s, steps, env)
    ensures Tracked(Run(s, steps, env)) && s.past <= Run(s, steps, env).past
    decreases |steps|
  {
    hide Tracked, Next, Named, LoadedInThisLife;
    if steps != [] {
      TrackedStep(s, steps[0], env);
      RunTracked(Next(s, steps[0], env), steps[1..], env);
    }
  }

  /** Over every run of one life of an entry its version never falls, and while it is
      the same so is everything sealed: a seal is undone by unsealing alone. */
  lemma SealIsNeverLost(s: Sys, steps: seq<Step>, env: Env, id: Id)
    requires Tracked(s) && (forall k :: 0 <= k < |steps| ==> Named(steps[k])) && AllLoadedInThisLife(s, steps, env)
    requires id in s.rows && id in Run(s, steps, env).rows && Life(Run(s, steps, env), id) == Life(s, id)
    ensures
      var before, after := s.rows[id], Run(s, steps, env).rows[id];
      && before.sealedVersion <= after.sealedVersion
      && (before.sealedVersion == after.sealedVersion ==> SameSealing(before, after))
  {
    hide Run, SameSealing, AllLoadedInThisLife, Named;
    RunTracked(s, steps, env);
    assert Past(id, s.lives[id], s.rows[id]) in Run(s, steps, env).past;
  }

  /** A save loaded before a seal, in the same life of the entry, is refused after it. */
  lemma StaleSaveIsRefused(s: Sys, id: Id, loaded: Entry, edited: Entry, upload: Option<Upload>, limits: Limits,
                           used: nat, tools: Tools)
    requires Tracked(s) && id in s.rows && Past(id, Life(s, id), loaded) in s.past
    requires !SameSealing(loaded, s.rows[id])
    ensures PlainUpdate(s.rows, id, loaded, edited, upload, limits, used, tools).0 == s.rows
    ensures PlainUpdate(s.rows, id, loaded, edited, upload, limits, used, tools).1.Refused?
  {
    hide Validate;
  }

  /** Whatever was loaded, a save that lands changes what is sealed exactly when its
      load agreed on the version and on nothing else; by the lemma above, only across
      a deletion. */
  lemma SaveChangesSealingExactly(rows: Rows, id: Id, loaded: Entry, edited: Entry, upload: Option<Upload>,
                                  limits: Limits, used: nat, tools: Tools)
    requires id in rows && NamedUpload(upload)
    requires PlainUpdate(rows, id, loaded, edited, upload, limits, used, tools).1.Ok?
    ensures
      var after := PlainUpdate(rows, id, loaded, edited, upload, limits, used, tools).0;
      && id in after
      && after[id].sealedVersion == rows[id].sealedVersion
      && (SameSealing(after[id], rows[id]) <==> SameSealing(loaded, rows[id]))
  {
    hide Validate;
    ValidateStores(rows, id, edited, loaded.filename, upload, limits, used, tools);
  }

  /** An id sealed, deleted and sealed again: a save loaded in the first life writes
      the first ciphertext over the second. */
  lemma ReusedIdTakesStaleSave(id: Id, workspace: Id, env: Env)
    ensures
      var blank := Blank(workspace, "k", "", Text, "");
      var first := ApplySealed(blank, Payload("one", "wrap", 1), 1);
      var s := Run(START, [SealCreateStep(id, blank, Payload("one", "wrap", 1), true), DeleteStep(id),
                           SealCreateStep(id, blank, Payload("two", "wrap", 1), true),
                           UpdateStep(id, first, first, None)], env);
      s.rows == map[id := first]
  {
    hide LeadsTo;
    var blank := Blank(workspace, "k", "", Text, "");
    var one, two := Payload("one", "wrap", 1), Payload("two", "wrap", 1);
    var first := ApplySealed(blank, one, 1);
    var steps := [SealCreateStep(id, blank, one, true), DeleteStep(id), SealCreateStep(id, blank, two, true),
                  UpdateStep(id, first, first, None)];
    var s1 := Next(START, steps[0], env);
    assert s1.rows == map[id := first];
    var s2 := Next(s1, steps[1], env);
    assert s2.rows == map[] by { Gone(s1.rows, id); }
    var s3 := Next(s2, steps[2], env);
    assert s3.rows == map[id := ApplySealed(blank, two, 1)];
    var s4 := Next(s3, steps[3], env);
    assert s4.rows == map[id := first];
    RunOfFour(START, steps, env);
  }

  lemma Gone(rows: Rows, id: Id)
    requires rows.Keys == {id}
    ensures Delete(rows, id) == map[]
  {
    assert LeadsTo(rows, id, id, 0);
  }

  /** Chains longer than one are reachable: an alias of an entry that became one. */
  lemma ChainsOfTwoAreReachable(a: Id, b: Id, c: Id, workspace: Id, env: Env)
    requires a != b && b != c && a != c
    ensures exists steps :: (forall k :: 0 <= k < |steps| ==> Named(steps[k])) &&
              var rows := Run(START, steps, env).rows;
              && a in rows && b in rows && c in rows
              && rows[c].aliasOf == Some(b) && rows[b].aliasOf == Some(a)
  {
    hide Apply, Next;
    var plain := Blank(workspace, "k", "", Text, "v");
    var ofB, ofA := plain.(aliasOf := Some(b), value := ""), plain.(aliasOf := Some(a), value := "");
    var steps := [CreateStep(a, plain, None), CreateStep(b, plain, None), CreateStep(c, ofB, None),
                  UpdateStep(b, plain, ofA, None)];
    SaveLands(START, steps[0], env);
    var s1 := Next(START, steps[0], env);
    SaveLands(s1, steps[1], env);
    var s2 := Next(s1, steps[1], env);
    SaveLands(s2, steps[2], env);
    var s3 := Next(s2, steps[2], env);
    SaveLands(s3, steps[3], env);
    RunOfFour(START, steps, env);
  }

  /** A plain text or alias with nothing to refuse is stored as it is. */
  lemma SaveLands(s: Sys, step: Step, env: Env)
    requires step.CreateStep? || step.UpdateStep?
    requires
      var rec := if step.CreateStep? then step.rec else step.edited;
      && step.upload.None? && rec.kind == Text && rec.file == "" && NothingSealed(rec)
      && (if rec.aliasOf.None? then rec.value != "" else rec.value == "")
      && (rec.aliasOf.Some? ==>
            && rec.aliasOf.value != step.id && rec.aliasOf.value in s.rows
            && s.rows[rec.aliasOf.value].workspace == rec.workspace
            && s.rows[rec.aliasOf.value].aliasOf.None? && !s.rows[rec.aliasOf.value].isSealed)
      && (if step.CreateStep? then step.id !in s.rows
          else step.id in s.rows && NothingSealed(step.loaded) && s.rows[step.id].sealedVersion == 0)
    ensures Next(s, step, env).rows == s.rows[step.id := if step.CreateStep? then step.rec else step.edited]
  {
    hide FileBytes;
  }

  lemma RunOfFour(s: Sys, steps: seq<Step>, env: Env)
    requires |steps| == 4
    ensures Run(s, steps, env) == Next(Next(Next(Next(s, steps[0], env), steps[1], env), steps[2], env), steps[3], env)
  {
    hide Next;
    var s1 := Next(s, steps[0], env);
    var s2 := Next(s1, steps[1], env);
    var s3 := Next(s2, steps[2], env);
    assert Run(s, steps, env) == Run(s1, steps[1..], env);
    assert Run(s1, steps[1..], env) == Run(s2, steps[1..][1..], env);
    assert Run(s2, steps[1..][1..], env) == Run(s3, steps[1..][1..][1..], env);
    assert steps[1..][1..][1..][1..] == [];
    assert Run(s3, steps[1..][1..][1..], env) == Run(Next(s3, steps[3], env), [], env);
  }

  // -------------------------------------------------------------------- the storage

  lemma {:induction false} SameSizes(rows: Rows, other: Rows, ids: set<Id>)
    requires ids <= rows.Keys && ids <= other.Keys && forall id :: id in ids ==> rows[id].size == other[id].size
    ensures SizeSum(rows, ids) == SizeSum(other, ids)
    decreases |ids|
  {
    if ids != {} {
      var id :| id in ids;
      SizeSumWithout(rows, ids, id);
      SizeSumWithout(other, ids, id);
      SameSizes(rows, other, ids - {id});
    }
  }

  /** After an upload the files of the workspace, the new one counted once, are within
      the limit. */
  lemma UploadWithinStorage(rows: Rows, step: Step, env: Env)
    requires (step.CreateStep? || step.UpdateStep?) && step.upload.Some? && Named(step)
    requires env.limits.maxStorage.Some? && Apply(rows, step, env).1.Ok? && step.id in Apply(rows, step, env).0
    ensures
      var after := Apply(rows, step, env).0;
      && after[step.id].kind == File
      && FileBytes(after, after[step.id].workspace, step.id) + after[step.id].size <= env.limits.maxStorage.value
  {
    hide FileBytes, NothingSealed, SameSealing;
    var rec := if step.CreateStep? then step.rec else step.edited;
    var before := if step.CreateStep? then "" else step.loaded.filename;
    var used := FileBytes(rows, rec.workspace, step.id);
    ValidateStores(rows, step.id, rec, before, step.upload, env.limits, used, env.tools);
    OnlyFilesUpload(rows, step.id, rec, before, step.upload, env.limits, used, env.tools);
    hide Validate;
    var after := Apply(rows, step, env).0;
    OthersCounted(rows, after, step.id, rec.workspace);
  }

  lemma OnlyFilesUpload(rows: Rows, id: Id, rec: Entry, before: string, upload: Option<Upload>, limits: Limits,
                        used: nat, tools: Tools)
    requires upload.Some? && Validate(rows, id, rec, before, upload, limits, used, tools).Ok?
    ensures rec.kind == File
  {
  }

  lemma OthersCounted(rows: Rows, after: Rows, id: Id, workspace: Id)
    requires id in after && after == rows[id := after[id]]
    ensures FileBytes(after, workspace, id) == FileBytes(rows, workspace, id)
  {
    var ids := set x | x in rows && rows[x].workspace == workspace && rows[x].kind == File && x != id;
    var others := set x | x in after && after[x].workspace == workspace && after[x].kind == File && x != id;
    assert ids == others;
    SameSizes(rows, after, ids);
  }
}
