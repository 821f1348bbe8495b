/** What holds over every run of accepts, moves, edits and deletions of
    attestations, in any order and with looks and loads of any age. */
module AttestationsTheorems {
  import opened Results
  import opened Attestations

  /** One request against the database. A look or a loaded row is a parameter: it
      may have been taken in any earlier state. */
  datatype Step =
    | CreateStep(id: Id, bound: Fingerprint)
    | ClaimStep(id: Id, who: Fingerprint, draws: seq<nat>)
    | ReissueStep(look: Look, stated: Credential, next: Fingerprint, now: nat, draws: seq<nat>)
    | EditStep(id: Id, loaded: Attestation, wanted: Status, reason: Reason, now: nat)
    | DeleteStep(id: Id, now: nat)

  /** The database, every credential ever signed, and the positions moved from. */
  datatype Sys = Sys(db: Db, issued: set<Credential>, moves: seq<nat>)

  const START := Sys(Db(map[], []), {}, [])

  function Issue(s: Sys, result: (Db, Outcome<Credential>), moved: seq<nat>): Sys {
    match result.1
    case Refused(_) => s.(db := result.0)
    case Ok(c) => Sys(result.0, s.issued + {c}, s.moves + moved)
  }

  /** A move needs a credential this server signed, and another identity. */
  function Next(s: Sys, step: Step): Sys {
    match step
    case CreateStep(id, bound) => s.(db := CreateOffer(s.db, id, bound))
    case ClaimStep(id, who, draws) => Issue(s, Claim(s.db, id, who, draws), [])
    case ReissueStep(look, stated, next, now, draws) =>
      if stated !in s.issued || next == stated.holder then s
      else Issue(s, Reissue(s.db, look, stated, next, now, draws), if look.again then [] else [stated.idx])
    case EditStep(id, loaded, wanted, reason, now) => s.(db := Edit(s.db, id, loaded, wanted, reason, now))
    case DeleteStep(id, now) => s.(db := Delete(s.db, id, now))
  }

  function Run(s: Sys, steps: seq<Step>): Sys
    decreases |steps|
  {
    if steps == [] then s else Run(Next(s, steps[0]), steps[1..])
  }

  // -------------------------------------------------- positions, over every run

  ghost predicate Distinct(ps: seq<Position>) {
    forall i, j :: 0 <= i < j < |ps| ==> ps[i].idx != ps[j].idx
  }

  ghost predicate OneStanding(ps: seq<Position>) {
    forall i, j :: 0 <= i < j < |ps| && ps[i].attestation == ps[j].attestation ==> ps[i].revoked || ps[j].revoked
  }

  /** The list only grows; a position keeps its place and its attestation, and a
      revoked one its bit and its time. */
  ghost predicate Extends(before: seq<Position>, after: seq<Position>) {
    && |before| <= |after|
    && forall i :: 0 <= i < |before| ==>
         && after[i].idx == before[i].idx
         && after[i].attestation == before[i].attestation
         && (before[i].revoked ==> after[i] == before[i])
  }

  /** An attestation that was issued and has no position left standing. */
  ghost predicate Dead(ps: seq<Position>, id: Id) {
    && (exists i :: 0 <= i < |ps| && ps[i].attestation == id)
    && (forall i :: 0 <= i < |ps| && ps[i].attestation == id ==> ps[i].revoked)
  }

  /** The four things an issuing transaction may do to the list. */
  lemma AllocateStatusCases(ps: seq<Position>, id: Id, draws: seq<nat>)
    ensures AllocateStatus(ps, id, draws).1.None? ==> AllocateStatus(ps, id, draws).0 == ps
    ensures AllocateStatus(ps, id, draws).1.Some? ==>
              var idx := AllocateStatus(ps, id, draws).1.value;
              || (AllocateStatus(ps, id, draws).0 == ps
                  && exists i :: 0 <= i < |ps| && ps[i].idx == idx && ps[i].attestation == id
                                 && (ps[i].revoked ==> Dead(ps, id)))
              || (AllocateStatus(ps, id, draws).0 == ps + [Position(idx, id, false, 0)]
                  && !Taken(ps, idx)
                  && forall i :: 0 <= i < |ps| ==> ps[i].attestation != id)
  {
    hide Standing, Latest, FirstFree, Taken;
    var standing := Standing(ps, id, 0);
    if standing.Some? {
      assert ps[standing.value].attestation == id;
    } else {
      var latest := Latest(ps, id, |ps|);
      if latest.Some? {
        assert ps[latest.value].attestation == id;
        assert Dead(ps, id);
      }
    }
  }

  lemma RenewStatusCases(ps: seq<Position>, id: Id, now: nat, draws: seq<nat>)
    ensures RenewStatus(ps, id, now, draws).1.None? ==> RenewStatus(ps, id, now, draws).0 == RevokeAll(ps, id, now)
    ensures RenewStatus(ps, id, now, draws).1.Some? ==>
              var idx := RenewStatus(ps, id, now, draws).1.value;
              && RenewStatus(ps, id, now, draws).0 == RevokeAll(ps, id, now) + [Position(idx, id, false, 0)]
              && !Taken(RevokeAll(ps, id, now), idx)
              && !Taken(ps, idx)
  {
    hide RevokeAll, FirstFree;
    var qs := RevokeAll(ps, id, now);
    forall i | 0 <= i < |ps| ensures qs[i].idx == ps[i].idx {}
  }

  lemma RevokeAllKeeps(ps: seq<Position>, id: Id, now: nat)
    ensures Extends(ps, RevokeAll(ps, id, now))
    ensures forall i :: 0 <= i < |ps| && ps[i].attestation == id ==> RevokeAll(ps, id, now)[i].revoked
    ensures forall i :: 0 <= i < |ps| && !RevokeAll(ps, id, now)[i].revoked ==> RevokeAll(ps, id, now)[i] == ps[i]
    ensures Distinct(ps) ==> Distinct(RevokeAll(ps, id, now))
    ensures OneStanding(ps) ==> OneStanding(RevokeAll(ps, id, now))
  {
    hide RevokeAll;
  }

  /** A position appended for an attestation none of whose others stand. */
  lemma AppendKeeps(ps: seq<Position>, id: Id, idx: nat)
    requires Distinct(ps) && OneStanding(ps) && !Taken(ps, idx)
    requires forall i :: 0 <= i < |ps| && ps[i].attestation == id ==> ps[i].revoked
    ensures Distinct(ps + [Position(idx, id, false, 0)])
    ensures OneStanding(ps + [Position(idx, id, false, 0)])
    ensures Extends(ps, ps + [Position(idx, id, false, 0)])
  {
  }

  ghost predicate Registered(issued: set<Credential>, ps: seq<Position>) {
    && (forall c :: c in issued ==> Taken(ps, c.idx))
    && (forall i :: 0 <= i < |ps| ==> IssuedAt(issued, ps[i].idx))
  }

  ghost predicate IssuedAt(issued: set<Credential>, idx: nat) {
    exists c :: c in issued && c.idx == idx
  }

  /** Only an attestation that exists and is not revoked has a standing position. */
  ghost predicate Backed(db: Db) {
    forall i :: 0 <= i < |db.positions| && !db.positions[i].revoked ==>
      && db.positions[i].attestation in db.rows
      && db.rows[db.positions[i].attestation].status != Revoked
  }

  ghost predicate RevokedAt(ps: seq<Position>, idx: nat) {
    exists i :: 0 <= i < |ps| && ps[i].idx == idx && ps[i].revoked
  }

  ghost predicate MovedOnce(moves: seq<nat>, ps: seq<Position>) {
    && (forall k :: 0 <= k < |moves| ==> RevokedAt(ps, moves[k]))
    && (forall j, k :: 0 <= j < k < |moves| ==> moves[j] != moves[k])
  }

  ghost predicate Inv(s: Sys) {
    && Distinct(s.db.positions)
    && OneStanding(s.db.positions)
    && Registered(s.issued, s.db.positions)
    && Backed(s.db)
    && MovedOnce(s.moves, s.db.positions)
  }

  lemma ExtendsTaken(before: seq<Position>, after: seq<Position>, idx: nat)
    requires Extends(before, after)
    ensures Taken(before, idx) ==> Taken(after, idx)
    ensures RevokedAt(before, idx) ==> RevokedAt(after, idx)
  {
    if Taken(before, idx) {
      var i :| 0 <= i < |before| && before[i].idx == idx;
      assert after[i].idx == idx;
    }
    if RevokedAt(before, idx) {
      var i :| 0 <= i < |before| && before[i].idx == idx && before[i].revoked;
      assert after[i].idx == idx && after[i].revoked;
    }
  }

  lemma ExtendsMoved(before: seq<Position>, after: seq<Position>, moves: seq<nat>)
    requires Extends(before, after) && MovedOnce(moves, before)
    ensures MovedOnce(moves, after)
  {
    hide Extends, RevokedAt, Taken;
    forall k | 0 <= k < |moves| ensures RevokedAt(after, moves[k]) {
      ExtendsTaken(before, after, moves[k]);
    }
  }

  /** Marking positions revoked, with nothing issued. */
  lemma RevokeAllRegistered(issued: set<Credential>, ps: seq<Position>, id: Id, now: nat)
    requires Registered(issued, ps)
    ensures Registered(issued, RevokeAll(ps, id, now))
  {
    hide RevokeAll, Taken, Extends, IssuedAt;
    RevokeAllKeeps(ps, id, now);
    var qs := RevokeAll(ps, id, now);
    forall c | c in issued ensures Taken(qs, c.idx) {
      ExtendsTaken(ps, qs, c.idx);
    }
    forall i | 0 <= i < |qs| ensures IssuedAt(issued, qs[i].idx) {
      assert qs[i].idx == ps[i].idx;
    }
  }

  lemma IssueRegistered(issued: set<Credential>, ps: seq<Position>, c: Credential)
    requires Registered(issued, ps)
    ensures Taken(ps, c.idx) ==> Registered(issued + {c}, ps)
    ensures forall id :: Registered(issued + {c}, ps + [Position(c.idx, id, false, 0)])
  {
    hide Taken, IssuedAt;
    forall id: Id ensures Registered(issued + {c}, ps + [Position(c.idx, id, false, 0)]) {
      var qs := ps + [Position(c.idx, id, false, 0)];
      forall d | d in issued + {c} ensures Taken(qs, d.idx) {
        TakenAppend(ps, Position(c.idx, id, false, 0), d.idx);
      }
      forall i | 0 <= i < |qs| ensures IssuedAt(issued + {c}, qs[i].idx) {
        IssuedMore(issued, c, qs[i].idx);
        assert i < |ps| ==> qs[i] == ps[i];
      }
    }
    forall i | 0 <= i < |ps| ensures IssuedAt(issued + {c}, ps[i].idx) {
      IssuedMore(issued, c, ps[i].idx);
    }
  }

  lemma TakenAppend(ps: seq<Position>, p: Position, idx: nat)
    ensures Taken(ps + [p], idx) <==> Taken(ps, idx) || p.idx == idx
  {
    var qs := ps + [p];
    if Taken(ps, idx) {
      var i :| 0 <= i < |ps| && ps[i].idx == idx;
      assert qs[i].idx == idx;
    }
    assert qs[|ps|] == p;
  }

  lemma IssuedMore(issued: set<Credential>, c: Credential, idx: nat)
    ensures IssuedAt(issued, idx) || c.idx == idx ==> IssuedAt(issued + {c}, idx)
  {
    if IssuedAt(issued, idx) {
      var d :| d in issued && d.idx == idx;
      assert d in issued + {c};
    } else {
      assert c in issued + {c};
    }
  }

  // ---------------------------------------------------------- every step keeps it

  lemma ClaimKeeps(s: Sys, id: Id, who: Fingerprint, draws: seq<nat>)
    requires Inv(s)
    ensures Inv(Next(s, ClaimStep(id, who, draws)))
    ensures Extends(s.db.positions, Next(s, ClaimStep(id, who, draws)).db.positions)
  {
    hide AllocateStatus, Taken, MovedOnce, RevokedAt, IssuedAt, Registered;
    var t := Next(s, ClaimStep(id, who, draws));
    var ps, qs := s.db.positions, t.db.positions;
    AllocateStatusCases(ps, id, draws);
    assert s.moves + [] == s.moves;
    if Claim(s.db, id, who, draws).1.Ok? {
      var idx := AllocateStatus(ps, id, draws).1.value;
      IssueRegistered(s.issued, ps, Credential(idx, who));
      if qs == ps {
        TakenIf(ps, idx);
        assert Extends(ps, qs);
      } else {
        AppendKeeps(ps, id, idx);
        ExtendsMoved(ps, qs, s.moves);
        assert Registered(s.issued + {Credential(idx, who)}, ps + [Position(Credential(idx, who).idx, id, false, 0)]);
      }
    }
  }

  lemma TakenIf(ps: seq<Position>, idx: nat)
    ensures (exists i :: 0 <= i < |ps| && ps[i].idx == idx) ==> Taken(ps, idx)
  {
  }

  /** What a move that is not a repeat requires and does. */
  lemma MoveFacts(db: Db, look: Look, stated: Credential, next: Fingerprint, now: nat, draws: seq<nat>)
    requires !look.again
    ensures Reissue(db, look, stated, next, now, draws).1.Ok? ==>
              && look.id in db.rows
              && db.rows[look.id].status == Active
              && db.rows[look.id].subject == stated.holder
              && (exists i :: 0 <= i < |db.positions| && db.positions[i].idx == stated.idx
                              && db.positions[i].attestation == look.id && !db.positions[i].revoked)
              && RenewStatus(db.positions, look.id, now, draws).1.Some?
              && var idx := RenewStatus(db.positions, look.id, now, draws).1.value;
              Reissue(db, look, stated, next, now, draws)
              == (Db(db.rows[look.id := db.rows[look.id].(subject := next)],
                     RenewStatus(db.positions, look.id, now, draws).0),
                  Ok(Credential(idx, next)))
    ensures Reissue(db, look, stated, next, now, draws).1.Refused? ==>
              Reissue(db, look, stated, next, now, draws).0 == db
  {
    hide RenewStatus, PositionAt;
    if Reissue(db, look, stated, next, now, draws).1.Ok? {
      var p := PositionAt(db.positions, stated.idx).value;
      var i :| 0 <= i < |db.positions| && db.positions[i] == p;
    }
  }

  lemma MoveKeeps(s: Sys, look: Look, stated: Credential, next: Fingerprint, now: nat, draws: seq<nat>)
    requires Inv(s) && !look.again
    ensures Inv(Next(s, ReissueStep(look, stated, next, now, draws)))
    ensures Extends(s.db.positions, Next(s, ReissueStep(look, stated, next, now, draws)).db.positions)
  {
    hide RenewStatus, RevokeAll, Taken, Reissue, Registered, RevokedAt;
    var t := Next(s, ReissueStep(look, stated, next, now, draws));
    var ps, qs := s.db.positions, t.db.positions;
    MoveFacts(s.db, look, stated, next, now, draws);
    if t != s {
      var idx := RenewStatus(ps, look.id, now, draws).1.value;
      var rs := RevokeAll(ps, look.id, now);
      RenewStatusCases(ps, look.id, now, draws);
      RevokeAllKeeps(ps, look.id, now);
      AppendKeeps(rs, look.id, idx);
      RevokeAllRegistered(s.issued, ps, look.id, now);
      IssueRegistered(s.issued, rs, Credential(idx, next));
      MoveRecorded(s.moves, ps, rs, look.id, stated.idx);
      ExtendsMoved(rs, qs, t.moves);
    }
  }

  lemma MoveRecorded(moves: seq<nat>, ps: seq<Position>, rs: seq<Position>, id: Id, source: nat)
    requires Distinct(ps) && MovedOnce(moves, ps) && Extends(ps, rs)
    requires forall i :: 0 <= i < |ps| && ps[i].attestation == id ==> rs[i].revoked
    requires exists i :: 0 <= i < |ps| && ps[i].idx == source && ps[i].attestation == id && !ps[i].revoked
    ensures MovedOnce(moves + [source], rs)
  {
    hide Taken;
    var i :| 0 <= i < |ps| && ps[i].idx == source && ps[i].attestation == id && !ps[i].revoked;
    assert rs[i].idx == source && rs[i].revoked;
    assert RevokedAt(rs, source);
    ExtendsMoved(ps, rs, moves);
    forall k | 0 <= k < |moves| ensures moves[k] != source {
      assert RevokedAt(ps, moves[k]);
      var j :| 0 <= j < |ps| && ps[j].idx == moves[k] && ps[j].revoked;
    }
  }

  lemma AgainKeeps(s: Sys, look: Look, stated: Credential, next: Fingerprint, now: nat, draws: seq<nat>)
    requires Inv(s) && look.again
    ensures Inv(Next(s, ReissueStep(look, stated, next, now, draws)))
    ensures Extends(s.db.positions, Next(s, ReissueStep(look, stated, next, now, draws)).db.positions)
  {
    hide AllocateStatus, Taken, MovedOnce, RevokedAt, Registered;
    var t := Next(s, ReissueStep(look, stated, next, now, draws));
    var ps, qs := s.db.positions, t.db.positions;
    AllocateStatusCases(ps, look.id, draws);
    assert s.moves + [] == s.moves;
    if t != s {
      var idx := AllocateStatus(ps, look.id, draws).1.value;
      IssueRegistered(s.issued, ps, Credential(idx, next));
      TakenIf(ps, idx);
      if qs == ps {
        assert Extends(ps, qs);
      } else {
        AppendKeeps(ps, look.id, idx);
        ExtendsMoved(ps, qs, s.moves);
      }
    }
  }

  lemma EditKeeps(s: Sys, id: Id, loaded: Attestation, wanted: Status, reason: Reason, now: nat)
    requires Inv(s)
    ensures Inv(Next(s, EditStep(id, loaded, wanted, reason, now)))
    ensures Extends(s.db.positions, Next(s, EditStep(id, loaded, wanted, reason, now)).db.positions)
  {
    hide RevokeAll, Taken, MovedOnce, RevokedAt, Registered, Transition;
    RevokeAllKeeps(s.db.positions, id, now);
    RevokeAllRegistered(s.issued, s.db.positions, id, now);
    ExtendsMoved(s.db.positions, RevokeAll(s.db.positions, id, now), s.moves);
  }

  lemma DeleteKeeps(s: Sys, id: Id, now: nat)
    requires Inv(s)
    ensures Inv(Next(s, DeleteStep(id, now)))
    ensures Extends(s.db.positions, Next(s, DeleteStep(id, now)).db.positions)
  {
    hide RevokeAll, Taken, MovedOnce, RevokedAt, Registered;
    RevokeAllKeeps(s.db.positions, id, now);
    RevokeAllRegistered(s.issued, s.db.positions, id, now);
    ExtendsMoved(s.db.positions, RevokeAll(s.db.positions, id, now), s.moves);
  }

  lemma StepKeeps(s: Sys, step: Step)
    requires Inv(s)
    ensures Inv(Next(s, step))
    ensures Extends(s.db.positions, Next(s, step).db.positions)
    ensures s.moves <= Next(s, step).moves && s.issued <= Next(s, step).issued
  {
    hide Claim, Reissue, Edit, Delete, Inv, Extends;
    match step
    case CreateStep(id, bound) => CreateKeeps(s, id, bound);
    case ClaimStep(id, who, draws) => ClaimKeeps(s, id, who, draws);
    case ReissueStep(look, stated, next, now, draws) =>
      if look.again {
        AgainKeeps(s, look, stated, next, now, draws);
      } else {
        MoveKeeps(s, look, stated, next, now, draws);
      }
    case EditStep(id, loaded, wanted, reason, now) => EditKeeps(s, id, loaded, wanted, reason, now);
    case DeleteStep(id, now) => DeleteKeeps(s, id, now);
  }

  lemma CreateKeeps(s: Sys, id: Id, bound: Fingerprint)
    requires Inv(s)
    ensures Inv(Next(s, CreateStep(id, bound)))
    ensures Extends(s.db.positions, Next(s, CreateStep(id, bound)).db.positions)
  {
    hide Taken, MovedOnce, RevokedAt, Registered;
  }

  // ------------------------------------------------------------- over whole runs

  lemma ExtendsTransitive(a: seq<Position>, b: seq<Position>, c: seq<Position>)
    requires Extends(a, b) && Extends(b, c)
    ensures Extends(a, c)
  {
  }

  /** Over every run: at most one position of an attestation stands, none is
      shared, no bit clears, nothing moves twice. */
  lemma {:induction false} RunKeeps(s: Sys, steps: seq<Step>)
    requires Inv(s)
    ensures Inv(Run(s, steps))
    ensures Extends(s.db.positions, Run(s, steps).db.positions)
    ensures s.moves <= Run(s, steps).moves && s.issued <= Run(s, steps).issued
    decreases |steps|
  {
    hide Inv, Next, Extends;
    if steps == [] {
      assert Extends(s.db.positions, s.db.positions) by { SelfExtends(s.db.positions); }
    } else {
      var t := Next(s, steps[0]);
      StepKeeps(s, steps[0]);
      RunKeeps(t, steps[1..]);
      ExtendsTransitive(s.db.positions, t.db.positions, Run(s, steps).db.positions);
    }
  }

  lemma SelfExtends(ps: seq<Position>)
    ensures Extends(ps, ps)
  {
  }

  lemma StartHolds()
    ensures Inv(START) && Agree(START)
  {
  }

  /** In every reachable state: what the status list promises its readers. */
  lemma StatusListSafety(steps: seq<Step>)
    ensures
      var s := Run(START, steps);
      var ps := s.db.positions;
      && (forall i, j :: 0 <= i < j < |ps| ==> ps[i].idx != ps[j].idx)
      && (forall i, j :: 0 <= i < j < |ps| && ps[i].attestation == ps[j].attestation ==> ps[i].revoked || ps[j].revoked)
      && (forall i :: 0 <= i < |ps| && ps[i].attestation !in s.db.rows ==> ps[i].revoked)
      && (forall i :: 0 <= i < |ps| ==>
            ps[i].attestation in s.db.rows && s.db.rows[ps[i].attestation].status == Revoked ==> ps[i].revoked)
      && (forall j, k :: 0 <= j < k < |s.moves| ==> s.moves[j] != s.moves[k])
  {
    hide Run, Registered, RevokedAt;
    StartHolds();
    RunKeeps(START, steps);
  }

  // ------------------------------------------------ nothing comes back from revoked

  lemma DeadAllocates(ps: seq<Position>, id: Id, other: Id, draws: seq<nat>)
    requires Dead(ps, id)
    ensures Dead(AllocateStatus(ps, other, draws).0, id)
  {
    hide AllocateStatus, Taken;
    AllocateStatusCases(ps, other, draws);
    var i :| 0 <= i < |ps| && ps[i].attestation == id;
    var qs := AllocateStatus(ps, other, draws).0;
    assert qs[i] == ps[i];
  }

  lemma DeadRevokes(ps: seq<Position>, id: Id, other: Id, now: nat)
    requires Dead(ps, id)
    ensures Dead(RevokeAll(ps, other, now), id)
  {
    hide RevokeAll;
    RevokeAllKeeps(ps, other, now);
    var i :| 0 <= i < |ps| && ps[i].attestation == id;
    assert RevokeAll(ps, other, now)[i].attestation == id;
  }

  lemma DeadRenews(ps: seq<Position>, id: Id, other: Id, now: nat, draws: seq<nat>)
    requires Dead(ps, id) && other != id
    ensures Dead(RenewStatus(ps, other, now, draws).0, id)
  {
    hide RevokeAll, RenewStatus, Taken;
    RenewStatusCases(ps, other, now, draws);
    DeadRevokes(ps, id, other, now);
    var rs := RevokeAll(ps, other, now);
    var i :| 0 <= i < |rs| && rs[i].attestation == id;
    assert RenewStatus(ps, other, now, draws).0[i] == rs[i];
  }

  lemma DeadStep(s: Sys, step: Step, id: Id)
    requires Dead(s.db.positions, id)
    ensures Dead(Next(s, step).db.positions, id)
  {
    hide AllocateStatus, RenewStatus, RevokeAll, Dead, PositionAt, Transition;
    match step
    case CreateStep(_, _) =>
    case ClaimStep(other, _, draws) => DeadAllocates(s.db.positions, id, other, draws);
    case ReissueStep(look, stated, next, now, draws) =>
      if look.again {
        DeadAllocates(s.db.positions, id, look.id, draws);
      } else {
        MoveFacts(s.db, look, stated, next, now, draws);
        DeadHasNone(s.db.positions, id);
        if look.id != id {
          DeadRenews(s.db.positions, id, look.id, now, draws);
        }
      }
    case EditStep(other, _, _, _, now) => DeadRevokes(s.db.positions, id, other, now);
    case DeleteStep(other, now) => DeadRevokes(s.db.positions, id, other, now);
  }

  lemma DeadHasNone(ps: seq<Position>, id: Id)
    requires Dead(ps, id)
    ensures forall i :: 0 <= i < |ps| && ps[i].attestation == id ==> ps[i].revoked
  {
  }

  /** Once issued and revoked or deleted, no credential of an attestation ever
      stands again: over every run, even with edits written back from stale loads
      and with the row's id used again. */
  lemma {:induction false} DeadStaysDead(s: Sys, steps: seq<Step>, id: Id)
    requires Dead(s.db.positions, id)
    ensures Dead(Run(s, steps).db.positions, id)
    decreases |steps|
  {
    hide Dead, Next;
    if steps != [] {
      DeadStep(s, steps[0], id);
      DeadStaysDead(Next(s, steps[0]), steps[1..], id);
    }
  }

  lemma RevocationIsForever(s: Sys, step: Step, id: Id, after: seq<Step>)
    requires exists i :: 0 <= i < |s.db.positions| && s.db.positions[i].attestation == id
    requires || (step.DeleteStep? && step.id == id && id in s.db.rows)
             || (step.EditStep? && step.id == id && (step.wanted == Revoked || step.loaded.status == Revoked))
    ensures Dead(Run(Next(s, step), after).db.positions, id)
  {
    hide RevokeAll, Run;
    RevokeAllKeeps(s.db.positions, id, step.now);
    var i :| 0 <= i < |s.db.positions| && s.db.positions[i].attestation == id;
    assert Next(s, step).db.positions[i].attestation == id;
    DeadStaysDead(Next(s, step), after, id);
  }

  // --------------------------------------- a standing position names its subject

  ghost predicate AgreeAt(s: Sys, i: nat)
    requires i < |s.db.positions|
  {
    var p := s.db.positions[i];
    && p.attestation in s.db.rows
    && s.db.rows[p.attestation].status == Active
    && forall c :: c in s.issued && c.idx == p.idx ==> c.holder == s.db.rows[p.attestation].subject
  }

  /** Every credential at a standing position is about the row's present subject. */
  ghost predicate Agree(s: Sys) {
    forall i :: 0 <= i < |s.db.positions| && !s.db.positions[i].revoked ==> AgreeAt(s, i)
  }

  /** The edit does not write back a row that differs where a credential stands. */
  ghost predicate FreshEdit(s: Sys, step: Step) {
    step.EditStep? ==>
      || Standing(s.db.positions, step.id, 0).None?
      || step.wanted == Revoked
      || step.loaded.status == Revoked
      || (step.id in s.db.rows && step.loaded.status == Active && step.loaded.subject == s.db.rows[step.id].subject)
  }

  lemma ClaimAgrees(s: Sys, id: Id, who: Fingerprint, draws: seq<nat>)
    requires Inv(s) && Agree(s)
    ensures Agree(Next(s, ClaimStep(id, who, draws)))
  {
    hide AllocateStatus, MovedOnce, RevokedAt, IssuedAt, Dead;
    var t := Next(s, ClaimStep(id, who, draws));
    var ps, qs := s.db.positions, t.db.positions;
    AllocateStatusCases(ps, id, draws);
    if Claim(s.db, id, who, draws).1.Ok? {
      forall i | 0 <= i < |qs| && !qs[i].revoked ensures AgreeAt(t, i) {
        assert i < |ps| ==> qs[i] == ps[i] && AgreeAt(s, i);
        forall c | c in t.issued && c.idx == qs[i].idx ensures c.holder == t.db.rows[qs[i].attestation].subject {
          assert c in s.issued ==> Taken(ps, c.idx);
        }
      }
    }
  }

  lemma MoveAgrees(s: Sys, look: Look, stated: Credential, next: Fingerprint, now: nat, draws: seq<nat>)
    requires Inv(s) && Agree(s) && !look.again
    ensures Agree(Next(s, ReissueStep(look, stated, next, now, draws)))
  {
    hide RenewStatus, RevokeAll, Reissue, MovedOnce, RevokedAt, IssuedAt;
    var t := Next(s, ReissueStep(look, stated, next, now, draws));
    var ps, qs := s.db.positions, t.db.positions;
    MoveFacts(s.db, look, stated, next, now, draws);
    if t != s {
      RenewStatusCases(ps, look.id, now, draws);
      RevokeAllKeeps(ps, look.id, now);
      forall i | 0 <= i < |qs| && !qs[i].revoked ensures AgreeAt(t, i) {
        assert i < |ps| ==> qs[i] == ps[i] && AgreeAt(s, i);
        forall c | c in t.issued && c.idx == qs[i].idx ensures c.holder == t.db.rows[qs[i].attestation].subject {
          assert c in s.issued ==> Taken(ps, c.idx);
        }
      }
    }
  }

  lemma AgainAgrees(s: Sys, look: Look, stated: Credential, next: Fingerprint, now: nat, draws: seq<nat>)
    requires Inv(s) && Agree(s) && look.again
    ensures Agree(Next(s, ReissueStep(look, stated, next, now, draws)))
  {
    hide AllocateStatus, MovedOnce, RevokedAt, IssuedAt, Dead;
    var t := Next(s, ReissueStep(look, stated, next, now, draws));
    var ps, qs := s.db.positions, t.db.positions;
    AllocateStatusCases(ps, look.id, draws);
    if t != s {
      forall i | 0 <= i < |qs| && !qs[i].revoked ensures AgreeAt(t, i) {
        assert i < |ps| ==> qs[i] == ps[i] && AgreeAt(s, i);
        forall c | c in t.issued && c.idx == qs[i].idx ensures c.holder == t.db.rows[qs[i].attestation].subject {
          assert c in s.issued ==> Taken(ps, c.idx);
        }
      }
    }
  }

  lemma EditAgrees(s: Sys, step: Step)
    requires Inv(s) && Agree(s) && step.EditStep?
    ensures Agree(Next(s, step)) <==> FreshEdit(s, step)
  {
    hide RevokeAll, Standing, MovedOnce, RevokedAt, Taken;
    var t := Next(s, step);
    var ps, qs := s.db.positions, t.db.positions;
    var id, row := step.id, Transition(step.loaded, step.wanted, step.reason, step.now);
    RevokeAllKeeps(ps, id, step.now);
    var standing := Standing(ps, id, 0);
    if FreshEdit(s, step) {
      forall i | 0 <= i < |qs| && !qs[i].revoked ensures AgreeAt(t, i) {
        assert qs[i] == ps[i] && AgreeAt(s, i);
      }
    } else {
      var i := standing.value;
      assert AgreeAt(s, i) && qs[i] == ps[i];
      assert IssuedAt(s.issued, ps[i].idx);
      var c :| c in s.issued && c.idx == ps[i].idx;
      assert !AgreeAt(t, i);
    }
  }

  lemma DeleteAgrees(s: Sys, id: Id, now: nat)
    requires Inv(s) && Agree(s)
    ensures Agree(Next(s, DeleteStep(id, now)))
  {
    hide RevokeAll, MovedOnce, RevokedAt, Taken, IssuedAt;
    var t := Next(s, DeleteStep(id, now));
    var ps, qs := s.db.positions, t.db.positions;
    RevokeAllKeeps(ps, id, now);
    forall i | 0 <= i < |qs| && !qs[i].revoked ensures AgreeAt(t, i) {
      assert qs[i] == ps[i] && AgreeAt(s, i);
    }
  }

  lemma CreateAgrees(s: Sys, id: Id, bound: Fingerprint)
    requires Inv(s) && Agree(s)
    ensures Agree(Next(s, CreateStep(id, bound)))
  {
    hide MovedOnce, RevokedAt, Taken, IssuedAt;
    var t := Next(s, CreateStep(id, bound));
    forall i | 0 <= i < |t.db.positions| && !t.db.positions[i].revoked ensures AgreeAt(t, i) {
      assert AgreeAt(s, i);
    }
  }

  /** From a state that agrees, a step keeps the agreement exactly when it is not
      an edit that writes back another subject or status over a standing credential. */
  lemma AgreeStep(s: Sys, step: Step)
    requires Inv(s) && Agree(s)
    ensures Agree(Next(s, step)) <==> FreshEdit(s, step)
  {
    hide Next, Inv, Agree, Standing;
    match step
    case CreateStep(id, bound) => CreateAgrees(s, id, bound);
    case ClaimStep(id, who, draws) => ClaimAgrees(s, id, who, draws);
    case ReissueStep(look, stated, next, now, draws) =>
      if look.again {
        AgainAgrees(s, look, stated, next, now, draws);
      } else {
        MoveAgrees(s, look, stated, next, now, draws);
      }
    case EditStep(_, _, _, _, _) => EditAgrees(s, step);
    case DeleteStep(id, now) => DeleteAgrees(s, id, now);
  }

  ghost predicate AgreeThroughout(s: Sys, steps: seq<Step>)
    decreases |steps|
  {
    Agree(s) && (steps != [] ==> AgreeThroughout(Next(s, steps[0]), steps[1..]))
  }

  ghost predicate AllFresh(s: Sys, steps: seq<Step>)
    decreases |steps|
  {
    steps != [] ==> FreshEdit(s, steps[0]) && AllFresh(Next(s, steps[0]), steps[1..])
  }

  /** Over a whole run, every standing position is bound to its present subject in
      every state passed through if and only if every edit was fresh. */
  lemma {:induction false} StandingMeansSubject(s: Sys, steps: seq<Step>)
    requires Inv(s) && Agree(s)
    ensures AgreeThroughout(s, steps) <==> AllFresh(s, steps)
    decreases |steps|
  {
    hide Inv, Next, Agree, FreshEdit;
    if steps != [] {
      StepKeeps(s, steps[0]);
      AgreeStep(s, steps[0]);
      if FreshEdit(s, steps[0]) {
        StandingMeansSubject(Next(s, steps[0]), steps[1..]);
      }
    }
  }

  // -------------------------------------------------- the look and the commit

  lemma PositionAtOnly(ps: seq<Position>, i: nat)
    requires Distinct(ps) && i < |ps|
    ensures PositionAt(ps, ps[i].idx) == Some(ps[i])
  {
    var r := PositionAt(ps, ps[i].idx);
    assert Taken(ps, ps[i].idx);
    var j :| 0 <= j < |ps| && ps[j] == r.value;
  }

  /** A move committed from a look of any age is one a look taken now would allow,
      and only the draws running out refuses one it would. */
  lemma CommitAgreesWithLook(s: Sys, steps: seq<Step>, look: Look, stated: Credential, next: Fingerprint,
                             now: nat, draws: seq<nat>)
    requires Inv(s)
    requires FirstLook(s.db, stated, next) == Ok(look)
    ensures
      var db := Run(s, steps).db;
      var r := Reissue(db, look, stated, next, now, draws).1;
      FirstLook(db, stated, next) == Ok(look) <==> r.Ok? || r == Refused(NoFreePosition)
  {
    hide AllocateStatus, RenewStatus, Registered, RevokedAt, Backed, OneStanding, MovedOnce, Run, PositionAt;
    RunKeeps(s, steps);
    var before, after := s.db.positions, Run(s, steps).db.positions;
    var p := PositionAt(before, stated.idx).value;
    var i :| 0 <= i < |before| && before[i] == p;
    PositionAtOnly(before, i);
    PositionAtOnly(after, i);
  }

  /** Handing the moved credential out again: the one at its position, and nothing
      else changes. */
  lemma AgainChangesNothing(s: Sys, look: Look, stated: Credential, next: Fingerprint, now: nat, draws: seq<nat>)
    requires Inv(s) && look.again
    requires FirstLook(s.db, stated, next) == Ok(look)
    ensures
      var r := Reissue(s.db, look, stated, next, now, draws);
      && r.0 == s.db
      && r.1.Ok?
      && r.1.value.holder == next
      && exists i :: 0 <= i < |s.db.positions| && s.db.positions[i].idx == r.1.value.idx
                     && s.db.positions[i].attestation == look.id
                     && (s.db.positions[i].revoked ==> Dead(s.db.positions, look.id))
  {
    hide AllocateStatus, Registered, RevokedAt, Backed, OneStanding, MovedOnce, PositionAt, Dead, Taken;
    var ps := s.db.positions;
    var p := PositionAt(ps, stated.idx).value;
    var i :| 0 <= i < |ps| && ps[i] == p;
    AllocateStatusCases(ps, look.id, draws);
    AllocateFound(ps, look.id, draws, i);
  }

  lemma AllocateFound(ps: seq<Position>, id: Id, draws: seq<nat>, i: nat)
    requires i < |ps| && ps[i].attestation == id
    ensures AllocateStatus(ps, id, draws).1.Some? && AllocateStatus(ps, id, draws).0 == ps
  {
    hide Standing, Latest;
  }

  /** A lost answer costs nothing: asked again after a move, with the credential
      moved from, the route hands out exactly what the move issued. And the new
      credential stands, the one moved from never again. */
  lemma LostAnswer(s: Sys, look: Look, stated: Credential, next: Fingerprint, now: nat, draws: seq<nat>,
                   later: nat, redraws: seq<nat>)
    requires Inv(s) && !look.again && next != stated.holder
    requires Reissue(s.db, look, stated, next, now, draws).1.Ok?
    ensures
      var (db, r) := Reissue(s.db, look, stated, next, now, draws);
      && FirstLook(db, stated, next) == Ok(Look(look.id, true))
      && Reissue(db, Look(look.id, true), stated, next, later, redraws) == (db, r)
      && (forall other :: other != next ==> FirstLook(db, stated, other) == Refused(CredentialRevoked))
      && (forall other :: FirstLook(db, r.value, other) == Ok(Look(look.id, false)))
  {
    hide RenewStatus, RevokeAll, Registered, RevokedAt, Backed, MovedOnce, PositionAt, AllocateStatus, Standing;
    var ps := s.db.positions;
    var db, r := Reissue(s.db, look, stated, next, now, draws).0, Reissue(s.db, look, stated, next, now, draws).1;
    MoveFacts(s.db, look, stated, next, now, draws);
    RenewStatusCases(ps, look.id, now, draws);
    var rs := RevokeAll(ps, look.id, now);
    var qs := db.positions;
    RevokeAllKeeps(ps, look.id, now);
    AppendKeeps(rs, look.id, r.value.idx);
    var i :| 0 <= i < |ps| && ps[i].idx == stated.idx && ps[i].attestation == look.id && !ps[i].revoked;
    assert qs[i] == rs[i];
    PositionAtOnly(qs, i);
    assert qs[|ps|] == Position(r.value.idx, look.id, false, 0);
    PositionAtOnly(qs, |ps|);
    OnlyStanding(qs, look.id, |ps|, redraws);
  }

  lemma OnlyStanding(ps: seq<Position>, id: Id, i: nat, draws: seq<nat>)
    requires OneStanding(ps) && i < |ps| && ps[i].attestation == id && !ps[i].revoked
    ensures AllocateStatus(ps, id, draws) == (ps, Some(ps[i].idx))
  {
    hide Standing;
    var standing := Standing(ps, id, 0);
  }

  /** One hand-over per credential: after a move from a position no second move from
      it commits, though the subject may have come back to the first holder. */
  lemma OneHandover(s: Sys, look: Look, stated: Credential, next: Fingerprint, now: nat, draws: seq<nat>,
                    between: seq<Step>, second: Step)
    requires Inv(s) && !look.again && stated in s.issued && next != stated.holder
    requires Reissue(s.db, look, stated, next, now, draws).1.Ok?
    requires second.ReissueStep? && !second.look.again && second.stated.idx == stated.idx
    ensures
      var db := Run(Next(s, ReissueStep(look, stated, next, now, draws)), between).db;
      Reissue(db, second.look, second.stated, second.next, second.now, second.draws).1.Refused?
  {
    hide Reissue, Registered, Backed, OneStanding, RenewStatus, Run;
    var t := Next(s, ReissueStep(look, stated, next, now, draws));
    var u := Run(t, between);
    StepKeeps(s, ReissueStep(look, stated, next, now, draws));
    RunKeeps(t, between);
    var ps := u.db.positions;
    assert stated.idx == t.moves[|s.moves|] == u.moves[|s.moves|];
    assert RevokedAt(ps, stated.idx);
    MoveFacts(u.db, second.look, second.stated, second.next, second.now, second.draws);
  }

  // ----------------------------------------------------- revocation of the row

  /** The request, were it to load the row before it was revoked and ask for nothing
      new, would write the earlier row back. */
  predicate Reopens(step: Step, id: Id) {
    step.EditStep? && step.id == id && step.loaded.status != Revoked && step.wanted != Revoked
  }

  predicate Deletes(step: Step, id: Id) { step.DeleteStep? && step.id == id }

  /** One step on a revoked row: it stays revoked exactly when the step does not reopen
      it, and wholly as it was exactly when what an edit makes of its load is the
      stored row. */
  lemma RevokedRowStep(s: Sys, step: Step, id: Id)
    requires id in s.db.rows && s.db.rows[id].status == Revoked
    ensures id !in Next(s, step).db.rows <==> Deletes(step, id)
    ensures
      var rows := Next(s, step).db.rows;
      id in rows ==>
        && (rows[id].status == Revoked <==> !Reopens(step, id))
        && (rows[id] == s.db.rows[id]
            <==> (step.EditStep? && step.id == id ==>
                    Transition(step.loaded, step.wanted, step.reason, step.now) == s.db.rows[id]))
  {
    hide AllocateStatus, RenewStatus, RevokeAll, PositionAt;
  }

  /** Revoked in every state passed, up to a deletion of the row. */
  ghost predicate StaysRevoked(s: Sys, steps: seq<Step>, id: Id)
    decreases |steps|
  {
    steps == [] || Deletes(steps[0], id)
    || (var t := Next(s, steps[0]);
        id in t.db.rows && t.db.rows[id].status == Revoked && StaysRevoked(t, steps[1..], id))
  }

  predicate NothingReopens(steps: seq<Step>, id: Id) {
    steps == [] || Deletes(steps[0], id) || (!Reopens(steps[0], id) && NothingReopens(steps[1..], id))
  }

  /** Over a whole run, whatever was loaded and however long ago: nothing comes back
      from revoked if and only if every edit of the row loaded a revoked one or asks
      for revoked. */
  lemma {:induction false} NothingComesBack(s: Sys, steps: seq<Step>, id: Id)
    requires id in s.db.rows && s.db.rows[id].status == Revoked
    ensures StaysRevoked(s, steps, id) <==> NothingReopens(steps, id)
    decreases |steps|
  {
    hide Next, Reopens;
    if steps != [] && !Deletes(steps[0], id) {
      RevokedRowStep(s, steps[0], id);
      if !Reopens(steps[0], id) {
        NothingComesBack(Next(s, steps[0]), steps[1..], id);
      }
    }
  }

  /** The whole row as it was, time and reason included, in every state passed. */
  ghost predicate StaysAsItWas(s: Sys, steps: seq<Step>, id: Id, row: Attestation)
    decreases |steps|
  {
    steps == [] || Deletes(steps[0], id)
    || (var t := Next(s, steps[0]);
        id in t.db.rows && t.db.rows[id] == row && StaysAsItWas(t, steps[1..], id, row))
  }

  predicate EditsMakeIt(steps: seq<Step>, id: Id, row: Attestation) {
    steps == [] || Deletes(steps[0], id)
    || ((steps[0].EditStep? && steps[0].id == id ==>
           Transition(steps[0].loaded, steps[0].wanted, steps[0].reason, steps[0].now) == row)
        && EditsMakeIt(steps[1..], id, row))
  }

  /** Time and reason stay if and only if every edit makes of its load the row that
      is stored; one that loaded the revoked row always does. */
  lemma {:induction false} RevokedRowIsFixed(s: Sys, steps: seq<Step>, id: Id)
    requires id in s.db.rows && s.db.rows[id].status == Revoked
    ensures StaysAsItWas(s, steps, id, s.db.rows[id]) <==> EditsMakeIt(steps, id, s.db.rows[id])
    ensures forall wanted, reason, now :: Transition(s.db.rows[id], wanted, reason, now) == s.db.rows[id]
    decreases |steps|
  {
    hide Next;
    if steps != [] && !Deletes(steps[0], id) {
      RevokedRowStep(s, steps[0], id);
      var t := Next(s, steps[0]);
      if t.db.rows[id] == s.db.rows[id] {
        RevokedRowIsFixed(t, steps[1..], id);
      }
    }
  }

  /** Loaded while active, revoked by another request, then saved with a new text
      alone: the row is active again, though nothing it was issued as stands. */
  lemma StaleEditReopens(id: Id, who: Fingerprint)
    requires who != NOBODY
    ensures
      var active := Attestation(Active, who, 0, Unstated);
      var revoked := Run(START, [CreateStep(id, NOBODY), ClaimStep(id, who, [7]),
                                 EditStep(id, active, Revoked, Manual, 5)]);
      var s := Run(revoked, [EditStep(id, active, Active, Unstated, 9)]);
      && revoked.db.rows == map[id := Attestation(Revoked, who, 5, Manual)]
      && s.db.rows == map[id := active]
      && s.db.positions == [Position(7, id, true, 5)]
  {
    var active := Attestation(Active, who, 0, Unstated);
    var steps := [CreateStep(id, NOBODY), ClaimStep(id, who, [7]), EditStep(id, active, Revoked, Manual, 5)];
    var s1 := Next(START, steps[0]);
    var s2 := Next(s1, steps[1]);
    assert s2.db == Db(map[id := active], [Position(7, id, false, 0)]);
    var s3 := Next(s2, steps[2]);
    assert s3.db.rows == map[id := Attestation(Revoked, who, 5, Manual)];
    assert s3.db.positions == [Position(7, id, true, 5)];
    assert steps[1..][1..][1..] == [];
    assert Run(START, steps) == Run(s1, steps[1..]) == Run(s2, steps[1..][1..]) == Run(s3, []);
    var again := [EditStep(id, active, Active, Unstated, 9)];
    var s4 := Next(s3, again[0]);
    assert s4.db.rows == map[id := active];
    assert Run(s3, again) == Run(s4, again[1..]);
  }

  /** An offer loaded before it was accepted and saved after it: the credential
      still stands, the offer is open again, and a second identity is issued a
      credential at the same position. */
  lemma StaleEditSharesAPosition(id: Id, first: Fingerprint, second: Fingerprint)
    requires first != second && first != NOBODY
    ensures
      var offer := Attestation(Offered, NOBODY, 0, Unstated);
      var s := Run(START, [CreateStep(id, NOBODY), ClaimStep(id, first, [7]), EditStep(id, offer, Offered, Unstated, 9),
                           ClaimStep(id, second, [8])]);
      s.issued == {Credential(7, first), Credential(7, second)} && s.db.positions == [Position(7, id, false, 0)]
  {
    var offer := Attestation(Offered, NOBODY, 0, Unstated);
    var steps := [CreateStep(id, NOBODY), ClaimStep(id, first, [7]), EditStep(id, offer, Offered, Unstated, 9),
                  ClaimStep(id, second, [8])];
    var s1 := Next(START, steps[0]);
    var s2 := Next(s1, steps[1]);
    assert s2 == Sys(Db(map[id := Attestation(Active, first, 0, Unstated)], [Position(7, id, false, 0)]),
                     {Credential(7, first)}, []);
    var s3 := Next(s2, steps[2]);
    assert s3.db == Db(map[id := offer], [Position(7, id, false, 0)]);
    var s4 := Next(s3, steps[3]);
    assert steps[1..][1..][1..][1..] == [];
    assert Run(START, steps) == Run(s1, steps[1..]) == Run(s2, steps[1..][1..])
        == Run(s3, steps[1..][1..][1..]) == Run(s4, []);
  }
}
