/** Checks: one person asks another to show an attestation, and is shown one verdict
    (cmd/revoked/routes/attestationChecks.go).

    An answer is two steps: a look at the check with the verification of what was
    presented, and later a guarded update. Other requests run in between. The
    verification is an uninterpreted function, and an id is never generated twice. */
module AttestationChecks {
  import opened Results

  datatype Id = Id(text: string)

  datatype State = Invalid | Verified | NotVerified(text: string)

  datatype Verdict = Verdict(state: State, claims: string)

  datatype Asked = Asked(audience: string, nonce: string)

  datatype Status = Open | Answered(result: Verdict, at: int)

  datatype Check = Check(asked: Asked, expiresAt: int, status: Status)

  /** What verifying a presentation at a time yields. */
  type Verifier = (string, Asked, int) -> Verdict

  datatype Refusal = NotFound | Closed | PresentationInvalid

  type Outcome<+T> = Result<T, Refusal>

  /** An answer between its look and its update. */
  datatype Pending = Pending(id: Id, verdict: Verdict)

  // ---------------------------------------------------------------- the requests

  function OpenCheck(rows: map<Id, Check>, id: Id, now: int): (r: Outcome<Check>)
    ensures r.Ok? <==> id in rows && rows[id].status.Open? && now < rows[id].expiresAt
  {
    if id !in rows then Refused(NotFound)
    else if !rows[id].status.Open? || !(rows[id].expiresAt > now) then Refused(Closed)
    else Ok(rows[id])
  }

  function Look(rows: map<Id, Check>, id: Id, presentation: string, verify: Verifier, looked: int, verified: int)
    : Outcome<Pending>
  {
    match OpenCheck(rows, id, looked)
    case Refused(why) => Refused(why)
    case Ok(check) =>
      var verdict := verify(presentation, check.asked, verified);
      if verdict.state == Invalid then Refused(PresentationInvalid) else Ok(Pending(id, verdict))
  }

  /** The single guarded update. */
  function Commit(rows: map<Id, Check>, p: Pending, now: int): (map<Id, Check>, Outcome<State>) {
    if p.id in rows && rows[p.id].status.Open? && rows[p.id].expiresAt > now then
      (rows[p.id := rows[p.id].(status := Answered(p.verdict, now))], Ok(p.verdict.state))
    else (rows, Refused(Closed))
  }

  class Store {
    var rows: map<Id, Check>

    constructor ()
      ensures rows == map[]
    {
      rows := map[];
    }

    method Create(id: Id, asked: Asked, expiresAt: int)
      modifies this
      ensures rows == old(rows)[id := Check(asked, expiresAt, Open)]
    {
      rows := rows[id := Check(asked, expiresAt, Open)];
    }

    method LookUp(id: Id, presentation: string, verify: Verifier, looked: int, verified: int)
      returns (r: Outcome<Pending>)
      ensures r == Look(rows, id, presentation, verify, looked, verified)
    {
      if id !in rows {
        return Refused(NotFound);
      }
      var check := rows[id];
      if !check.status.Open? || !(check.expiresAt > looked) {
        return Refused(Closed);
      }
      var verdict := verify(presentation, check.asked, verified);
      if verdict.state == Invalid {
        return Refused(PresentationInvalid);
      }
      return Ok(Pending(id, verdict));
    }

    method Update(p: Pending, now: int) returns (r: Outcome<State>)
      modifies this
      ensures (rows, r) == Commit(old(rows), p, now)
    {
      var affected := 0;
      if p.id in rows {
        var row := rows[p.id];
        if row.status.Open? && row.expiresAt > now {
          rows := rows[p.id := row.(status := Answered(p.verdict, now))];
          affected := 1;
        }
      }
      if affected == 0 {
        return Refused(Closed);
      }
      return Ok(p.verdict.state);
    }
  }

  // ------------------------------------------------------------------- every run

  datatype Step =
    | CreateStep(id: Id, asked: Asked, expiresAt: int)
    | LookStep(id: Id, presentation: string, looked: int, verified: int)
    | CommitStep(pending: Pending, now: int)
    | DeleteStep(id: Id)

  /** The rows, the answers that looked, and every id generated with what was asked.
      taken lists the updates that landed. */
  datatype Sys = Sys(rows: map<Id, Check>, asked: map<Id, Asked>, looks: set<Pending>, taken: seq<Pending>)

  const START := Sys(map[], map[], {}, [])

  function Next(s: Sys, step: Step, verify: Verifier): Sys {
    match step
    case CreateStep(id, asked, expiresAt) =>
      if id in s.asked then s
      else s.(rows := s.rows[id := Check(asked, expiresAt, Open)], asked := s.asked[id := asked])
    case LookStep(id, presentation, looked, verified) =>
      var r := Look(s.rows, id, presentation, verify, looked, verified);
      if r.Ok? then s.(looks := s.looks + {r.value}) else s
    case CommitStep(p, now) =>
      if p !in s.looks then s
      else
        var (rows, r) := Commit(s.rows, p, now);
        if r.Ok? then s.(rows := rows, taken := s.taken + [p]) else s
    case DeleteStep(id) => s.(rows := s.rows - {id})
  }

  function Run(s: Sys, steps: seq<Step>, verify: Verifier): Sys
    decreases |steps|
  {
    if steps == [] then s else Run(Next(s, steps[0], verify), steps[1..], verify)
  }

  ghost predicate Earned(asked: Asked, v: Verdict, verify: Verifier) {
    v.state != Invalid && exists presentation, at :: verify(presentation, asked, at) == v
  }

  ghost predicate Inv(s: Sys, verify: Verifier) {
    && (forall id :: id in s.rows ==> id in s.asked && s.rows[id].asked == s.asked[id])
    && (forall p :: p in s.looks ==> p.id in s.asked && Earned(s.asked[p.id], p.verdict, verify))
    && (forall id :: id in s.rows && s.rows[id].status.Answered? ==>
          && s.rows[id].status.at < s.rows[id].expiresAt
          && Pending(id, s.rows[id].status.result) in s.taken)
    && (forall k :: 0 <= k < |s.taken| ==>
          && s.taken[k] in s.looks
          && (s.taken[k].id in s.rows ==> s.rows[s.taken[k].id].status.Answered?))
    && (forall j, k :: 0 <= j < k < |s.taken| ==> s.taken[j].id != s.taken[k].id)
  }

  lemma CommitKeeps(s: Sys, p: Pending, now: int, verify: Verifier)
    requires Inv(s, verify)
    ensures Inv(Next(s, CommitStep(p, now), verify), verify)
    ensures s.taken <= Next(s, CommitStep(p, now), verify).taken
  {
    hide Earned;
    var t := Next(s, CommitStep(p, now), verify);
    if t != s {
      assert t.taken[|s.taken|] == p;
      assert forall k :: 0 <= k < |s.taken| ==> t.taken[k] == s.taken[k];
      assert forall q :: q in s.taken ==> q in t.taken;
    }
  }

  lemma OtherStepKeeps(s: Sys, step: Step, verify: Verifier)
    requires Inv(s, verify) && !step.CommitStep?
    ensures Inv(Next(s, step, verify), verify)
    ensures s.taken == Next(s, step, verify).taken
  {
    hide Earned;
    if step.LookStep? {
      var r := Look(s.rows, step.id, step.presentation, verify, step.looked, step.verified);
      if r.Ok? {
        EarnedBy(s.asked[step.id], step.presentation, step.verified, verify);
      }
    }
  }

  /** What no step does to an answered check or to a deleted one. */
  lemma StepSettles(s: Sys, step: Step, verify: Verifier)
    requires Inv(s, verify)
    ensures forall id :: id in s.asked ==>
              id in Next(s, step, verify).asked && Next(s, step, verify).asked[id] == s.asked[id]
    ensures forall id :: id in s.rows && s.rows[id].status.Answered? && id in Next(s, step, verify).rows ==>
              Next(s, step, verify).rows[id] == s.rows[id]
    ensures forall id :: id in s.asked && id !in s.rows ==> id !in Next(s, step, verify).rows
  {
    hide Earned, Look;
  }

  lemma StepKeeps(s: Sys, step: Step, verify: Verifier)
    requires Inv(s, verify)
    ensures Inv(Next(s, step, verify), verify)
    ensures s.taken <= Next(s, step, verify).taken
    ensures forall id :: id in s.asked ==>
              id in Next(s, step, verify).asked && Next(s, step, verify).asked[id] == s.asked[id]
    ensures forall id :: id in s.rows && s.rows[id].status.Answered? && id in Next(s, step, verify).rows ==>
              Next(s, step, verify).rows[id] == s.rows[id]
    ensures forall id :: id in s.asked && id !in s.rows ==> id !in Next(s, step, verify).rows
  {
    hide Earned, Inv, Next;
    StepSettles(s, step, verify);
    if step.CommitStep? {
      CommitKeeps(s, step.pending, step.now, verify);
    } else {
      OtherStepKeeps(s, step, verify);
    }
  }

  lemma EarnedBy(asked: Asked, presentation: string, at: int, verify: Verifier)
    ensures verify(presentation, asked, at).state != Invalid ==> Earned(asked, verify(presentation, asked, at), verify)
  {
  }

  lemma {:induction false} RunKeeps(s: Sys, steps: seq<Step>, verify: Verifier)
    requires Inv(s, verify)
    ensures Inv(Run(s, steps, verify), verify)
    ensures s.taken <= Run(s, steps, verify).taken
    ensures forall id :: id in s.asked && id !in s.rows ==> id !in Run(s, steps, verify).rows
    ensures forall id :: id in s.asked ==>
              id in Run(s, steps, verify).asked && Run(s, steps, verify).asked[id] == s.asked[id]
    ensures forall id :: id in s.rows && s.rows[id].status.Answered? && id in Run(s, steps, verify).rows ==>
              Run(s, steps, verify).rows[id] == s.rows[id]
    decreases |steps|
  {
    hide Next, Earned;
    if steps != [] {
      StepKeeps(s, steps[0], verify);
      RunKeeps(Next(s, steps[0], verify), steps[1..], verify);
    }
  }

  /** In every reachable state: a stored verdict came from verifying something
      presented for this very check, was stored before the check expired, and is the
      only one ever stored for it. Two answers never both land. */
  lemma OneVerdict(steps: seq<Step>, verify: Verifier)
    ensures
      var s := Run(START, steps, verify);
      && (forall id :: id in s.rows && s.rows[id].status.Answered? ==>
            && s.rows[id].status.at < s.rows[id].expiresAt
            && Earned(s.rows[id].asked, s.rows[id].status.result, verify)
            && forall k :: 0 <= k < |s.taken| && s.taken[k].id == id ==> s.taken[k].verdict == s.rows[id].status.result)
      && (forall j, k :: 0 <= j < k < |s.taken| ==> s.taken[j].id != s.taken[k].id)
  {
    hide Run, Earned;
    RunKeeps(START, steps, verify);
  }

  /** An answered check keeps its verdict until it is deleted, and a deleted one
      never reads as anything again. */
  lemma VerdictNeverChanges(before: seq<Step>, after: seq<Step>, id: Id, verify: Verifier)
    requires
      var s := Run(START, before, verify);
      id in s.asked && (id in s.rows ==> s.rows[id].status.Answered?)
    ensures
      var s, t := Run(START, before, verify), Run(Run(START, before, verify), after, verify);
      id in t.rows ==> id in s.rows && t.rows[id] == s.rows[id]
  {
    hide Run, Inv;
    StartHolds(verify);
    RunKeeps(START, before, verify);
    RunKeeps(Run(START, before, verify), after, verify);
  }

  lemma StartHolds(verify: Verifier)
    ensures Inv(START, verify)
  {
  }

  /** Whatever cannot be read as a presentation leaves every check as it was. */
  lemma UnreadableLeavesOpen(s: Sys, id: Id, presentation: string, looked: int, verified: int, verify: Verifier)
    requires id in s.rows && verify(presentation, s.rows[id].asked, verified).state == Invalid
    ensures Next(s, LookStep(id, presentation, looked, verified), verify) == s
  {
  }

  /** Of two answers that both looked while the check was open, the first update in
      time lands and the second is refused, in either order. */
  lemma RaceHasOneWinner(rows: map<Id, Check>, p: Pending, q: Pending, now: int, later: int)
    requires p.id == q.id && p.id in rows && rows[p.id].status.Open? && now < rows[p.id].expiresAt
    ensures
      var (first, won) := Commit(rows, p, now);
      && won == Ok(p.verdict.state)
      && Commit(first, q, later) == (first, Refused(Closed))
      && first[p.id].status == Answered(p.verdict, now)
  {
  }
}
