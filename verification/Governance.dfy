/** Whether a workspace keeps somebody who can bring people in, and stays within its
    size, over every interleaving of requests. */
module Governance {
  import opened Results
  import opened Catalogue
  import opened Grants
  import opened Surfaces
  import opened KeyReach
  import opened Membership
  import opened MembershipTheorems

  predicate Overwrites(s: State, row: Member) {
    row.workspace in s.workspaces && FindRow(s.members, row.id, 0).Some? && !Duplicates(s.members, row)
  }

  // ------------------------------------------------------------------- the size

  /** A row of another workspace moves into one that is full. */
  predicate Overfills(s: State, write: Write, workspace: Id) {
    write.Replace? && Overwrites(s, write.member) && write.member.workspace == workspace
    && s.members[FindRow(s.members, write.member.id, 0).value].workspace != workspace
    && Count(s.members, workspace) == MEMBER_LIMIT
  }

  lemma PutCounts(ms: seq<Member>, k: nat, m: Member, w: Id)
    requires k < |ms|
    ensures Count(ms[k := m], w)
         == Count(ms, w) - (if ms[k].workspace == w then 1 else 0) + if m.workspace == w then 1 else 0
  {
    assert ms == ms[..k] + [ms[k]] + ms[k + 1..];
    assert ms[k := m] == ms[..k] + [m] + ms[k + 1..];
    CountConcat(ms[..k] + [ms[k]], ms[k + 1..], w);
    CountConcat(ms[..k] + [m], ms[k + 1..], w);
    CountSnoc(ms[..k], ms[k], w);
    CountSnoc(ms[..k], m, w);
  }

  lemma DropCounts(s: State, id: Id, w: Id)
    ensures Count(DropMember(s, id).members, w) <= Count(s.members, w)
  {
    hide FindRow;
    var ms, found := s.members, FindRow(s.members, id, 0);
    if found.Some? {
      var k := found.value;
      assert ms == ms[..k] + [ms[k]] + ms[k + 1..];
      CountConcat(ms[..k] + [ms[k]], ms[k + 1..], w);
      CountConcat(ms[..k], ms[k + 1..], w);
      CountSnoc(ms[..k], ms[k], w);
    }
  }

  lemma StoreCounts(s: State, row: Member, w: Id)
    requires Count(s.members, w) <= MEMBER_LIMIT
    ensures Count(StoreMember(s, row).0.members, w) <= MEMBER_LIMIT
  {
    hide Count, FindMember, FindRow, Synced;
    SyncedPlace(row);
    CountSnoc(s.members, Synced(row), w);
  }

  lemma SizeStep(s: State, write: Write, workspace: Id)
    requires Count(s.members, workspace) <= MEMBER_LIMIT
    ensures Count(Apply(s, write).members, workspace) <= MEMBER_LIMIT <==> !Overfills(s, write, workspace)
  {
    hide Count, FindRow, Synced, StoreMember, Duplicates, FullSet;
    match write
    case Store(row) => StoreCounts(s, row, workspace);
    case Drop(id) => DropCounts(s, id, workspace);
    case Replace(row) =>
      SyncedPlace(row);
      if Overwrites(s, row) { PutCounts(s.members, FindRow(s.members, row.id, 0).value, Synced(row), workspace); }
    case Found(w, row) =>
      if w in s.founders {
        StoreCounts(s.(founders := s.founders - {w}), FounderRow(w, s.founders[w], row), workspace);
      }
    case _ =>
  }

  /** A workspace is within the limit in every state of a run if and only if no update
      moves another workspace's row into it while it is full. */
  lemma {:induction false} SizeThroughout(past: History, steps: seq<Step>, workspace: Id)
    requires Count(Now(past).members, workspace) <= MEMBER_LIMIT
    ensures Always(past, steps, (s: State) => Count(s.members, workspace) <= MEMBER_LIMIT)
        <==> Never(past, steps, (s, write) => Overfills(s, write, workspace))
    decreases |steps|
  {
    hide Apply, Wanted, Count, Overfills;
    if steps != [] {
      SizeStep(Now(past), Wanted(past, steps[0]), workspace);
      if !Overfills(Now(past), Wanted(past, steps[0]), workspace) {
        SizeThroughout(Next(past, steps[0]), steps[1..], workspace);
      }
    }
  }

  // ------------------------------------------------------------------ who is left

  ghost predicate Has(ms: seq<Member>, workspace: Id, p: Member -> bool) {
    exists i :: 0 <= i < |ms| && ms[i].workspace == workspace && p(ms[i])
  }

  /** No row of another id in the workspace is such a one. */
  ghost predicate Alone(ms: seq<Member>, workspace: Id, p: Member -> bool, id: Id) {
    forall i :: 0 <= i < |ms| && ms[i].workspace == workspace && p(ms[i]) ==> ms[i].id == id
  }

  /** The write takes the last such row away, out of the workspace or out of the kind. */
  ghost predicate Loses(s: State, write: Write, workspace: Id, p: Member -> bool) {
    match write
    case Replace(row) =>
      Overwrites(s, row) && !(row.workspace == workspace && p(Synced(row))) && Alone(s.members, workspace, p, row.id)
    case Drop(id) => FindRow(s.members, id, 0).Some? && Alone(s.members, workspace, p, id)
    case _ => false
  }

  lemma PutLeaves(ms: seq<Member>, k: nat, m: Member, w: Id, p: Member -> bool)
    requires RowsDistinct(ms) && k < |ms| && m.id == ms[k].id && Has(ms, w, p)
    ensures Has(ms[k := m], w, p) <==> (m.workspace == w && p(m)) || !Alone(ms, w, p, m.id)
  {
    var after := ms[k := m];
    assert after[k] == m;
    if i :| 0 <= i < |ms| && ms[i].workspace == w && p(ms[i]) && ms[i].id != m.id {
      assert after[i] == ms[i];
    }
  }

  lemma DropLeaves(ms: seq<Member>, k: nat, w: Id, p: Member -> bool)
    requires RowsDistinct(ms) && k < |ms|
    ensures Has(ms[..k] + ms[k + 1..], w, p) <==> !Alone(ms, w, p, ms[k].id)
  {
    var after := ms[..k] + ms[k + 1..];
    assert forall i :: 0 <= i < |after| ==> after[i] == ms[if i < k then i else i + 1];
    if i :| 0 <= i < |ms| && ms[i].workspace == w && p(ms[i]) && ms[i].id != ms[k].id {
      assert after[if i < k then i else i - 1] == ms[i];
    }
  }

  lemma StoreLeaves(s: State, row: Member, w: Id, p: Member -> bool)
    requires Has(s.members, w, p)
    ensures Has(StoreMember(s, row).0.members, w, p)
  {
    hide Count, FindMember, FindRow, Synced;
    var i :| 0 <= i < |s.members| && s.members[i].workspace == w && p(s.members[i]);
    assert StoreMember(s, row).0.members[i] == s.members[i];
  }

  lemma HasStep(s: State, write: Write, workspace: Id, p: Member -> bool)
    requires RowsDistinct(s.members) && Has(s.members, workspace, p)
    ensures Has(Apply(s, write).members, workspace, p) <==> !Loses(s, write, workspace, p)
  {
    hide FindRow, Synced, StoreMember, Duplicates, Has, Alone, FullSet, RowsDistinct;
    match write
    case Store(row) => StoreLeaves(s, row, workspace, p);
    case Replace(row) =>
      SyncedPlace(row);
      if Overwrites(s, row) {
        PutLeaves(s.members, FindRow(s.members, row.id, 0).value, Synced(row), workspace, p);
      }
    case Drop(id) =>
      if FindRow(s.members, id, 0).Some? { DropLeaves(s.members, FindRow(s.members, id, 0).value, workspace, p); }
    case Found(w, row) =>
      if w in s.founders {
        StoreLeaves(s.(founders := s.founders - {w}), FounderRow(w, s.founders[w], row), workspace, p);
      }
    case _ =>
  }

  /** Over every interleaving: a workspace that has a member of a kind has one in every
      later state if and only if no write takes the last away from where it lands. */
  lemma {:induction false} HasThroughout(past: History, steps: seq<Step>, workspace: Id, p: Member -> bool)
    requires Kept(past) && Has(Now(past).members, workspace, p)
    ensures Always(past, steps, (s: State) => Has(s.members, workspace, p))
        <==> Never(past, steps, (s, write) => Loses(s, write, workspace, p))
    decreases |steps|
  {
    hide Apply, Wanted, Has, Loses, Inv;
    NowIsKept(past);
    if steps != [] {
      HasStep(Now(past), Wanted(past, steps[0]), workspace, p);
      if !Loses(Now(past), Wanted(past, steps[0]), workspace, p) {
        StepKeeps(past, steps[0]);
        HasThroughout(Next(past, steps[0]), steps[1..], workspace, p);
      }
    }
  }

  lemma NowIsKept(past: History)
    requires Kept(past)
    ensures Inv(Now(past)) && RowsDistinct(Now(past).members)
  {
    hide InvitesGrant, KeysOutsideVault, OneRowEach, RolesFollow, InWorkspaces;
  }

  // --------------------------------------------------------- the last administrator

  /** The write leaves its row unable to administer the workspace, and in the state it
      commits to no other row can. */
  predicate Orphans(s: State, write: Write, workspace: Id) {
    match write
    case Replace(row) =>
      Overwrites(s, row) && !(row.workspace == workspace && CanAdminister(row))
      && AdminCount(s.members, workspace, row.id) == 0
    case Drop(id) => FindRow(s.members, id, 0).Some? && AdminCount(s.members, workspace, id) == 0
    case _ => false
  }

  lemma OrphansLose(s: State, write: Write, workspace: Id)
    ensures Orphans(s, write, workspace) <==> Loses(s, write, workspace, CanAdminister)
  {
    hide FindRow, AdminCount, Duplicates, CanAdminister;
    if write.Replace? {
      SyncedRoleFollows(write.member);
      CountIsAlone(s.members, workspace, write.member.id);
    } else if write.Drop? {
      CountIsAlone(s.members, workspace, write.id);
    }
  }

  lemma CountIsAlone(ms: seq<Member>, workspace: Id, id: Id)
    ensures AdminCount(ms, workspace, id) == 0 <==> Alone(ms, workspace, CanAdminister, id)
  {
    hide AdminCount, CanAdminister;
    if AdminCount(ms, workspace, id) == 0 {
      forall i | 0 <= i < |ms| && ms[i].workspace == workspace && CanAdminister(ms[i]) ensures ms[i].id == id {
        assert !Administers(ms[i], workspace, id);
      }
    }
  }

  /** A workspace that has an administrator has one in every later state if and only if
      every write that removes or demotes one still finds another where it commits. */
  lemma {:induction false} GovernedThroughout(past: History, steps: seq<Step>, workspace: Id)
    requires Kept(past) && Has(Now(past).members, workspace, CanAdminister)
    ensures Always(past, steps, (s: State) => Has(s.members, workspace, CanAdminister))
        <==> Never(past, steps, (s, write) => Orphans(s, write, workspace))
    decreases |steps|
  {
    hide Apply, Wanted, Has, Loses, Orphans, Inv;
    NowIsKept(past);
    if steps != [] {
      var write := Wanted(past, steps[0]);
      OrphansLose(Now(past), write, workspace);
      HasStep(Now(past), write, workspace, CanAdminister);
      if !Orphans(Now(past), write, workspace) {
        StepKeeps(past, steps[0]);
        GovernedThroughout(Next(past, steps[0]), steps[1..], workspace);
      }
    }
  }

  /** The guard counted, and a removal loaded, in the state the write commits to, and
      an update leaves its row in its workspace. */
  predicate Prompt(past: History, step: Step) {
    match step
    case UpdateStep(_, sent, _, countAt) =>
      var stored := LoadedMember(Now(past), sent.id);
      Seen(past, countAt) == Now(past) && (stored.Some? ==> stored.value.workspace == sent.workspace)
    case RemoveStep(_, loadAt, countAt) => Seen(past, loadAt) == Seen(past, countAt) == Now(past)
    case _ => true
  }

  lemma PromptOrphansNone(past: History, step: Step, workspace: Id)
    requires Prompt(past, step) && Kept(past) && Has(Now(past).members, workspace, CanAdminister)
    ensures !Orphans(Now(past), Wanted(past, step), workspace)
  {
    hide FindRow, AdminCount, CanAdminister, Normalize, Granter, Duplicates, Seen, Kept, FullSet;
    hide AddGuard, InviteGuard, AcceptGuard, KeyGuard, Reach, Signed, FindMember, InviterCanStillInvite, Asked;
    NowIsKept(past);
    var ms := Now(past).members;
    if step.UpdateStep? || step.RemoveStep? {
      var id := if step.UpdateStep? then step.member.id else step.id;
      var k := FindRow(ms, id, 0);
      if k.Some? && !(ms[k.value].workspace == workspace && CanAdminister(ms[k.value])) {
        OthersCounted(ms, k.value, workspace);
      }
    }
  }

  /** A workspace's administrators are more than a row that is not one of them. */
  lemma OthersCounted(ms: seq<Member>, k: nat, workspace: Id)
    requires RowsDistinct(ms) && k < |ms| && Has(ms, workspace, CanAdminister)
    requires !(ms[k].workspace == workspace && CanAdminister(ms[k]))
    ensures AdminCount(ms, workspace, ms[k].id) > 0
  {
    hide AdminCount, CanAdminister;
    var i :| 0 <= i < |ms| && ms[i].workspace == workspace && CanAdminister(ms[i]);
    assert Administers(ms[i], workspace, ms[k].id);
  }

  ghost predicate AllPrompt(past: History, steps: seq<Step>)
    decreases |steps|
  {
    steps != [] ==> Prompt(past, steps[0]) && AllPrompt(Next(past, steps[0]), steps[1..])
  }

  /** Requests that run one after the other keep a workspace governed. */
  lemma {:induction false} PromptRunsGovern(past: History, steps: seq<Step>, workspace: Id)
    requires Kept(past) && Has(Now(past).members, workspace, CanAdminister) && AllPrompt(past, steps)
    ensures Always(past, steps, (s: State) => Has(s.members, workspace, CanAdminister))
    decreases |steps|
  {
    hide Apply, Wanted, Has, Loses, Orphans, Inv, Prompt;
    NowIsKept(past);
    if steps != [] {
      var write := Wanted(past, steps[0]);
      PromptOrphansNone(past, steps[0], workspace);
      OrphansLose(Now(past), write, workspace);
      HasStep(Now(past), write, workspace, CanAdminister);
      StepKeeps(past, steps[0]);
      PromptRunsGovern(Next(past, steps[0]), steps[1..], workspace);
    }
  }

  /** Extends and revokes other people's access. */
  predicate HoldsBoth(m: Member) {
    MEMBERS_ADD in SurfaceKeys(MemberScopes(m)) && MEMBERS_REMOVE in SurfaceKeys(MemberScopes(m))
  }

  /** A workspace with a member holding both administering permissions retains one if
      and only if no write takes the last of them away: the guard does not see to it. */
  lemma BothThroughout(past: History, steps: seq<Step>, workspace: Id)
    requires Kept(past) && Has(Now(past).members, workspace, HoldsBoth)
    ensures Always(past, steps, (s: State) => Has(s.members, workspace, HoldsBoth))
        <==> Never(past, steps, (s, write) => Loses(s, write, workspace, HoldsBoth))
  {
    HasThroughout(past, steps, workspace, HoldsBoth);
  }
}
