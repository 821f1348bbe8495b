/** What every interleaving of requests keeps of the members, invites and keys of a
    workspace, and exactly when it keeps somebody who can bring people in. */
module MembershipTheorems {
  import opened Results
  import opened Catalogue
  import opened Grants
  import opened Surfaces
  import opened KeyReach
  import opened Membership

  /** What a request asks to be saved, once its hooks let it past. */
  datatype Write =
    | Nothing
    | Store(member: Member)
    | Replace(member: Member)
    | Drop(id: Id)
    | PutInvite(id: Id, invite: Invite, isNew: bool, maker: Principal)
    | DropInvite(id: Id)
    | PutKey(id: Id, key: Key)
    | DropKey(id: Id)
    | Open(workspace: Id, user: Id)
    | Found(workspace: Id, row: Id)

  /** A request, and how far back it read: each "at" names a state the run has passed. */
  datatype Step =
    | AddStep(who: Principal, member: Member, granterAt: nat)
    | UpdateStep(who: Principal, member: Member, granterAt: nat, countAt: nat)
    | RemoveStep(id: Id, loadAt: nat, countAt: nat)
    | InviteStep(who: Principal, id: Id, invite: Invite, granterAt: nat)
    | ReinviteStep(who: Principal, id: Id, invite: Invite, granterAt: nat)
    | DropInviteStep(id: Id)
    | RedeemStep(id: Id, user: Id, row: Id, spendable: bool, inviteAt: nat, checkAt: nat)
    | KeyStep(who: Principal, id: Id, workspace: Id, requested: seq<string>, sections: seq<Id>,
              reachAt: nat, granterAt: nat)
    | DropKeyStep(id: Id)
    | OpenStep(workspace: Id, user: Id)
    | FoundStep(workspace: Id, row: Id)

  /** A state, and who granted what each invite carries. */
  datatype Moment = Moment(state: State, makers: map<Id, Principal>)

  const START := Moment(State({}, [], map[], map[], map[], map[]), map[])

  /** The moments a run has passed, the present one last. */
  type History = past: seq<Moment> | past != [] witness [START]

  function Present(past: History): Moment { past[|past| - 1] }

  function Now(past: History): State { Present(past).state }

  function Back(past: History, at: nat): nat { if at < |past| then at else |past| - 1 }

  function Seen(past: History, at: nat): State { past[Back(past, at)].state }

  // ----------------------------------------------------------------------- a step

  function LoadedMember(s: State, id: Id): Option<Member> {
    var k := FindRow(s.members, id, 0);
    if k.None? then None else Some(s.members[k.value])
  }

  function WantsAdd(past: History, who: Principal, sent: Member, granterAt: nat): Write {
    var row := AddGuard(Granter(Seen(past, granterAt), who, sent.workspace), sent);
    if row.Ok? then Store(row.value) else Nothing
  }

  function WantsUpdate(past: History, who: Principal, sent: Member, granterAt: nat, countAt: nat): Write {
    var others := AdminCount(Seen(past, countAt).members, sent.workspace, sent.id);
    var row := UpdateGuard(Granter(Seen(past, granterAt), who, sent.workspace), others, sent);
    if row.Ok? then Replace(row.value) else Nothing
  }

  function WantsRemove(past: History, id: Id, loadAt: nat, countAt: nat): Write {
    var loaded := LoadedMember(Seen(past, loadAt), id);
    if loaded.None? then Nothing
    else
      var others := AdminCount(Seen(past, countAt).members, loaded.value.workspace, id);
      if RemoveGuard(others, loaded.value).Ok? then Drop(id) else Nothing
  }

  function WantsInvite(past: History, who: Principal, id: Id, sent: Invite, granterAt: nat, isNew: bool): Write {
    var invite := InviteGuard(Granter(Seen(past, granterAt), who, sent.workspace), sent);
    if invite.Refused? then Nothing
    else PutInvite(id, if isNew then Signed(who, invite.value) else invite.value, isNew, who)
  }

  function WantsRedeem(past: History, id: Id, user: Id, row: Id, spendable: bool, inviteAt: nat, checkAt: nat): Write {
    var read, checked := Seen(past, inviteAt), Seen(past, checkAt);
    if id !in read.invites then Nothing
    else
      var invite := read.invites[id];
      var already := FindMember(checked.members, invite.workspace, user, 0).Some?;
      var member := AcceptGuard(already, InviterCanStillInvite(checked, invite), spendable, invite, user, row);
      if member.Ok? then Store(member.value) else Nothing
  }

  function WantsKey(past: History, step: Step): Write
    requires step.KeyStep?
  {
    var reach := Reach(Seen(past, step.reachAt), step.who, step.workspace, Asked(step.requested), step.sections);
    var granter := Granter(Seen(past, step.granterAt), step.who, step.workspace);
    var key := KeyGuard(granter, reach, step.workspace, step.requested);
    if key.Ok? then PutKey(step.id, key.value) else Nothing
  }

  /** What the hooks let past, of what they read. */
  function Wanted(past: History, step: Step): Write {
    match step
    case AddStep(who, sent, granterAt) => WantsAdd(past, who, sent, granterAt)
    case UpdateStep(who, sent, granterAt, countAt) => WantsUpdate(past, who, sent, granterAt, countAt)
    case RemoveStep(id, loadAt, countAt) => WantsRemove(past, id, loadAt, countAt)
    case InviteStep(who, id, sent, granterAt) => WantsInvite(past, who, id, sent, granterAt, true)
    case ReinviteStep(who, id, sent, granterAt) => WantsInvite(past, who, id, sent, granterAt, false)
    case DropInviteStep(id) => DropInvite(id)
    case RedeemStep(id, user, row, spendable, inviteAt, checkAt) =>
      WantsRedeem(past, id, user, row, spendable, inviteAt, checkAt)
    case KeyStep(_, _, _, _, _, _, _) => WantsKey(past, step)
    case DropKeyStep(id) => DropKey(id)
    case OpenStep(workspace, user) => Open(workspace, user)
    case FoundStep(workspace, row) => Found(workspace, row)
  }

  /** The save, on the state it commits to. */
  function Apply(s: State, write: Write): State {
    match write
    case Nothing => s
    case Store(row) => StoreMember(s, row).0
    case Replace(row) => ReplaceMember(s, row).0
    case Drop(id) => DropMember(s, id)
    case PutInvite(id, invite, isNew, _) =>
      if isNew then StoreInvite(s, id, invite).0 else ReplaceInvite(s, id, invite).0
    case DropInvite(id) => s.(invites := s.invites - {id})
    case PutKey(id, key) => StoreKey(s, id, key).0
    case DropKey(id) => s.(keys := s.keys - {id})
    case Open(workspace, user) => OpenWorkspace(s, workspace, user).0
    case Found(workspace, row) => FoundWorkspace(s, workspace, row).0
  }

  predicate LandsInvite(s: State, write: Write) {
    write.PutInvite? && write.invite.workspace in s.workspaces && write.isNew == (write.id !in s.invites)
  }

  function Commit(m: Moment, write: Write): Moment {
    Moment(Apply(m.state, write), if LandsInvite(m.state, write) then m.makers[write.id := write.maker] else m.makers)
  }

  function Next(past: History, step: Step): History {
    past + [Commit(Present(past), Wanted(past, step))]
  }

  function Run(past: History, steps: seq<Step>): History
    decreases |steps|
  {
    if steps == [] then past else Run(Next(past, steps[0]), steps[1..])
  }

  ghost predicate Always(past: History, steps: seq<Step>, p: State -> bool)
    decreases |steps|
  {
    p(Now(past)) && (steps != [] ==> Always(Next(past, steps[0]), steps[1..], p))
  }

  ghost predicate Never(past: History, steps: seq<Step>, q: (State, Write) -> bool)
    decreases |steps|
  {
    steps != [] ==> !q(Now(past), Wanted(past, steps[0])) && Never(Next(past, steps[0]), steps[1..], q)
  }

  // --------------------------------------------------------------- what is granted

  lemma NormalizeGrants(granter: seq<string>, requested: seq<string>)
    ensures Normalize(granter, requested).Ok? ==>
              && Within(Normalize(granter, requested).value, granter)
              && (Normalize(granter, requested).value == [] <==> requested == [])
  {
    hide Expand, AllScopes, Permissions, Known;
    if Normalize(granter, requested).Ok? {
      var unknown := Unknown(requested);
      var scopes := Expand(requested) + ScopesIn(unknown);
      forall s | s in scopes ensures s in granter {
        assert s in Missing(granter, scopes) <==> s in scopes && s !in granter;
      }
      ExpandHolds(requested);
      if requested != [] {
        var v := requested[0];
        if Known(v) {
          assert ScopesOf(v) != [] by { KnownGrants(v); }
          assert Grants.Grants(requested, ScopesOf(v)[0]);
          assert ScopesOf(v)[0] in Expand(requested);
        } else {
          assert v in unknown;
          var i :| 0 <= i < |unknown| && unknown[i] == v;
          assert !Meaningless(unknown[i]);
          assert v in ScopesIn(unknown);
        }
      } else {
        NothingExpands();
        assert ScopesIn(unknown) == [];
      }
    }
  }

  lemma NothingExpands()
    ensures Expand([]) == [] && Unknown([]) == []
  {
  }

  lemma KnownGrants(key: string)
    ensures Known(key) ==> ScopesOf(key) != []
  {
    hide Permissions;
    KnownHas(key);
    EveryEntryHasScopes();
  }

  /** A stored row grants no more than its granter holds, but for one family: no
      permissions with the admin role, which reads as the full set. */
  lemma StoredRowWithinGranter(granter: seq<string>, requested: seq<string>, row: Member)
    requires Normalize(granter, requested) == Ok(row.permissions)
    ensures Within(MemberScopes(Synced(row)), granter)
            <==> (requested == [] && row.role == Admin ==> Within(FullSet(), granter))
  {
    hide FullSet, Normalize;
    NormalizeGrants(granter, requested);
  }

  // -------------------------------------------------------------------- invariants

  ghost predicate RowsDistinct(ms: seq<Member>) {
    forall i, j :: 0 <= i < j < |ms| ==> ms[i].id != ms[j].id
  }

  ghost predicate OneRowEach(ms: seq<Member>) {
    forall i, j :: 0 <= i < j < |ms| ==> ms[i].workspace != ms[j].workspace || ms[i].user != ms[j].user
  }

  ghost predicate RolesFollow(ms: seq<Member>) {
    forall i :: 0 <= i < |ms| ==> (ms[i].role == Admin <==> CanAdminister(ms[i]))
  }

  ghost predicate InWorkspaces(ms: seq<Member>, workspaces: set<Id>) {
    forall i :: 0 <= i < |ms| ==> ms[i].workspace in workspaces
  }

  ghost predicate RowsKept(ms: seq<Member>, workspaces: set<Id>) {
    RowsDistinct(ms) && OneRowEach(ms) && RolesFollow(ms) && InWorkspaces(ms, workspaces)
  }

  ghost predicate InvitesGrant(s: State) {
    forall id :: id in s.invites ==> s.invites[id].permissions != [] && s.invites[id].workspace in s.workspaces
  }

  predicate OutsideVault(key: Key) {
    && (forall k :: 0 <= k < |key.scopes| ==> key.scopes[k] !in VAULT_SCOPES)
    && (key.access == NoAccess <==> key.sections == [])
  }

  /** No key holds a scope of the vault, and one that reaches into it reaches sections. */
  ghost predicate KeysOutsideVault(s: State) {
    forall id :: id in s.keys ==> OutsideVault(s.keys[id])
  }

  ghost predicate Inv(s: State) { RowsKept(s.members, s.workspaces) && InvitesGrant(s) && KeysOutsideVault(s) }

  /** What the hooks promise of what they let past, whatever they read. */
  predicate Sound(write: Write) {
    && (write.PutInvite? ==> write.invite.permissions != [])
    && (write.PutKey? ==> OutsideVault(write.key))
  }

  lemma KeyIsSound(granter: seq<string>, s: State, step: Step)
    requires step.KeyStep?
    ensures
      var reach := Reach(s, step.who, step.workspace, Asked(step.requested), step.sections);
      var key := KeyGuard(granter, reach, step.workspace, step.requested);
      key.Ok? ==> OutsideVault(key.value)
  {
    hide Granter, Normalize, Rest, Asked, OwnSection, WantedReach, Repeats;
  }

  lemma InviteIsSound(granter: seq<string>, sent: Invite)
    ensures InviteGuard(granter, sent).Ok? ==> InviteGuard(granter, sent).value.permissions != []
  {
    hide Normalize;
    NormalizeGrants(granter, sent.permissions);
  }

  lemma WantedIsSound(past: History, step: Step)
    ensures Sound(Wanted(past, step))
  {
    hide Granter, AddGuard, UpdateGuard, RemoveGuard, AcceptGuard, InviteGuard, KeyGuard, Reach, Seen, OutsideVault;
    hide Asked, AdminCount, LoadedMember, InviterCanStillInvite, FindMember;
    if step.InviteStep? || step.ReinviteStep? {
      InviteIsSound(Granter(Seen(past, step.granterAt), step.who, step.invite.workspace), step.invite);
    } else if step.KeyStep? {
      KeyIsSound(Granter(Seen(past, step.granterAt), step.who, step.workspace), Seen(past, step.reachAt), step);
    }
  }

  lemma SyncedRoleFollows(m: Member)
    ensures Synced(m).role == Admin <==> CanAdminister(Synced(m))
    ensures CanAdminister(Synced(m)) <==> CanAdminister(m)
    ensures MemberScopes(Synced(m)) == MemberScopes(m)
  {
  }

  lemma SyncedPlace(m: Member)
    ensures Synced(m).id == m.id && Synced(m).workspace == m.workspace && Synced(m).user == m.user
    ensures Synced(m).permissions == m.permissions
  {
  }

  lemma CountSnoc(ms: seq<Member>, m: Member, w: Id)
    ensures Count(ms + [m], w) == Count(ms, w) + if m.workspace == w then 1 else 0
  {
    assert (ms + [m])[..|ms|] == ms;
  }

  lemma {:induction false} CountConcat(a: seq<Member>, b: seq<Member>, w: Id)
    ensures Count(a + b, w) == Count(a, w) + Count(b, w)
  {
    if b == [] {
      assert a + b == a;
    } else {
      CountConcat(a, b[..|b| - 1], w);
      assert a + b == (a + b[..|b| - 1]) + [b[|b| - 1]];
      CountSnoc(a + b[..|b| - 1], b[|b| - 1], w);
    }
  }

  lemma AppendKeeps(ms: seq<Member>, m: Member, workspaces: set<Id>)
    requires RowsKept(ms, workspaces) && m.workspace in workspaces && (m.role == Admin <==> CanAdminister(m))
    requires FindMember(ms, m.workspace, m.user, 0).None? && FindRow(ms, m.id, 0).None?
    ensures RowsKept(ms + [m], workspaces)
  {
    hide CanAdminister, FindMember, FindRow;
  }

  lemma StoreKeeps(s: State, row: Member)
    requires RowsKept(s.members, s.workspaces)
    ensures RowsKept(StoreMember(s, row).0.members, s.workspaces)
  {
    hide CanAdminister, Count, FindMember, FindRow, Synced, RowsKept;
    SyncedRoleFollows(row);
    SyncedPlace(row);
    if StoreMember(s, row).1.Ok? {
      AppendKeeps(s.members, Synced(row), s.workspaces);
    }
  }

  lemma PutKeeps(ms: seq<Member>, k: nat, m: Member, workspaces: set<Id>)
    requires RowsKept(ms, workspaces) && k < |ms| && m.id == ms[k].id && !Duplicates(ms, m)
    requires m.workspace in workspaces && (m.role == Admin <==> CanAdminister(m))
    ensures RowsKept(ms[k := m], workspaces)
  {
    hide CanAdminister;
  }

  lemma ReplaceKeeps(s: State, row: Member)
    requires RowsKept(s.members, s.workspaces)
    ensures RowsKept(ReplaceMember(s, row).0.members, s.workspaces)
  {
    hide CanAdminister, FindRow, Synced, RowsKept;
    SyncedRoleFollows(row);
    SyncedPlace(row);
    var k := FindRow(s.members, row.id, 0);
    if row.workspace in s.workspaces && k.Some? && !Duplicates(s.members, row) {
      PutKeeps(s.members, k.value, Synced(row), s.workspaces);
    }
  }

  lemma DropKeeps(s: State, id: Id)
    requires RowsKept(s.members, s.workspaces)
    ensures RowsKept(DropMember(s, id).members, s.workspaces)
  {
    hide CanAdminister, FindRow;
    var ms, rs := s.members, DropMember(s, id).members;
    var k := FindRow(ms, id, 0);
    if k.Some? {
      assert forall i :: 0 <= i < |rs| ==> rs[i] == ms[if i < k.value then i else i + 1];
    }
  }

  lemma MoreWorkspaces(s: State, t: State)
    requires s.workspaces <= t.workspaces && s.members == t.members && s.invites == t.invites
    ensures RowsKept(s.members, s.workspaces) ==> RowsKept(t.members, t.workspaces)
    ensures InvitesGrant(s) ==> InvitesGrant(t)
  {
  }

  lemma ApplyKeeps(s: State, write: Write)
    requires Inv(s) && Sound(write)
    ensures Inv(Apply(s, write)) && s.workspaces <= Apply(s, write).workspaces
  {
    hide RowsKept, StoreMember, ReplaceMember, DropMember, OutsideVault, FullSet;
    match write
    case Store(row) => StoreKeeps(s, row); StoreTouchesRows(s, row);
    case Replace(row) => ReplaceKeeps(s, row); ReplaceTouchesRows(s, row);
    case Drop(id) => DropKeeps(s, id); DropTouchesRows(s, id);
    case Open(_, _) => MoreWorkspaces(s, Apply(s, write));
    case Found(workspace, row) =>
      if workspace in s.founders {
        var begun := s.(founders := s.founders - {workspace});
        StoreKeeps(begun, FounderRow(workspace, s.founders[workspace], row));
        StoreTouchesRows(begun, FounderRow(workspace, s.founders[workspace], row));
      }
    case _ =>
  }

  lemma StoreTouchesRows(s: State, row: Member)
    ensures StoreMember(s, row).0 == s.(members := StoreMember(s, row).0.members)
  {
    hide Count, FindMember, FindRow, Synced;
  }

  lemma ReplaceTouchesRows(s: State, row: Member)
    ensures ReplaceMember(s, row).0 == s.(members := ReplaceMember(s, row).0.members)
  {
    hide Duplicates, FindRow, Synced;
  }

  lemma DropTouchesRows(s: State, id: Id)
    ensures DropMember(s, id) == s.(members := DropMember(s, id).members)
  {
  }

  /** Every state a history has passed keeps the invariant. */
  ghost predicate Kept(past: History) {
    forall i :: 0 <= i < |past| ==> Inv(past[i].state)
  }

  lemma StepKeeps(past: History, step: Step)
    requires Kept(past)
    ensures Kept(Next(past, step))
  {
    hide Inv, Wanted, Apply, Sound;
    WantedIsSound(past, step);
    ApplyKeeps(Now(past), Wanted(past, step));
  }

  lemma {:induction false} RunKeeps(past: History, steps: seq<Step>)
    requires Kept(past)
    ensures Kept(Run(past, steps))
    decreases |steps|
  {
    hide Kept, Next;
    if steps != [] {
      StepKeeps(past, steps[0]);
      RunKeeps(Next(past, steps[0]), steps[1..]);
    }
  }

  /** Over every interleaving, whatever the requests read: a person has one row in a
      workspace, roles follow permissions, every row and invite is of a workspace that
      exists, an invite grants something, and no key holds a scope of the vault. */
  lemma EveryRunKeeps(steps: seq<Step>)
    ensures Inv(Now(Run([START], steps)))
  {
    hide Inv, Run;
    StartHolds();
    RunKeeps([START], steps);
  }

  lemma StartHolds()
    ensures Inv(START.state)
  {
  }
}
