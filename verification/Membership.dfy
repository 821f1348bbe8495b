/** Who holds what in a workspace, and who may hand it on: members, invites and keys
    (cmd/revoked/hooks/workspaceMembers.go, invites.go, apiKeys.go, workspaces.go,
    cmd/revoked/services/invites.go).

    A request's hooks run outside the transaction of its save. A guard is therefore a
    function of what its hook read, and a save of the state it commits to. */
module Membership {
  import opened Results
  import opened Catalogue
  import opened Grants
  import opened Surfaces
  import opened KeyReach

  datatype Id = Id(text: string)

  datatype Role = Admin | Plain

  datatype Member = Member(id: Id, workspace: Id, user: Id, role: Role, permissions: seq<string>)

  datatype Invite = Invite(workspace: Id, permissions: seq<string>, role: Role, invitedBy: Option<Id>)

  datatype Key = Key(workspace: Id, scopes: seq<string>, access: Access, sections: seq<Id>)

  datatype Section = Section(workspace: Id, user: Id, collected: bool)

  datatype Principal = Person(id: Id) | ApiKey(id: Id)

  datatype Refusal =
    | NotFound | IdTaken | UnknownPermission | PermissionEscalation | DuplicateMember | MemberLimit
    | LastAdminProtected | GrantRequired | AlreadyMember | InviterLostAccess | InviteSpent
    | KeyVaultScope | SectionInvalid | DuplicateValues

  type Outcome<+T> = Result<T, Refusal>

  /** A workspace whose creator has no row yet has them as its founder. */
  datatype State = State(workspaces: set<Id>, members: seq<Member>, invites: map<Id, Invite>, keys: map<Id, Key>,
                         sections: map<Id, Section>, founders: map<Id, Id>)

  const MEMBER_LIMIT: nat := 50

  const INVITE_SCOPE := "workspaceMembers:create"

  // -------------------------------------------------------------- rows and scopes

  function AllKeysUpTo(k: nat): seq<string>
    requires k <= |Permissions()|
  {
    if k == 0 then [] else AllKeysUpTo(k - 1) + [Permissions()[k - 1].key]
  }

  /** What a workspace's creator holds: every permission, expanded. */
  function FullSet(): seq<string> { Expand(AllKeysUpTo(|Permissions()|)) }

  /** A row without permissions predates them: the role stands for the full set. */
  function MemberScopes(m: Member): seq<string> {
    if m.role == Admin && m.permissions == [] then FullSet() else m.permissions
  }

  predicate CanAdminister(m: Member) {
    INVITE_SCOPE in m.permissions || (m.role == Admin && m.permissions == [])
  }

  function Synced(m: Member): Member { m.(role := if CanAdminister(m) then Admin else Plain) }

  /** The first row of a person in a workspace, from k on. */
  function FindMember(ms: seq<Member>, workspace: Id, user: Id, k: nat): (r: Option<nat>)
    requires k <= |ms|
    ensures r.Some? ==> k <= r.value < |ms| && ms[r.value].workspace == workspace && ms[r.value].user == user
    ensures r.None? ==> forall i :: k <= i < |ms| ==> !(ms[i].workspace == workspace && ms[i].user == user)
    decreases |ms| - k
  {
    if k == |ms| then None
    else if ms[k].workspace == workspace && ms[k].user == user then Some(k)
    else FindMember(ms, workspace, user, k + 1)
  }

  function FindRow(ms: seq<Member>, id: Id, k: nat): (r: Option<nat>)
    requires k <= |ms|
    ensures r.Some? ==> k <= r.value < |ms| && ms[r.value].id == id
    ensures r.None? ==> forall i :: k <= i < |ms| ==> ms[i].id != id
    decreases |ms| - k
  {
    if k == |ms| then None else if ms[k].id == id then Some(k) else FindRow(ms, id, k + 1)
  }

  predicate Administers(m: Member, workspace: Id, except: Id) {
    m.workspace == workspace && m.id != except && CanAdminister(m)
  }

  function AdminCount(ms: seq<Member>, workspace: Id, except: Id): (n: nat)
    ensures n > 0 <==> exists i :: 0 <= i < |ms| && Administers(ms[i], workspace, except)
  {
    if ms == [] then 0
    else
      var init, last := ms[..|ms| - 1], ms[|ms| - 1];
      assert forall i :: 0 <= i < |init| ==> init[i] == ms[i];
      AdminCount(init, workspace, except) + if Administers(last, workspace, except) then 1 else 0
  }

  function Count(ms: seq<Member>, workspace: Id): nat {
    if ms == [] then 0
    else Count(ms[..|ms| - 1], workspace) + if ms[|ms| - 1].workspace == workspace then 1 else 0
  }

  // --------------------------------------------------------------------- granting

  function Granter(s: State, who: Principal, workspace: Id): seq<string> {
    match who
    case ApiKey(id) => if id in s.keys && s.keys[id].workspace == workspace then s.keys[id].scopes else []
    case Person(id) =>
      var row := FindMember(s.members, workspace, id, 0);
      if row.None? then [] else MemberScopes(s.members[row.value])
  }

  predicate SomeMeaningless(values: seq<string>) {
    exists i :: 0 <= i < |values| && Meaningless(values[i])
  }

  function Normalize(granter: seq<string>, requested: seq<string>): Outcome<seq<string>> {
    var unknown := Unknown(requested);
    var scopes := Expand(requested) + ScopesIn(unknown);
    if SomeMeaningless(unknown) then Refused(UnknownPermission)
    else if Missing(granter, scopes) != [] then Refused(PermissionEscalation)
    else Ok(scopes)
  }

  // -------------------------------------------------------- what the hooks let past

  function AddGuard(granter: seq<string>, sent: Member): Outcome<Member> {
    var grant := Normalize(granter, sent.permissions);
    if grant.Refused? then Refused(grant.why) else Ok(sent.(permissions := grant.value))
  }

  /** Others is how many other rows of the workspace were read to administer it. */
  function UpdateGuard(granter: seq<string>, others: nat, sent: Member): Outcome<Member> {
    var grant := Normalize(granter, sent.permissions);
    if grant.Refused? then Refused(grant.why)
    else
      var row := sent.(permissions := grant.value);
      if !CanAdminister(row) && others == 0 then Refused(LastAdminProtected) else Ok(row)
  }

  function RemoveGuard(others: nat, loaded: Member): Outcome<()> {
    if CanAdminister(loaded) && others == 0 then Refused(LastAdminProtected) else Ok(())
  }

  function InviteGuard(granter: seq<string>, sent: Invite): Outcome<Invite> {
    if sent.permissions == [] then Refused(GrantRequired)
    else
      var grant := Normalize(granter, sent.permissions);
      if grant.Refused? then Refused(grant.why) else Ok(sent.(permissions := grant.value))
  }

  /** Only a person's own id can stand as the inviter of what they create. */
  function Signed(who: Principal, sent: Invite): Invite {
    if who.Person? then sent.(invitedBy := Some(who.id)) else sent
  }

  predicate InviterCanStillInvite(s: State, invite: Invite) {
    invite.invitedBy.None?
    || (var row := FindMember(s.members, invite.workspace, invite.invitedBy.value, 0);
        row.Some? && CanAdminister(s.members[row.value]))
  }

  /** Accepting an invite; spendable says whether it is live and has a use left. */
  function AcceptGuard(already: bool, inviting: bool, spendable: bool, invite: Invite, user: Id, row: Id)
    : Outcome<Member>
  {
    if already then Refused(AlreadyMember)
    else if !inviting then Refused(InviterLostAccess)
    else if !spendable then Refused(InviteSpent)
    else Ok(Member(row, invite.workspace, user, invite.role, Merge([], invite.permissions)))
  }

  function WantedReach(access: Access): seq<string> {
    if access == WriteAccess then ["record:read", "record:create", "record:update", "record:delete"]
    else ["record:read"]
  }

  predicate OwnSection(s: State, section: Id, workspace: Id, user: Id) {
    && section in s.sections
    && s.sections[section].workspace == workspace && s.sections[section].user == user && !s.sections[section].collected
  }

  function Reach(s: State, who: Principal, workspace: Id, access: Access, sections: seq<Id>): Outcome<seq<Id>> {
    if access == NoAccess then Ok([])
    else if sections == [] then Refused(KeyVaultScope)
    else if !who.Person? then Refused(PermissionEscalation)
    else if exists i :: 0 <= i < |WantedReach(access)| && WantedReach(access)[i] !in Granter(s, who, workspace) then
      Refused(PermissionEscalation)
    else if exists i :: 0 <= i < |sections| && !OwnSection(s, sections[i], workspace, who.id) then
      Refused(SectionInvalid)
    else Ok(sections)
  }

  predicate Repeats(xs: seq<string>) {
    exists i, j :: 0 <= i < j < |xs| && xs[i] == xs[j]
  }

  function KeyGuard(granter: seq<string>, reach: Outcome<seq<Id>>, workspace: Id, requested: seq<string>)
    : Outcome<Key>
  {
    if Repeats(requested) then Refused(DuplicateValues)
    else if reach.Refused? then Refused(reach.why)
    else
      var grant := Normalize(granter, Rest(requested));
      if grant.Refused? then Refused(grant.why)
      else if exists i :: 0 <= i < |grant.value| && grant.value[i] in VAULT_SCOPES then Refused(KeyVaultScope)
      else Ok(Key(workspace, grant.value, Asked(requested), reach.value))
  }

  // ---------------------------------------------------------------------- the saves

  /** Saving a new row: the role follows the permissions, one row a person, and no
      more rows than the limit. */
  function StoreMember(s: State, row: Member): (State, Outcome<()>) {
    if FindMember(s.members, row.workspace, row.user, 0).Some? then (s, Refused(DuplicateMember))
    else if Count(s.members, row.workspace) >= MEMBER_LIMIT then (s, Refused(MemberLimit))
    else if row.workspace !in s.workspaces then (s, Refused(NotFound))
    else if FindRow(s.members, row.id, 0).Some? then (s, Refused(IdTaken))
    else (s.(members := s.members + [Synced(row)]), Ok(()))
  }

  /** The index of workspace and user refuses a save beside another row of the person. */
  predicate Duplicates(ms: seq<Member>, row: Member) {
    exists i :: 0 <= i < |ms| && ms[i].workspace == row.workspace && ms[i].user == row.user && ms[i].id != row.id
  }

  /** Saving over the row of that id writes every column, or none where it is gone. */
  function ReplaceMember(s: State, row: Member): (State, Outcome<()>) {
    var k := FindRow(s.members, row.id, 0);
    if row.workspace !in s.workspaces then (s, Refused(NotFound))
    else if k.None? then (s, Ok(()))
    else if Duplicates(s.members, row) then (s, Refused(DuplicateMember))
    else (s.(members := s.members[k.value := Synced(row)]), Ok(()))
  }

  function DropMember(s: State, id: Id): State {
    var k := FindRow(s.members, id, 0);
    if k.None? then s else s.(members := s.members[..k.value] + s.members[k.value + 1..])
  }

  function StoreInvite(s: State, id: Id, invite: Invite): (State, Outcome<()>) {
    if id in s.invites then (s, Refused(IdTaken))
    else if invite.workspace !in s.workspaces then (s, Refused(NotFound))
    else (s.(invites := s.invites[id := invite]), Ok(()))
  }

  function ReplaceInvite(s: State, id: Id, invite: Invite): (State, Outcome<()>) {
    if invite.workspace !in s.workspaces then (s, Refused(NotFound))
    else if id !in s.invites then (s, Ok(()))
    else (s.(invites := s.invites[id := invite]), Ok(()))
  }

  function StoreKey(s: State, id: Id, key: Key): (State, Outcome<()>) {
    if key.workspace !in s.workspaces then (s, Refused(NotFound))
    else if id in s.keys then (s, Refused(IdTaken))
    else (s.(keys := s.keys[id := key]), Ok(()))
  }

  function OpenWorkspace(s: State, workspace: Id, user: Id): (State, Outcome<()>) {
    if workspace in s.workspaces then (s, Refused(IdTaken))
    else (s.(workspaces := s.workspaces + {workspace}, founders := s.founders[workspace := user]), Ok(()))
  }

  function FounderRow(workspace: Id, user: Id, row: Id): Member { Member(row, workspace, user, Admin, FullSet()) }

  /** The second save of a workspace's creation: its creator's row with the full set. */
  function FoundWorkspace(s: State, workspace: Id, row: Id): (State, Outcome<()>) {
    if workspace !in s.founders then (s, Refused(NotFound))
    else StoreMember(s.(founders := s.founders - {workspace}), FounderRow(workspace, s.founders[workspace], row))
  }
}
