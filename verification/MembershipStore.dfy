/** The hooks and the saves as they run: a hook reads and lets past, a save writes
    (cmd/revoked/hooks/workspaceMembers.go, invites.go, apiKeys.go,
    cmd/revoked/routes/publicInvites.go). */
module MembershipStore {
  import opened Results
  import opened Catalogue
  import opened Grants
  import opened Surfaces
  import opened KeyReach
  import opened Membership

  class Store {
    var workspaces: set<Id>
    var members: seq<Member>
    var invites: map<Id, Invite>
    var keys: map<Id, Key>
    var sections: map<Id, Section>
    var founders: map<Id, Id>

    constructor (s: State)
      ensures Value() == s
    {
      workspaces, members, invites, keys := s.workspaces, s.members, s.invites, s.keys;
      sections, founders := s.sections, s.founders;
    }

    function Value(): State
      reads this
    {
      State(workspaces, members, invites, keys, sections, founders)
    }

    method WorkspaceMemberOf(workspace: Id, user: Id) returns (k: Option<nat>)
      ensures k == FindMember(members, workspace, user, 0)
    {
      for i := 0 to |members|
        invariant FindMember(members, workspace, user, 0) == FindMember(members, workspace, user, i)
      {
        if members[i].workspace == workspace && members[i].user == user {
          return Some(i);
        }
      }
      return None;
    }

    method FindById(id: Id) returns (k: Option<nat>)
      ensures k == FindRow(members, id, 0)
    {
      for i := 0 to |members|
        invariant FindRow(members, id, 0) == FindRow(members, id, i)
      {
        if members[i].id == id {
          return Some(i);
        }
      }
      return None;
    }

    method GranterScopes(who: Principal, workspace: Id) returns (scopes: seq<string>)
      ensures scopes == Granter(Value(), who, workspace)
    {
      hide MemberScopes, FindMember;
      match who {
        case ApiKey(id) =>
          if id !in keys || keys[id].workspace != workspace {
            return [];
          }
          return keys[id].scopes;
        case Person(id) =>
          var k := WorkspaceMemberOf(workspace, id);
          if k.None? {
            return [];
          }
          return MemberScopes(members[k.value]);
      }
    }

    method NormalizePermissionGrant(who: Principal, workspace: Id, requested: seq<string>)
      returns (grant: Outcome<seq<string>>)
      ensures grant == Normalize(Granter(Value(), who, workspace), requested)
    {
      hide Expand, Unknown, ScopesIn, Missing, Granter, Meaningless, SomeMeaningless, AllScopes, Permissions, Known;
      var scopes, unknown := ExpandPermissions(requested);
      if |unknown| > 0 {
        var known := KnownScopes(unknown);
        scopes := scopes + known;
        var rejected := UnknownScopes(unknown);
        if |rejected| > 0 {
          assert SomeMeaningless(unknown) by { RejectedIsMeaningless(rejected, unknown); }
          return Refused(UnknownPermission);
        }
        assert !SomeMeaningless(unknown) by { NothingRejected(rejected, unknown); }
      } else {
        NoScopesInNothing();
        assert unknown == [] && scopes + [] == scopes;
      }
      var granter := GranterScopes(who, workspace);
      var missing := MissingScopes(granter, scopes);
      if |missing| > 0 {
        return Refused(PermissionEscalation);
      }
      return Ok(scopes);
    }

    static lemma RejectedIsMeaningless(rejected: seq<string>, unknown: seq<string>)
      requires rejected != [] && forall s :: s in rejected <==> s in unknown && Meaningless(s)
      ensures SomeMeaningless(unknown)
    {
      hide Meaningless;
      assert rejected[0] in rejected;
    }

    static lemma NothingRejected(rejected: seq<string>, unknown: seq<string>)
      requires rejected == [] && forall s :: s in rejected <==> s in unknown && Meaningless(s)
      ensures !SomeMeaningless(unknown)
    {
      hide Meaningless;
      assert forall i :: 0 <= i < |unknown| ==> unknown[i] in unknown;
    }

    static lemma NoScopesInNothing()
      ensures ScopesIn([]) == [] && !SomeMeaningless([])
    {
    }

    method WorkspaceAdminCount(workspace: Id, excluding: Id) returns (count: nat)
      ensures count == AdminCount(members, workspace, excluding)
    {
      hide CanAdminister;
      count := 0;
      for i := 0 to |members|
        invariant count == AdminCount(members[..i], workspace, excluding)
      {
        assert members[..i + 1][..i] == members[..i];
        if members[i].workspace == workspace && members[i].id != excluding && CanAdminister(members[i]) {
          count := count + 1;
        }
      }
      assert members[..|members|] == members;
    }

    method CountMembers(workspace: Id) returns (count: nat)
      ensures count == Count(members, workspace)
    {
      count := 0;
      for i := 0 to |members|
        invariant count == Count(members[..i], workspace)
      {
        assert members[..i + 1][..i] == members[..i];
        if members[i].workspace == workspace {
          count := count + 1;
        }
      }
      assert members[..|members|] == members;
    }

    /** The hooks of a row's own creation. */
    method SaveMember(row: Member) returns (r: Outcome<()>)
      modifies this
      ensures (Value(), r) == StoreMember(old(Value()), row)
    {
      hide FindMember, FindRow, Count, Synced;
      var existing := WorkspaceMemberOf(row.workspace, row.user);
      if existing.Some? {
        return Refused(DuplicateMember);
      }
      var count := CountMembers(row.workspace);
      if count >= MEMBER_LIMIT {
        return Refused(MemberLimit);
      }
      var taken := FindById(row.id);
      if row.workspace !in workspaces {
        return Refused(NotFound);
      }
      if taken.Some? {
        return Refused(IdTaken);
      }
      var synced := SyncRole(row);
      members := members + [synced];
      return Ok(());
    }

    method SyncRole(row: Member) returns (synced: Member)
      ensures synced == Synced(row)
    {
      if CanAdminister(row) {
        return row.(role := Admin);
      }
      return row.(role := Plain);
    }

    method IsDuplicate(row: Member) returns (duplicate: bool)
      ensures duplicate == Duplicates(members, row)
    {
      for i := 0 to |members|
        invariant forall j :: 0 <= j < i ==>
                    members[j].workspace != row.workspace || members[j].user != row.user || members[j].id == row.id
      {
        if members[i].workspace == row.workspace && members[i].user == row.user && members[i].id != row.id {
          return true;
        }
      }
      return false;
    }

    method SaveOver(row: Member) returns (r: Outcome<()>)
      modifies this
      ensures (Value(), r) == ReplaceMember(old(Value()), row)
    {
      hide FindRow, Duplicates, Synced;
      if row.workspace !in workspaces {
        return Refused(NotFound);
      }
      var k := FindById(row.id);
      if k.None? {
        return Ok(());
      }
      var duplicate := IsDuplicate(row);
      if duplicate {
        return Refused(DuplicateMember);
      }
      var synced := SyncRole(row);
      members := members[k.value := synced];
      return Ok(());
    }

    method Delete(id: Id)
      modifies this
      ensures Value() == DropMember(old(Value()), id)
    {
      hide FindRow;
      var k := FindById(id);
      if k.Some? {
        members := members[..k.value] + members[k.value + 1..];
      }
    }

    method OnCreateRequest(who: Principal, sent: Member) returns (r: Outcome<Member>)
      ensures r == AddGuard(Granter(Value(), who, sent.workspace), sent)
    {
      hide Normalize, Granter;
      var grant := NormalizePermissionGrant(who, sent.workspace, sent.permissions);
      if grant.Refused? {
        return Refused(grant.why);
      }
      return Ok(sent.(permissions := grant.value));
    }

    method OnUpdateRequest(who: Principal, sent: Member) returns (r: Outcome<Member>)
      ensures
        var others := AdminCount(members, sent.workspace, sent.id);
        r == UpdateGuard(Granter(Value(), who, sent.workspace), others, sent)
    {
      hide Normalize, Granter, AdminCount, CanAdminister;
      var grant := NormalizePermissionGrant(who, sent.workspace, sent.permissions);
      if grant.Refused? {
        return Refused(grant.why);
      }
      var row := sent.(permissions := grant.value);
      var others := WorkspaceAdminCount(row.workspace, row.id);
      if !CanAdminister(row) && others == 0 {
        return Refused(LastAdminProtected);
      }
      return Ok(row);
    }

    method OnDeleteRequest(loaded: Member) returns (r: Outcome<()>)
      ensures r == RemoveGuard(AdminCount(members, loaded.workspace, loaded.id), loaded)
    {
      hide AdminCount, CanAdminister;
      var others := WorkspaceAdminCount(loaded.workspace, loaded.id);
      if CanAdminister(loaded) && others == 0 {
        return Refused(LastAdminProtected);
      }
      return Ok(());
    }

    method BindInviteGrant(who: Principal, sent: Invite) returns (r: Outcome<Invite>)
      ensures r == InviteGuard(Granter(Value(), who, sent.workspace), sent)
    {
      hide Normalize, Granter;
      if |sent.permissions| == 0 {
        return Refused(GrantRequired);
      }
      var grant := NormalizePermissionGrant(who, sent.workspace, sent.permissions);
      if grant.Refused? {
        return Refused(grant.why);
      }
      return Ok(sent.(permissions := grant.value));
    }

    method SaveInvite(id: Id, invite: Invite, isNew: bool) returns (r: Outcome<()>)
      modifies this
      ensures isNew ==> (Value(), r) == StoreInvite(old(Value()), id, invite)
      ensures !isNew ==> (Value(), r) == ReplaceInvite(old(Value()), id, invite)
    {
      if isNew && id in invites {
        return Refused(IdTaken);
      }
      if invite.workspace !in workspaces {
        return Refused(NotFound);
      }
      if isNew || id in invites {
        invites := invites[id := invite];
      }
      return Ok(());
    }

    method InviteGrantedScopes(invite: Invite) returns (out: seq<string>)
      ensures out == Merge([], invite.permissions)
    {
      out := [];
      for i := 0 to |invite.permissions|
        invariant out == Merge([], invite.permissions[..i])
      {
        assert invite.permissions[..i + 1][..i] == invite.permissions[..i];
        if invite.permissions[i] !in out {
          out := out + [invite.permissions[i]];
        }
      }
      assert invite.permissions[..|invite.permissions|] == invite.permissions;
    }

    /** What the route checks of an invite it found, before it saves the membership. */
    method AcceptInvite(invite: Invite, user: Id, row: Id, spendable: bool) returns (r: Outcome<Member>)
      ensures
        var already := FindMember(members, invite.workspace, user, 0).Some?;
        r == AcceptGuard(already, InviterCanStillInvite(Value(), invite), spendable, invite, user, row)
    {
      hide FindMember, CanAdminister, Merge;
      var already := WorkspaceMemberOf(invite.workspace, user);
      if already.Some? {
        return Refused(AlreadyMember);
      }
      if invite.invitedBy.Some? {
        var inviter := WorkspaceMemberOf(invite.workspace, invite.invitedBy.value);
        if inviter.None? || !CanAdminister(members[inviter.value]) {
          return Refused(InviterLostAccess);
        }
      }
      if !spendable {
        return Refused(InviteSpent);
      }
      var permissions := InviteGrantedScopes(invite);
      return Ok(Member(row, invite.workspace, user, invite.role, permissions));
    }

    method ApplyKeyReach(who: Principal, workspace: Id, access: Access, wanted: seq<Id>) returns (r: Outcome<seq<Id>>)
      ensures r == Reach(Value(), who, workspace, access, wanted)
    {
      hide Granter;
      if access == NoAccess {
        return Ok([]);
      }
      if |wanted| == 0 {
        return Refused(KeyVaultScope);
      }
      if !who.Person? {
        return Refused(PermissionEscalation);
      }
      var want := ["record:read"];
      if access == WriteAccess {
        want := want + ["record:create", "record:update", "record:delete"];
      }
      assert want == WantedReach(access);
      var granter := GranterScopes(who, workspace);
      var all := HasAllScopes(granter, want);
      if !all {
        assert exists i :: 0 <= i < |want| && want[i] !in granter;
        return Refused(PermissionEscalation);
      }
      for i := 0 to |wanted|
        invariant forall j :: 0 <= j < i ==> OwnSection(Value(), wanted[j], workspace, who.id)
      {
        if !OwnSection(Value(), wanted[i], workspace, who.id) {
          return Refused(SectionInvalid);
        }
      }
      return Ok(wanted);
    }

    method OnCreateKeyRequest(who: Principal, workspace: Id, requested: seq<string>, wanted: seq<Id>)
      returns (r: Outcome<Key>)
      ensures
        var reach := Reach(Value(), who, workspace, Asked(requested), wanted);
        r == KeyGuard(Granter(Value(), who, workspace), reach, workspace, requested)
    {
      hide Normalize, Granter, Reach, Rest, Asked;
      var seen: set<string> := {};
      for i := 0 to |requested|
        invariant forall x :: x in seen <==> x in requested[..i]
        invariant forall j, k :: 0 <= j < k < i ==> requested[j] != requested[k]
      {
        if requested[i] in seen {
          return Refused(DuplicateValues);
        }
        seen := seen + {requested[i]};
      }
      var rest, access := SplitVaultPermissions(requested);
      var reach := ApplyKeyReach(who, workspace, access, wanted);
      if reach.Refused? {
        return Refused(reach.why);
      }
      var grant := NormalizePermissionGrant(who, workspace, rest);
      if grant.Refused? {
        return Refused(grant.why);
      }
      var vault := MembersOnlyScopes(grant.value);
      if |vault| > 0 {
        assert vault[0] in grant.value && vault[0] in VAULT_SCOPES;
        return Refused(KeyVaultScope);
      }
      assert forall i :: 0 <= i < |grant.value| ==> grant.value[i] in VAULT_SCOPES ==> grant.value[i] in vault;
      return Ok(Key(workspace, grant.value, access, reach.value));
    }

    method SaveKey(id: Id, key: Key) returns (r: Outcome<()>)
      modifies this
      ensures (Value(), r) == StoreKey(old(Value()), id, key)
    {
      if key.workspace !in workspaces {
        return Refused(NotFound);
      }
      if id in keys {
        return Refused(IdTaken);
      }
      keys := keys[id := key];
      return Ok(());
    }

    method AllPermissionKeys() returns (all: seq<string>)
      ensures all == AllKeysUpTo(|Permissions()|)
    {
      hide Permissions;
      all := [];
      for k := 0 to |Permissions()|
        invariant all == AllKeysUpTo(k)
      {
        all := all + [Permissions()[k].key];
      }
    }

    method SaveWorkspace(workspace: Id, user: Id) returns (r: Outcome<()>)
      modifies this
      ensures (Value(), r) == OpenWorkspace(old(Value()), workspace, user)
    {
      if workspace in workspaces {
        return Refused(IdTaken);
      }
      workspaces := workspaces + {workspace};
      founders := founders[workspace := user];
      return Ok(());
    }

    method SaveFounder(workspace: Id, row: Id) returns (r: Outcome<()>)
      modifies this
      ensures (Value(), r) == FoundWorkspace(old(Value()), workspace, row)
    {
      hide StoreMember, Expand, Permissions, AllKeysUpTo;
      if workspace !in founders {
        return Refused(NotFound);
      }
      var all := AllPermissionKeys();
      var ownerScopes, unknown := ExpandPermissions(all);
      var user := founders[workspace];
      founders := founders - {workspace};
      r := SaveMember(Member(row, workspace, user, Admin, ownerScopes));
    }
  }
}
