/** Why a caller is refused: the same declaration, interpreted directly
    (util/access.go). */
module AccessDiagnosis {
  import opened Results
  import opened Filter
  import opened Access

  /** What an error is filed under. */
  datatype Blame = AuthField | ScopesField | WorkspaceColumn | UserColumn | RoleColumn | Membership | Permissions

  datatype Problem =
    | NotAuthenticated | ApiKeyNotPermitted | InvalidScope(want: string) | ActiveWorkspaceMismatch
    | MissingActiveWorkspace | NotRecordOwner | NotWorkspaceAdmin | NotWorkspaceMember
    | MissingPermission(want: string)

  datatype Subject = Subject(caller: Caller, superuser: bool, recordWorkspace: string, recordUser: string,
                             isResponse: bool)

  /** The first membership row of a person in a workspace. */
  function MemberOf(members: seq<Member>, workspace: string, user: string): (r: Option<Member>)
    ensures r.Some? ==> r.value in members && r.value.workspace == workspace && r.value.user == user
    ensures r.Some? <==> MemberIn(members, workspace, user)
  {
    if members == [] then None
    else if members[0].workspace == workspace && members[0].user == user then Some(members[0])
    else
      assert MemberIn(members, workspace, user) <==> MemberIn(members[1..], workspace, user) by {
        if MemberIn(members, workspace, user) {
          var i :| 0 <= i < |members| && members[i].workspace == workspace && members[i].user == user;
          assert members[1..][i - 1] == members[i];
        }
      }
      MemberOf(members[1..], workspace, user)
  }

  function KeyErrors(spec: Spec, subj: Subject): map<Blame, Problem>
    requires subj.caller.ApiKey?
  {
    if spec.kind == UserSelf || spec.scope == "" then map[AuthField := ApiKeyNotPermitted]
    else
      var want := spec.RequiredScope(subj.isResponse);
      (if want in subj.caller.scopes then map[] else map[ScopesField := InvalidScope(want)])
      + (if subj.recordWorkspace != "" && subj.recordWorkspace != subj.caller.workspace
         then map[WorkspaceColumn := ActiveWorkspaceMismatch] else map[])
  }

  function OwnerErrors(subj: Subject): map<Blame, Problem>
    requires subj.caller.User?
  {
    if subj.recordUser != "" && subj.recordUser != subj.caller.id then map[UserColumn := NotRecordOwner] else map[]
  }

  function ContextErrors(spec: Spec, subj: Subject): map<Blame, Problem>
    requires subj.caller.User?
  {
    if spec.kind == WorkspaceAdmin then map[]
    else if subj.caller.activeWorkspace == "" then map[WorkspaceColumn := MissingActiveWorkspace]
    else if subj.recordWorkspace != "" && subj.recordWorkspace != subj.caller.activeWorkspace then
      map[WorkspaceColumn := ActiveWorkspaceMismatch]
    else map[]
  }

  function GrantErrors(spec: Spec, member: Member, subj: Subject): map<Blame, Problem>
    requires subj.caller.User?
  {
    var legacy := member.permissions == [];
    match spec.kind
    case WorkspaceAdmin =>
      if legacy then (if member.role == "admin" then map[] else map[RoleColumn := NotWorkspaceAdmin])
      else if spec.scope in member.permissions then map[]
      else map[Permissions := MissingPermission(spec.scope)]
    case WorkspaceMember => map[]
    case _ =>
      var want := spec.RequiredScope(subj.isResponse);
      if (subj.recordUser != "" && subj.recordUser == subj.caller.id) || legacy || want in member.permissions then map[]
      else map[Permissions := MissingPermission(want)]
  }

  function UserErrors(spec: Spec, members: seq<Member>, subj: Subject): map<Blame, Problem>
    requires subj.caller.User?
  {
    if spec.kind == UserSelf then OwnerErrors(subj)
    else
      var context := ContextErrors(spec, subj);
      if spec.kind == WorkspaceAdminSelf then
        context + (if subj.caller.activeRole != "admin" then map[RoleColumn := NotWorkspaceAdmin] else map[])
        + OwnerErrors(subj)
      else
        var target := if subj.recordWorkspace == "" then subj.caller.activeWorkspace else subj.recordWorkspace;
        if target == "" then context
        else
          var member := MemberOf(members, target, subj.caller.id);
          if member.None? then context + map[Membership := NotWorkspaceMember]
          else context + GrantErrors(spec, member.value, subj)
  }

  function Errors(spec: Spec, members: seq<Member>, subj: Subject): map<Blame, Problem> {
    if subj.superuser then map[]
    else match subj.caller
      case Nobody => map[AuthField := NotAuthenticated]
      case ApiKey(_, _, _) => KeyErrors(spec, subj)
      case User(_, _, _) => UserErrors(spec, members, subj)
  }

  /** The errors of one diagnosis, written as the checks find them. */
  class Diagnosis {
    var errs: map<Blame, Problem>

    constructor (spec: Spec, members: seq<Member>, subj: Subject)
      ensures errs == Errors(spec, members, subj)
    {
      errs := map[];
      new;
      if subj.superuser {
        return;
      }
      match subj.caller {
        case Nobody => errs := errs[AuthField := NotAuthenticated];
        case ApiKey(_, _, _) => DiagnoseApiKey(spec, subj);
        case User(_, _, _) => DiagnoseUser(spec, members, subj);
      }
    }

    method DiagnoseApiKey(spec: Spec, subj: Subject)
      requires subj.caller.ApiKey? && errs == map[]
      modifies this
      ensures errs == KeyErrors(spec, subj)
    {
      if spec.kind == UserSelf || spec.scope == "" {
        errs := errs[AuthField := ApiKeyNotPermitted];
        return;
      }
      var want := spec.RequiredScope(subj.isResponse);
      if want !in subj.caller.scopes {
        errs := errs[ScopesField := InvalidScope(want)];
      }
      if subj.recordWorkspace != "" && subj.recordWorkspace != subj.caller.workspace {
        errs := errs[WorkspaceColumn := ActiveWorkspaceMismatch];
      }
    }

    method DiagnoseUser(spec: Spec, members: seq<Member>, subj: Subject)
      requires subj.caller.User? && errs == map[]
      modifies this
      ensures errs == UserErrors(spec, members, subj)
    {
      hide MemberOf, GrantErrors;
      var active := subj.caller.activeWorkspace;
      if spec.kind == UserSelf {
        if subj.recordUser != "" && subj.recordUser != subj.caller.id {
          errs := errs[UserColumn := NotRecordOwner];
        }
        return;
      }
      var target := subj.recordWorkspace;
      if target == "" {
        target := active;
      }
      if spec.kind in {WorkspaceMember, WorkspaceSelf, WorkspaceSplitOrigin, WorkspaceAdminSelf} {
        if active == "" {
          errs := errs[WorkspaceColumn := MissingActiveWorkspace];
        } else if subj.recordWorkspace != "" && subj.recordWorkspace != active {
          errs := errs[WorkspaceColumn := ActiveWorkspaceMismatch];
        }
      }
      assert errs == ContextErrors(spec, subj);
      if spec.kind == WorkspaceAdminSelf {
        if subj.caller.activeRole != "admin" {
          errs := errs[RoleColumn := NotWorkspaceAdmin];
        }
        if subj.recordUser != "" && subj.recordUser != subj.caller.id {
          errs := errs[UserColumn := NotRecordOwner];
        }
        return;
      }
      if target == "" {
        return;
      }
      var member := MemberOf(members, target, subj.caller.id);
      if member.None? {
        errs := errs[Membership := NotWorkspaceMember];
        return;
      }
      DiagnoseGrant(spec, member.value, subj);
    }

    method DiagnoseGrant(spec: Spec, member: Member, subj: Subject)
      requires subj.caller.User? && spec.kind !in {UserSelf, WorkspaceAdminSelf}
      modifies this
      ensures errs == old(errs) + GrantErrors(spec, member, subj)
    {
      var permissions := member.permissions;
      var legacy := |permissions| == 0;
      match spec.kind {
        case WorkspaceAdmin =>
          if legacy {
            if member.role != "admin" {
              errs := errs[RoleColumn := NotWorkspaceAdmin];
            }
          } else if spec.scope !in permissions {
            errs := errs[Permissions := MissingPermission(spec.scope)];
          }
        case WorkspaceSelf | WorkspaceSplitOrigin =>
          var owned := subj.recordUser != "" && subj.recordUser == subj.caller.id;
          if owned || legacy {
            return;
          }
          var want := spec.RequiredScope(subj.isResponse);
          if want !in permissions {
            errs := errs[Permissions := MissingPermission(want)];
          }
        case _ =>
      }
    }
  }
}
