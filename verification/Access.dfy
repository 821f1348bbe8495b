/** Access specs: one declaration, rendered as a rule the database evaluates and
    interpreted again to explain a refusal (util/access.go). */
module Access {
  import opened Results
  import opened Filter
  import opened Rules
  import opened ScopeList

  datatype Kind =
    UserSelf | WorkspaceMember | WorkspaceSelf | WorkspaceAdmin | WorkspaceAdminSelf | WorkspaceSplitOrigin

  datatype Spec = Spec(kind: Kind, scope: string, workspaceField: string, extra: string, responseScope: string) {
    function Field(): string {
      if workspaceField == "" then "workspace" else workspaceField
    }

    function BaseRule(): string {
      match kind
      case UserSelf => UserSelfOnly()
      case WorkspaceMember => WorkspaceAnyMember(scope)
      case WorkspaceSelf => WorkspaceSelfOnly(scope)
      case WorkspaceAdmin => WorkspaceAnyAdmin(scope, Field())
      case WorkspaceAdminSelf => WorkspaceAdminSelfOnly(scope, Field())
      case WorkspaceSplitOrigin => Rules.WorkspaceSplitOrigin(scope, responseScope)
    }

    function Rule(): string {
      if extra != "" then "(" + BaseRule() + ") && " + extra else BaseRule()
    }

    function RequiredScope(isResponse: bool): string {
      if kind == WorkspaceSplitOrigin && isResponse then responseScope else scope
    }
  }

  // ----------------------------------------------------------- what a rule is asked

  datatype Caller =
    | Nobody
    | User(id: string, activeWorkspace: string, activeRole: string)
    | ApiKey(id: string, workspace: string, scopes: seq<string>)

  datatype Member = Member(workspace: string, user: string, role: string, permissions: seq<string>)

  /** The columns of the record a rule is evaluated on, and of the request's body. */
  type Columns = string -> string

  const NAMES: set<string> := {
    "@request.auth.collectionName", "@request.auth.id", "@request.auth.activeWorkspace",
    "@request.auth.activeRole", "@request.auth.workspace.id", "@request.auth.scopes",
    "@collection.workspaceMembers.workspace", "@collection.workspaceMembers.user"}

  function AuthValue(w: string, caller: Caller): Option<string> {
    if w == "@request.auth.collectionName" then
      if caller.User? then Some("users") else if caller.ApiKey? then Some("apiKeys") else None
    else if w == "@request.auth.id" then if caller.Nobody? then None else Some(caller.id)
    else if w == "@request.auth.activeWorkspace" then if caller.User? then Some(caller.activeWorkspace) else None
    else if w == "@request.auth.activeRole" then if caller.User? then Some(caller.activeRole) else None
    else if w == "@request.auth.workspace.id" then if caller.ApiKey? then Some(caller.workspace) else None
    else if caller.ApiKey? then Some(Stored(caller.scopes)) else None
  }

  function Value(w: string, caller: Caller, column: Columns, m: Option<Member>): Option<string> {
    if |w| >= 2 && w[0] == '\'' then Some(w[1..|w| - 1])
    else if w == "@collection.workspaceMembers.workspace" then if m.Some? then Some(m.value.workspace) else None
    else if w == "@collection.workspaceMembers.user" then if m.Some? then Some(m.value.user) else None
    else if w in NAMES then AuthValue(w, caller)
    else Some(column(w))
  }

  predicate Holds(caller: Caller, column: Columns, m: Option<Member>, lhs: string, op: string, rhs: string) {
    var l, r := Value(lhs, caller, column, m), Value(rhs, caller, column, m);
    && l.Some? && r.Some?
    && (if op == "~" then Contains(l.value, r.value) else if op == "!=" then l.value != r.value else l.value == r.value)
  }

  function Env(caller: Caller, column: Columns, m: Option<Member>): (string, string, string) -> bool {
    (lhs, op, rhs) => Holds(caller, column, m, lhs, op, rhs)
  }

  /** Membership references in one rule are a single left join: every comparison sees
      the same membership row. */
  ghost predicate RuleHolds(rule: Expr, caller: Caller, column: Columns, members: seq<Member>) {
    || (members == [] && Eval(rule, Env(caller, column, None)))
    || exists i :: 0 <= i < |members| && Eval(rule, Env(caller, column, Some(members[i])))
  }

  // --------------------------------------------------------------- what it declares

  function GovernedField(spec: Spec): string {
    if spec.kind == WorkspaceAdmin || spec.kind == WorkspaceAdminSelf then spec.Field() else "workspace"
  }

  ghost predicate MemberIn(members: seq<Member>, workspace: string, user: string) {
    exists i :: 0 <= i < |members| && members[i].workspace == workspace && members[i].user == user
  }

  /** Whom the declaration admits to a record. */
  ghost predicate Declared(spec: Spec, caller: Caller, column: Columns, members: seq<Member>) {
    var workspace := column(GovernedField(spec));
    match caller
    case Nobody => false
    case ApiKey(_, bound, scopes) =>
      && spec.kind != UserSelf
      && (spec.scope != "" || spec.kind == WorkspaceSplitOrigin)
      && workspace == bound
      && spec.RequiredScope(column("requestedBy") != "") in scopes
    case User(id, active, role) =>
      match spec.kind
      case UserSelf => column("user") == id
      case WorkspaceAdmin => MemberIn(members, workspace, id)
      case WorkspaceAdminSelf => column("user") == id && workspace == active && role == "admin"
      case _ => workspace == active && MemberIn(members, workspace, id)
  }

  /** A scope as the catalogue has them: nothing to escape, no quote of either kind. */
  predicate ScopeName(s: string) {
    Clean(s) && s != "," && forall i :: 0 <= i < |s| ==> s[i] != '\''
  }

  predicate FieldName(f: string) { IsOperand(f) && f[0] != '\'' && f !in NAMES }

  predicate Printable(spec: Spec) {
    ScopeName(spec.scope) && ScopeName(spec.responseScope) && FieldName(spec.Field())
  }

  predicate CleanCaller(caller: Caller) {
    caller.ApiKey? ==> AllClean(caller.scopes)
  }

  function BaseTree(spec: Spec): Expr {
    match spec.kind
    case UserSelf => Filter.And(IS_USER, OWNS)
    case WorkspaceAdmin => WithKey(AdminTree(spec.Field()), spec.Field(), spec.scope)
    case WorkspaceAdminSelf => WithKey(AdminSelfTree(spec.Field()), spec.Field(), spec.scope)
    case WorkspaceSplitOrigin => SplitTree(spec.scope, spec.responseScope)
    case _ => WithKey(MemberTree(), "workspace", spec.scope)
  }

  // ------------------------------------------------------------ the words of a rule

  lemma CollectionNameIsOperand()
    ensures IsOperand("@request.auth.collectionName")
  {
  }

  lemma AuthIdIsOperand()
    ensures IsOperand("@request.auth.id")
  {
  }

  lemma ActiveWorkspaceIsOperand()
    ensures IsOperand("@request.auth.activeWorkspace")
  {
  }

  lemma ActiveRoleIsOperand()
    ensures IsOperand("@request.auth.activeRole")
  {
  }

  lemma KeyWorkspaceIsOperand()
    ensures IsOperand("@request.auth.workspace.id")
  {
  }

  lemma ScopesIsOperand()
    ensures IsOperand("@request.auth.scopes")
  {
  }

  lemma MemberWorkspaceIsOperand()
    ensures IsOperand("@collection.workspaceMembers.workspace")
  {
  }

  lemma MemberUserIsOperand()
    ensures IsOperand("@collection.workspaceMembers.user")
  {
  }

  lemma PlainOperands()
    ensures IsOperand("user") && IsOperand("workspace") && IsOperand("requestedBy")
    ensures IsOperand("'users'") && IsOperand("'apiKeys'") && IsOperand("'admin'") && IsOperand("''")
  {
  }

  lemma ScopeIsOperand(scope: string)
    requires ScopeName(scope)
    ensures IsOperand("'\"" + scope + "\"'")
  {
    var w := "'\"" + scope + "\"'";
    assert |w| == |scope| + 4 && w[0] == '\'' && w[1] == '"' && w[|w| - 2] == '"' && w[|w| - 1] == '\'';
    assert forall i :: 0 <= i < |scope| ==> w[i + 2] == scope[i];
    forall i | 0 < i < |w| - 1 ensures w[i] != '\'' {
      if 2 <= i < |w| - 2 { assert w[(i - 2) + 2] == scope[i - 2]; }
    }
  }

  lemma TreeIsWellFormed(spec: Spec)
    requires Printable(spec)
    ensures WellFormed(BaseTree(spec))
  {
    hide IsOperand, ScopeName, KeyTree, MemberTree, AdminTree, AdminSelfTree, SplitTree;
    AuthIsWellFormed();
    KeyIsWellFormed("workspace", spec.scope);
    KeyIsWellFormed(spec.Field(), spec.scope);
    AdminIsWellFormed(spec.Field());
    AdminSelfIsWellFormed(spec.Field());
    SplitIsWellFormed(spec.scope, spec.responseScope);
    MemberTreeIsWellFormed();
  }

  lemma AuthIsWellFormed()
    ensures WellFormed(IS_USER) && WellFormed(IS_API_KEY) && WellFormed(OWNS) && IsOperand("workspace")
  {
    hide IsOperand;
    CollectionNameIsOperand();
    AuthIdIsOperand();
    PlainOperands();
  }

  lemma KeyIsWellFormed(field: string, scope: string)
    requires ScopeName(scope)
    ensures WellFormed(HasScope(scope))
    ensures IsOperand(field) ==> WellFormed(KeyTree(field, scope)) && !KeyTree(field, scope).Or?
  {
    hide IsOperand, ScopeName;
    AuthIsWellFormed();
    KeyWorkspaceIsOperand();
    ScopesIsOperand();
    ScopeIsOperand(scope);
    PlainOperands();
    if IsOperand(field) {
      var inner := Filter.And(Cmp(field, "=", "@request.auth.workspace.id"), HasScope(scope));
      assert WellFormed(inner);
      assert WellFormed(Filter.And(IS_API_KEY, inner));
    }
  }

  lemma MemberIsWellFormed(field: string)
    requires IsOperand(field)
    ensures WellFormed(MemberRow(field))
  {
    hide IsOperand;
    MemberWorkspaceIsOperand();
    MemberUserIsOperand();
    AuthIdIsOperand();
  }

  lemma MemberTreeIsWellFormed()
    ensures WellFormed(MemberTree()) && MemberTree().Group?
  {
    hide IsOperand, MemberRow;
    AuthIsWellFormed();
    ActiveWorkspaceIsOperand();
    MemberIsWellFormed("workspace");
    assert MemberRow("workspace").And? by { MemberRowIsAnd("workspace"); }
    var inner := Filter.And(Cmp("workspace", "=", "@request.auth.activeWorkspace"), MemberRow("workspace"));
    assert WellFormed(inner);
    assert WellFormed(Filter.And(IS_USER, inner));
  }

  lemma MemberRowIsAnd(field: string)
    ensures MemberRow(field).And?
  {
  }

  lemma AdminIsWellFormed(field: string)
    requires IsOperand(field)
    ensures WellFormed(AdminTree(field)) && AdminTree(field).Group?
  {
    hide IsOperand, MemberRow;
    AuthIsWellFormed();
    MemberIsWellFormed(field);
    MemberRowIsAnd(field);
    assert WellFormed(Filter.And(IS_USER, MemberRow(field)));
  }

  lemma AdminSelfIsWellFormed(field: string)
    requires IsOperand(field)
    ensures WellFormed(AdminSelfTree(field)) && AdminSelfTree(field).Group?
  {
    hide IsOperand;
    AuthIsWellFormed();
    ActiveWorkspaceIsOperand();
    ActiveRoleIsOperand();
    PlainOperands();
    var inner := Filter.And(Cmp(field, "=", "@request.auth.activeWorkspace"),
                            Cmp("@request.auth.activeRole", "=", "'admin'"));
    assert WellFormed(inner);
    assert WellFormed(Filter.And(OWNS, inner));
    assert WellFormed(Filter.And(IS_USER, Filter.And(OWNS, inner)));
  }

  lemma SplitIsWellFormed(vaultScope: string, responseScope: string)
    requires ScopeName(vaultScope) && ScopeName(responseScope)
    ensures WellFormed(SplitTree(vaultScope, responseScope))
  {
    hide IsOperand, ScopeName, MemberTree, HasScope, OriginTree;
    MemberTreeIsWellFormed();
    AuthIsWellFormed();
    KeyWorkspaceIsOperand();
    KeyIsWellFormed("workspace", vaultScope);
    KeyIsWellFormed("workspace", responseScope);
    OriginIsWellFormed(vaultScope, "=");
    OriginIsWellFormed(responseScope, "!=");
    var either := Or(OriginTree(vaultScope, "="), OriginTree(responseScope, "!="));
    assert WellFormed(either);
    var inner := Filter.And(Cmp("workspace", "=", "@request.auth.workspace.id"), Group(either));
    assert WellFormed(inner);
    assert WellFormed(Filter.And(IS_API_KEY, inner));
    assert WellFormed(Group(Filter.And(IS_API_KEY, inner)));
    assert SplitTree(vaultScope, responseScope) == Or(MemberTree(), Group(Filter.And(IS_API_KEY, inner)));
  }

  lemma OriginIsWellFormed(scope: string, op: string)
    requires WellFormed(HasScope(scope)) && (op == "=" || op == "!=")
    ensures WellFormed(OriginTree(scope, op)) && OriginTree(scope, op).Group?
  {
    hide IsOperand, HasScope;
    PlainOperands();
    var origin := Cmp("requestedBy", op, "''");
    assert WellFormed(origin);
    assert HasScope(scope).Cmp? by { ScopeTestIsCmp(scope); }
  }

  lemma ScopeTestIsCmp(scope: string)
    ensures HasScope(scope).Cmp?
  {
  }

  lemma RulePrints(spec: Spec)
    ensures spec.BaseRule() == Print(BaseTree(spec))
  {
    hide Print, UserSelfOnly, WorkspaceAnyMember, WorkspaceSelfOnly, WorkspaceAnyAdmin, WorkspaceAdminSelfOnly,
      Rules.WorkspaceSplitOrigin, WithKey, AdminTree, AdminSelfTree, MemberTree, SplitTree;
    SelfPrints();
    MemberPrints(spec.scope);
    SplitPrints(spec.scope, spec.responseScope);
    AdminPrints(spec.scope, spec.Field());
    AdminSelfPrints(spec.scope, spec.Field());
  }

  /** The printed rule reads back as what was declared, and a further clause joins
      the whole of it. */
  lemma RuleReadsBack(spec: Spec, extra: Expr)
    requires Printable(spec) && WellFormed(extra)
    requires spec.extra == "" || spec.extra == Print(extra)
    ensures Parse(spec.Rule()) == Some(if spec.extra == "" then BaseTree(spec) else Attach(BaseTree(spec), extra))
  {
    hide Parse, Print, BaseTree, Printable, WellFormed;
    TreeIsWellFormed(spec);
    RulePrints(spec);
    ParsePrint(BaseTree(spec));
    AttachPrints(BaseTree(spec), extra);
    ParsePrint(Attach(BaseTree(spec), extra));
  }
}
