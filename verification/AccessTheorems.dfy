/** The printed rule and the diagnosis never disagree. */
module AccessTheorems {
  import opened Results
  import opened Filter
  import opened Rules
  import opened ScopeList
  import opened Access
  import opened AccessDiagnosis

  // ------------------------------------------------- what each part of a rule says

  lemma AuthValues(caller: Caller, column: Columns, m: Option<Member>)
    ensures Value("@request.auth.collectionName", caller, column, m)
         == if caller.User? then Some("users") else if caller.ApiKey? then Some("apiKeys") else None
    ensures Value("@request.auth.id", caller, column, m) == if caller.Nobody? then None else Some(caller.id)
    ensures Value("@request.auth.activeWorkspace", caller, column, m)
         == if caller.User? then Some(caller.activeWorkspace) else None
  {
  }

  lemma KeyValues(caller: Caller, column: Columns, m: Option<Member>)
    ensures Value("@request.auth.workspace.id", caller, column, m)
         == if caller.ApiKey? then Some(caller.workspace) else None
    ensures Value("@request.auth.scopes", caller, column, m)
         == if caller.ApiKey? then Some(Stored(caller.scopes)) else None
    ensures Value("@request.auth.activeRole", caller, column, m)
         == if caller.User? then Some(caller.activeRole) else None
  {
  }

  lemma MemberValues(caller: Caller, column: Columns, m: Option<Member>)
    ensures Value("@collection.workspaceMembers.workspace", caller, column, m)
         == if m.Some? then Some(m.value.workspace) else None
    ensures Value("@collection.workspaceMembers.user", caller, column, m)
         == if m.Some? then Some(m.value.user) else None
  {
  }

  lemma LiteralValues(caller: Caller, column: Columns, m: Option<Member>)
    ensures Value("'users'", caller, column, m) == Some("users")
    ensures Value("'apiKeys'", caller, column, m) == Some("apiKeys")
    ensures Value("'admin'", caller, column, m) == Some("admin")
    ensures Value("''", caller, column, m) == Some("")
  {
    assert "'users'"[1..6] == "users";
    assert "'apiKeys'"[1..8] == "apiKeys";
    assert "'admin'"[1..6] == "admin";
  }

  lemma ScopeValue(scope: string, caller: Caller, column: Columns, m: Option<Member>)
    ensures Value("'\"" + scope + "\"'", caller, column, m) == Some(Quoted(scope))
  {
    var w := "'\"" + scope + "\"'";
    assert w[1..|w| - 1] == Quoted(scope);
  }

  lemma ColumnValue(field: string, caller: Caller, column: Columns, m: Option<Member>)
    requires FieldName(field)
    ensures Value(field, caller, column, m) == Some(column(field))
  {
    hide IsOperand;
  }

  lemma ColumnNames()
    ensures FieldName("user") && FieldName("workspace") && FieldName("requestedBy")
  {
    hide IsOperand;
    PlainOperands();
  }

  lemma UserTest(caller: Caller, column: Columns, m: Option<Member>)
    ensures Eval(IS_USER, Env(caller, column, m)) <==> caller.User?
    ensures Eval(IS_API_KEY, Env(caller, column, m)) <==> caller.ApiKey?
  {
    hide Value;
    AuthValues(caller, column, m);
    LiteralValues(caller, column, m);
  }

  lemma OwnerTest(caller: Caller, column: Columns, m: Option<Member>)
    ensures Eval(OWNS, Env(caller, column, m)) <==> !caller.Nobody? && column("user") == caller.id
  {
    hide Value, FieldName;
    ColumnNames();
    ColumnValue("user", caller, column, m);
    AuthValues(caller, column, m);
  }

  lemma ActiveTest(field: string, caller: Caller, column: Columns, m: Option<Member>)
    requires FieldName(field)
    ensures Eval(Cmp(field, "=", "@request.auth.activeWorkspace"), Env(caller, column, m))
            <==> caller.User? && column(field) == caller.activeWorkspace
    ensures Eval(Cmp(field, "=", "@request.auth.workspace.id"), Env(caller, column, m))
            <==> caller.ApiKey? && column(field) == caller.workspace
  {
    hide Value, FieldName;
    ColumnValue(field, caller, column, m);
    AuthValues(caller, column, m);
    KeyValues(caller, column, m);
  }

  lemma RoleTest(caller: Caller, column: Columns, m: Option<Member>)
    ensures Eval(Cmp("@request.auth.activeRole", "=", "'admin'"), Env(caller, column, m))
            <==> caller.User? && caller.activeRole == "admin"
  {
    hide Value;
    KeyValues(caller, column, m);
    LiteralValues(caller, column, m);
  }

  lemma MemberRowTest(field: string, caller: Caller, column: Columns, m: Option<Member>)
    requires FieldName(field)
    ensures Eval(MemberRow(field), Env(caller, column, m))
            <==> m.Some? && !caller.Nobody? && m.value.workspace == column(field) && m.value.user == caller.id
  {
    hide Value, FieldName;
    MemberValues(caller, column, m);
    ColumnValue(field, caller, column, m);
    AuthValues(caller, column, m);
    var env := Env(caller, column, m);
    assert Eval(MemberRow(field), env)
        == (env("@collection.workspaceMembers.workspace", "?=", field)
            && env("@collection.workspaceMembers.user", "?=", "@request.auth.id"));
  }

  lemma ScopeTest(scope: string, caller: Caller, column: Columns, m: Option<Member>)
    requires ScopeName(scope) && CleanCaller(caller)
    ensures Eval(HasScope(scope), Env(caller, column, m)) <==> caller.ApiKey? && scope in caller.scopes
  {
    hide Value, Contains, Stored, Quoted;
    KeyValues(caller, column, m);
    ScopeValue(scope, caller, column, m);
    if caller.ApiKey? {
      QuotedTestIsMembership(caller.scopes, scope);
    }
  }

  lemma OriginTest(caller: Caller, column: Columns, m: Option<Member>)
    ensures Eval(Cmp("requestedBy", "=", "''"), Env(caller, column, m)) <==> column("requestedBy") == ""
    ensures Eval(Cmp("requestedBy", "!=", "''"), Env(caller, column, m)) <==> column("requestedBy") != ""
  {
    hide Value, FieldName;
    ColumnNames();
    ColumnValue("requestedBy", caller, column, m);
    LiteralValues(caller, column, m);
  }

  lemma KeyTreeTest(field: string, scope: string, caller: Caller, column: Columns, m: Option<Member>)
    requires FieldName(field) && ScopeName(scope) && CleanCaller(caller)
    ensures Eval(KeyTree(field, scope), Env(caller, column, m))
            <==> caller.ApiKey? && column(field) == caller.workspace && scope in caller.scopes
  {
    hide Env, HasScope, FieldName, ScopeName;
    UserTest(caller, column, m);
    ActiveTest(field, caller, column, m);
    ScopeTest(scope, caller, column, m);
    var inner := Filter.And(Cmp(field, "=", "@request.auth.workspace.id"), HasScope(scope));
    assert Eval(inner, Env(caller, column, m)) <==>
      && Eval(Cmp(field, "=", "@request.auth.workspace.id"), Env(caller, column, m))
      && Eval(HasScope(scope), Env(caller, column, m));
    assert Eval(Filter.And(IS_API_KEY, inner), Env(caller, column, m)) <==>
      Eval(IS_API_KEY, Env(caller, column, m)) && Eval(inner, Env(caller, column, m));
  }

  lemma MemberTreeTest(caller: Caller, column: Columns, m: Option<Member>)
    ensures Eval(MemberTree(), Env(caller, column, m))
            <==> && caller.User? && column("workspace") == caller.activeWorkspace
                 && m.Some? && m.value.workspace == column("workspace") && m.value.user == caller.id
  {
    hide Env, MemberRow, FieldName;
    ColumnNames();
    UserTest(caller, column, m);
    ActiveTest("workspace", caller, column, m);
    MemberRowTest("workspace", caller, column, m);
    var inner := Filter.And(Cmp("workspace", "=", "@request.auth.activeWorkspace"), MemberRow("workspace"));
    assert Eval(Filter.And(IS_USER, inner), Env(caller, column, m)) <==>
      Eval(IS_USER, Env(caller, column, m)) && Eval(inner, Env(caller, column, m));
  }

  lemma AdminTreeTest(field: string, caller: Caller, column: Columns, m: Option<Member>)
    requires FieldName(field)
    ensures Eval(AdminTree(field), Env(caller, column, m))
            <==> caller.User? && m.Some? && m.value.workspace == column(field) && m.value.user == caller.id
  {
    hide Env, MemberRow, FieldName;
    UserTest(caller, column, m);
    MemberRowTest(field, caller, column, m);
    assert Eval(Filter.And(IS_USER, MemberRow(field)), Env(caller, column, m)) <==>
      Eval(IS_USER, Env(caller, column, m)) && Eval(MemberRow(field), Env(caller, column, m));
  }

  lemma AdminSelfTreeTest(field: string, caller: Caller, column: Columns, m: Option<Member>)
    requires FieldName(field)
    ensures Eval(AdminSelfTree(field), Env(caller, column, m))
            <==> caller.User? && column("user") == caller.id && column(field) == caller.activeWorkspace
                 && caller.activeRole == "admin"
  {
    hide Env, FieldName;
    UserTest(caller, column, m);
    OwnerTest(caller, column, m);
    ActiveTest(field, caller, column, m);
    RoleTest(caller, column, m);
    var inner := Filter.And(Cmp(field, "=", "@request.auth.activeWorkspace"),
                            Cmp("@request.auth.activeRole", "=", "'admin'"));
    assert Eval(Filter.And(OWNS, inner), Env(caller, column, m)) <==>
      Eval(OWNS, Env(caller, column, m)) && Eval(inner, Env(caller, column, m));
    assert Eval(Filter.And(IS_USER, Filter.And(OWNS, inner)), Env(caller, column, m)) <==>
      Eval(IS_USER, Env(caller, column, m)) && Eval(Filter.And(OWNS, inner), Env(caller, column, m));
  }

  lemma OriginTreeTest(scope: string, op: string, caller: Caller, column: Columns, m: Option<Member>)
    requires ScopeName(scope) && CleanCaller(caller) && (op == "=" || op == "!=")
    ensures Eval(OriginTree(scope, op), Env(caller, column, m))
            <==> caller.ApiKey? && scope in caller.scopes && (op == "!=" <==> column("requestedBy") != "")
  {
    hide Env, HasScope, ScopeName;
    ScopeTest(scope, caller, column, m);
    OriginTest(caller, column, m);
    var origin := Cmp("requestedBy", op, "''");
    assert Eval(Filter.And(HasScope(scope), origin), Env(caller, column, m)) <==>
      Eval(HasScope(scope), Env(caller, column, m)) && Eval(origin, Env(caller, column, m));
  }

  lemma SplitTreeTest(spec: Spec, caller: Caller, column: Columns, m: Option<Member>)
    requires spec.kind == WorkspaceSplitOrigin && Printable(spec) && CleanCaller(caller)
    ensures Eval(SplitTree(spec.scope, spec.responseScope), Env(caller, column, m))
            <==> || Eval(MemberTree(), Env(caller, column, m))
                 || (caller.ApiKey? && column("workspace") == caller.workspace
                     && spec.RequiredScope(column("requestedBy") != "") in caller.scopes)
  {
    hide Env, MemberTree, OriginTree, FieldName, ScopeName;
    ColumnNames();
    UserTest(caller, column, m);
    ActiveTest("workspace", caller, column, m);
    OriginTreeTest(spec.scope, "=", caller, column, m);
    OriginTreeTest(spec.responseScope, "!=", caller, column, m);
    var env := Env(caller, column, m);
    var either := Or(OriginTree(spec.scope, "="), OriginTree(spec.responseScope, "!="));
    assert Eval(either, env) <==>
           Eval(OriginTree(spec.scope, "="), env) || Eval(OriginTree(spec.responseScope, "!="), env);
    var inner := Filter.And(Cmp("workspace", "=", "@request.auth.workspace.id"), Group(either));
    assert Eval(Group(either), env) <==> Eval(either, env);
    assert Eval(inner, env) <==>
           Eval(Cmp("workspace", "=", "@request.auth.workspace.id"), env) && Eval(Group(either), env);
    assert Eval(Filter.And(IS_API_KEY, inner), env) <==> Eval(IS_API_KEY, env) && Eval(inner, env);
    assert Eval(Group(Filter.And(IS_API_KEY, inner)), env) <==> Eval(Filter.And(IS_API_KEY, inner), env);
  }

  /** What the tree of a spec says of one joined membership row. */
  ghost predicate DeclaredAt(spec: Spec, caller: Caller, column: Columns, m: Option<Member>) {
    var workspace := column(GovernedField(spec));
    var isMember := m.Some? && !caller.Nobody? && m.value.workspace == workspace && m.value.user == caller.id;
    match caller
    case Nobody => false
    case ApiKey(_, bound, scopes) =>
      && spec.kind != UserSelf
      && (spec.scope != "" || spec.kind == WorkspaceSplitOrigin)
      && workspace == bound
      && spec.RequiredScope(column("requestedBy") != "") in scopes
    case User(id, active, role) =>
      match spec.kind
      case UserSelf => column("user") == id
      case WorkspaceAdmin => isMember
      case WorkspaceAdminSelf => column("user") == id && workspace == active && role == "admin"
      case _ => workspace == active && isMember
  }

  lemma TreeTest(spec: Spec, caller: Caller, column: Columns, m: Option<Member>)
    requires Printable(spec) && CleanCaller(caller)
    ensures Eval(BaseTree(spec), Env(caller, column, m)) <==> DeclaredAt(spec, caller, column, m)
  {
    hide Env, MemberTree, KeyTree, AdminTree, AdminSelfTree, SplitTree, FieldName, ScopeName;
    ColumnNames();
    match spec.kind
    case UserSelf =>
      UserTest(caller, column, m);
      OwnerTest(caller, column, m);
    case WorkspaceAdmin =>
      AdminTreeTest(spec.Field(), caller, column, m);
      KeyTreeTest(spec.Field(), spec.scope, caller, column, m);
    case WorkspaceAdminSelf =>
      AdminSelfTreeTest(spec.Field(), caller, column, m);
      KeyTreeTest(spec.Field(), spec.scope, caller, column, m);
    case WorkspaceSplitOrigin =>
      MemberTreeTest(caller, column, m);
      SplitTreeTest(spec, caller, column, m);
    case _ =>
      MemberTreeTest(caller, column, m);
      KeyTreeTest("workspace", spec.scope, caller, column, m);
  }

  /** The rule, evaluated with its join, admits exactly whom the spec declares. */
  lemma RuleMeansDeclared(spec: Spec, caller: Caller, column: Columns, members: seq<Member>)
    requires Printable(spec) && CleanCaller(caller)
    ensures RuleHolds(BaseTree(spec), caller, column, members) <==> Declared(spec, caller, column, members)
  {
    hide Env, BaseTree, Printable, Eval;
    TreeTest(spec, caller, column, None);
    forall i | 0 <= i < |members|
      ensures Eval(BaseTree(spec), Env(caller, column, Some(members[i])))
          <==> DeclaredAt(spec, caller, column, Some(members[i]))
    {
      TreeTest(spec, caller, column, Some(members[i]));
    }
    if members != [] {
      assert Eval(BaseTree(spec), Env(caller, column, Some(members[0]))) <==>
             DeclaredAt(spec, caller, column, Some(members[0]));
    }
    var governed := column(GovernedField(spec));
    if Declared(spec, caller, column, members) && caller.User? && MemberIn(members, governed, caller.id) {
      var i :| 0 <= i < |members| && members[i].workspace == governed && members[i].user == caller.id;
      assert DeclaredAt(spec, caller, column, Some(members[i]));
    }
  }

  // ----------------------------------------------------- the rule and the diagnosis

  /** The kinds that compare the record's owner with the person. */
  predicate AsksOwner(kind: Kind) { kind == UserSelf || kind == WorkspaceAdminSelf }

  /** The subject describes an existing record: its workspace, and its owner where the
      kind asks for one. Whether it is a response the subject says for itself. */
  predicate Describes(spec: Spec, subj: Subject, column: Columns) {
    && subj.recordWorkspace == column(GovernedField(spec)) != ""
    && (AsksOwner(spec.kind) ==> subj.recordUser == column("user") != "")
  }

  /** The reasons no rule is written to see: the precise permission of a member, and
      on rows that predate permissions the role. */
  function Unseen(spec: Spec): set<Blame> {
    match spec.kind
    case WorkspaceAdmin => {RoleColumn, Permissions}
    case WorkspaceSelf => {Permissions}
    case WorkspaceSplitOrigin => {Permissions}
    case _ => {}
  }

  lemma UserErrorsMatchDeclared(spec: Spec, members: seq<Member>, subj: Subject, column: Columns)
    requires subj.caller.User? && Describes(spec, subj, column)
    ensures Declared(spec, subj.caller, column, members) <==> UserErrors(spec, members, subj).Keys <= Unseen(spec)
  {
    hide MemberOf, MemberIn;
    var member := MemberOf(members, subj.recordWorkspace, subj.caller.id);
    var errs := UserErrors(spec, members, subj);
    assert UserColumn !in Unseen(spec) && WorkspaceColumn !in Unseen(spec) && Membership !in Unseen(spec);
    if spec.kind != UserSelf && ContextErrors(spec, subj) != map[] {
      assert WorkspaceColumn in errs.Keys;
    }
    if spec.kind == UserSelf || spec.kind == WorkspaceAdminSelf {
      assert OwnerErrors(subj) != map[] ==> UserColumn in errs.Keys;
      assert spec.kind == WorkspaceAdminSelf && subj.caller.activeRole != "admin" ==> RoleColumn in errs.Keys;
    } else {
      assert member.None? ==> Membership in errs.Keys;
      assert member.Some? ==> GrantErrors(spec, member.value, subj).Keys <= Unseen(spec);
    }
  }

  /** The scope the rule asks of a key for this record, and the one the diagnosis asks
      for the subject, are both held or both missing; a spec without a vault scope
      turns every key away. */
  predicate ScopesAgree(spec: Spec, subj: Subject, column: Columns) {
    subj.caller.ApiKey? && spec.kind == WorkspaceSplitOrigin && subj.recordWorkspace == subj.caller.workspace ==>
      var asked := spec.RequiredScope(column("requestedBy") != "");
      if spec.scope == "" then asked !in subj.caller.scopes
      else asked in subj.caller.scopes <==> spec.RequiredScope(subj.isResponse) in subj.caller.scopes
  }

  /** For keys an empty diagnosis and the declaration agree exactly when those scopes
      do. */
  lemma KeyErrorsMatchDeclared(spec: Spec, members: seq<Member>, subj: Subject, column: Columns)
    requires subj.caller.ApiKey? && Describes(spec, subj, column)
    ensures (Declared(spec, subj.caller, column, members) <==> KeyErrors(spec, subj) == map[])
            <==> ScopesAgree(spec, subj, column)
  {
    var want := spec.RequiredScope(subj.isResponse);
    var errs := KeyErrors(spec, subj);
    assert spec.kind == UserSelf || spec.scope == "" ==> AuthField in errs.Keys;
    if spec.kind != UserSelf && spec.scope != "" {
      assert want !in subj.caller.scopes ==> ScopesField in errs.Keys;
      assert subj.recordWorkspace != subj.caller.workspace ==> WorkspaceColumn in errs.Keys;
    }
  }

  /** For every spec, every caller and every existing row: the printed rule, read back
      and evaluated, holds exactly when the diagnosis finds nothing but what no rule is
      written to see; for a key that is nothing at all, and there the two agree if and
      only if the scopes each asks for are both held or both missing. */
  lemma RuleAgreesWithDiagnosis(spec: Spec, members: seq<Member>, subj: Subject, column: Columns)
    requires Printable(spec) && CleanCaller(subj.caller) && Describes(spec, subj, column)
    requires spec.extra == "" && !subj.superuser
    ensures
      var rule := Parse(spec.Rule());
      && rule.Some?
      && ((RuleHolds(rule.value, subj.caller, column, members)
           <==> Errors(spec, members, subj).Keys <= (if subj.caller.User? then Unseen(spec) else {}))
          <==> ScopesAgree(spec, subj, column))
  {
    hide Parse, Declared, UserErrors, KeyErrors, RuleHolds, Printable, BaseTree, Describes;
    AuthIsWellFormed();
    RuleReadsBack(spec, IS_USER);
    RuleMeansDeclared(spec, subj.caller, column, members);
    match subj.caller
    case Nobody =>
      assert AuthField in Errors(spec, members, subj).Keys;
      NobodyIsDeclared(spec, column, members);
    case ApiKey(_, _, _) =>
      KeyErrorsMatchDeclared(spec, members, subj, column);
      assert KeyErrors(spec, subj).Keys <= {} <==> KeyErrors(spec, subj) == map[] by { NoKeys(KeyErrors(spec, subj)); }
    case User(_, _, _) => UserErrorsMatchDeclared(spec, members, subj, column);
  }

  lemma NoKeys(errs: map<Blame, Problem>)
    ensures errs.Keys <= {} <==> errs == map[]
  {
    assert errs.Keys == {} ==> errs == map[];
  }

  lemma NobodyIsDeclared(spec: Spec, column: Columns, members: seq<Member>)
    ensures !Declared(spec, Nobody, column, members)
  {
  }

  predicate Owns(subj: Subject)
    requires subj.caller.User?
  {
    subj.recordUser != "" && subj.recordUser == subj.caller.id
  }

  /** The member's row decides what no rule sees: the named permission, or on a row
      from before permissions the role; the owner of a row needs neither. */
  predicate Permitted(spec: Spec, m: Member, subj: Subject)
    requires subj.caller.User?
  {
    match spec.kind
    case WorkspaceAdmin => spec.scope in m.permissions || (m.permissions == [] && m.role == "admin")
    case WorkspaceMember => true
    case _ => Owns(subj) || m.permissions == [] || spec.RequiredScope(subj.isResponse) in m.permissions
  }

  /** Nothing to report exactly when the rule admits the person and their row in the
      workspace permits the action. */
  lemma NothingToReport(spec: Spec, members: seq<Member>, subj: Subject, column: Columns)
    requires subj.caller.User? && Describes(spec, subj, column)
    ensures UserErrors(spec, members, subj) == map[] <==>
              && Declared(spec, subj.caller, column, members)
              && (spec.kind in {WorkspaceMember, WorkspaceSelf, WorkspaceAdmin, WorkspaceSplitOrigin} ==>
                    var m := MemberOf(members, subj.recordWorkspace, subj.caller.id);
                    m.Some? && Permitted(spec, m.value, subj))
  {
    hide MemberOf, MemberIn, Declared;
    UserErrorsMatchDeclared(spec, members, subj, column);
    var errs := UserErrors(spec, members, subj);
    var member := MemberOf(members, subj.recordWorkspace, subj.caller.id);
    if spec.kind in {WorkspaceMember, WorkspaceSelf, WorkspaceAdmin, WorkspaceSplitOrigin} {
      if member.None? {
        assert Membership in errs.Keys;
      } else {
        var grant := GrantErrors(spec, member.value, subj);
        assert grant == map[] <==> Permitted(spec, member.value, subj)
        by { GrantIsPermission(spec, member.value, subj); }
        assert grant.Keys <= errs.Keys;
        assert errs.Keys <= Unseen(spec) ==> errs == grant by {
          if errs.Keys <= Unseen(spec) { ContextClear(spec, subj, errs, grant); }
        }
      }
    }
  }

  lemma GrantIsPermission(spec: Spec, m: Member, subj: Subject)
    requires subj.caller.User?
    ensures GrantErrors(spec, m, subj) == map[] <==> Permitted(spec, m, subj)
  {
    var grant := GrantErrors(spec, m, subj);
    assert RoleColumn in grant.Keys || Permissions in grant.Keys || grant == map[];
  }

  lemma ContextClear(spec: Spec, subj: Subject, errs: map<Blame, Problem>, grant: map<Blame, Problem>)
    requires subj.caller.User? && errs == ContextErrors(spec, subj) + grant && errs.Keys <= Unseen(spec)
    ensures errs == grant
  {
    assert WorkspaceColumn !in Unseen(spec);
    var context := ContextErrors(spec, subj);
    assert context != map[] ==> WorkspaceColumn in context.Keys;
    assert context.Keys <= errs.Keys;
  }

  /** A further clause without an alternative of its own narrows the whole rule, for
      people and keys alike. */
  lemma ExtraNarrowsEveryBranch(spec: Spec, extra: Expr, caller: Caller, column: Columns, m: Option<Member>)
    requires Printable(spec) && CleanCaller(caller) && WellFormed(extra) && !extra.Or?
    requires spec.extra != "" && spec.extra == Print(extra)
    ensures
      var rule := Parse(spec.Rule());
      && rule.Some?
      && (Eval(rule.value, Env(caller, column, m))
          <==> DeclaredAt(spec, caller, column, m) && Eval(extra, Env(caller, column, m)))
  {
    hide Parse, Print, Printable, BaseTree, Env, DeclaredAt;
    RuleReadsBack(spec, extra);
    TreeTest(spec, caller, column, m);
    AttachMeans(BaseTree(spec), extra, Env(caller, column, m));
  }

  /** A split-origin spec without a vault scope is one family on which the two disagree,
      whatever the subject says: its rule still admits a key holding the response scope. */
  lemma SplitWithoutVaultScopeDisagrees(spec: Spec, workspace: string, members: seq<Member>, isResponse: bool)
    requires spec.kind == WorkspaceSplitOrigin && spec.scope == "" && Printable(spec) && workspace != ""
    ensures
      var subj := Subject(ApiKey("", workspace, [spec.responseScope]), false, workspace, "owner", isResponse);
      var column := (c: string) => if c == "workspace" then workspace else "owner";
      && Describes(spec, subj, column)
      && RuleHolds(BaseTree(spec), subj.caller, column, members)
      && Errors(spec, members, subj) != map[]
  {
    hide BaseTree, RuleHolds;
    var subj := Subject(ApiKey("", workspace, [spec.responseScope]), false, workspace, "owner", isResponse);
    var column := (c: string) => if c == "workspace" then workspace else "owner";
    assert column("requestedBy") == "owner" && column("user") == "owner";
    RuleMeansDeclared(spec, subj.caller, column, members);
    assert AuthField in Errors(spec, members, subj);
  }
}
