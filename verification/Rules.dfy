/** The rule builders: each returns the text of a rule (util/rules.go). Beside each
    stands the tree its text reads back as. */
module Rules {
  import opened Filter

  function AuthIsUser(): string { Compare("@request.auth.collectionName", "=", "'users'") }

  function AuthIsApiKey(): string { Compare("@request.auth.collectionName", "=", "'apiKeys'") }

  function OriginVault(): string { Compare("requestedBy", "=", "''") }

  function OriginResponse(): string { Compare("requestedBy", "!=", "''") }

  function Owned(): string { Compare("user", "=", "@request.auth.id") }

  function InActiveWorkspace(field: string): string { Compare(field, "=", "@request.auth.activeWorkspace") }

  function InKeyWorkspace(field: string): string { Compare(field, "=", "@request.auth.workspace.id") }

  function MemberRowMatches(workspaceField: string): string {
    Compare("@collection.workspaceMembers.workspace", "?=", workspaceField)
    + " && " + Compare("@collection.workspaceMembers.user", "?=", "@request.auth.id")
  }

  /** Matches the quoted element, not the bare name: a scope that begins another is
      not found inside it. */
  function ApiKeyHasScope(scope: string): string {
    Compare("@request.auth.scopes", "~", "'\"" + scope + "\"'")
  }

  function ApiKeyBranch(workspaceField: string, scope: string): string {
    "(" + AuthIsApiKey() + " && " + InKeyWorkspace(workspaceField) + " && " + ApiKeyHasScope(scope) + ")"
  }

  function UserSelfOnly(): string {
    AuthIsUser() + " && " + Owned()
  }

  function MemberPart(): string {
    "(" + AuthIsUser() + " && " + InActiveWorkspace("workspace") + " && " + MemberRowMatches("workspace") + ")"
  }

  function WorkspaceAnyMember(scope: string): string {
    if scope == "" then MemberPart() else MemberPart() + " || " + ApiKeyBranch("workspace", scope)
  }

  /** The same text: owning the row, and holding the permission, are the hook's. */
  function WorkspaceSelfOnly(scope: string): string {
    if scope == "" then MemberPart() else MemberPart() + " || " + ApiKeyBranch("workspace", scope)
  }

  function OriginPart(scope: string, origin: string): string {
    "(" + ApiKeyHasScope(scope) + " && " + origin + ")"
  }

  function WorkspaceSplitOrigin(vaultScope: string, responseScope: string): string {
    var keyPart := "(" + AuthIsApiKey() + " && " + InKeyWorkspace("workspace") + " && "
                   + ("(" + OriginPart(vaultScope, OriginVault()) + " || "
                      + OriginPart(responseScope, OriginResponse()) + ")") + ")";
    MemberPart() + " || " + keyPart
  }

  function WorkspaceAnyAdmin(scope: string, targetField: string): string {
    var userPart := "(" + AuthIsUser() + " && " + MemberRowMatches(targetField) + ")";
    if scope == "" then userPart else userPart + " || " + ApiKeyBranch(targetField, scope)
  }

  function WorkspaceAdminSelfOnly(scope: string, targetField: string): string {
    var userPart := "(" + AuthIsUser() + " && " + Owned() + " && " + InActiveWorkspace(targetField)
                    + " && " + Compare("@request.auth.activeRole", "=", "'admin'") + ")";
    if scope == "" then userPart else userPart + " || " + ApiKeyBranch(targetField, scope)
  }

  // ------------------------------------------------------------------- the trees

  const IS_USER := Cmp("@request.auth.collectionName", "=", "'users'")
  const IS_API_KEY := Cmp("@request.auth.collectionName", "=", "'apiKeys'")
  const OWNS := Cmp("user", "=", "@request.auth.id")

  function MemberRow(field: string): Expr {
    And(Cmp("@collection.workspaceMembers.workspace", "?=", field),
        Cmp("@collection.workspaceMembers.user", "?=", "@request.auth.id"))
  }

  function HasScope(scope: string): Expr {
    Cmp("@request.auth.scopes", "~", "'\"" + scope + "\"'")
  }

  function KeyTree(field: string, scope: string): Expr {
    Group(And(IS_API_KEY, And(Cmp(field, "=", "@request.auth.workspace.id"), HasScope(scope))))
  }

  function MemberTree(): Expr {
    Group(And(IS_USER, And(Cmp("workspace", "=", "@request.auth.activeWorkspace"), MemberRow("workspace"))))
  }

  function WithKey(user: Expr, field: string, scope: string): Expr {
    if scope == "" then user else Or(user, KeyTree(field, scope))
  }

  function OriginTree(scope: string, op: string): Expr {
    Group(And(HasScope(scope), Cmp("requestedBy", op, "''")))
  }

  function SplitTree(vaultScope: string, responseScope: string): Expr {
    Or(MemberTree(),
       Group(And(IS_API_KEY,
                 And(Cmp("workspace", "=", "@request.auth.workspace.id"),
                     Group(Or(OriginTree(vaultScope, "="), OriginTree(responseScope, "!=")))))))
  }

  function AdminTree(field: string): Expr {
    Group(And(IS_USER, MemberRow(field)))
  }

  function AdminSelfTree(field: string): Expr {
    Group(And(IS_USER,
              And(OWNS, And(Cmp(field, "=", "@request.auth.activeWorkspace"),
                            Cmp("@request.auth.activeRole", "=", "'admin'")))))
  }

  // ------------------------------------------- each text is the print of its tree

  lemma Grouped2(a: string, join: string, b: string)
    ensures "(" + a + join + b + ")" == "(" + (a + join + b) + ")"
  {
    assert "(" + (a + join + b) == "(" + a + join + b;
  }

  lemma Grouped3(a: string, j: string, b: string, c: string)
    ensures "(" + a + j + b + j + c + ")" == "(" + (a + j + (b + j + c)) + ")"
  {
    assert "(" + (a + j + (b + j + c)) == "(" + a + j + b + j + c;
  }

  lemma Grouped4(a: string, j: string, b: string, c: string, d: string)
    ensures "(" + a + j + b + j + c + j + d + ")" == "(" + (a + j + (b + j + (c + j + d))) + ")"
  {
    assert "(" + (a + j + (b + j + (c + j + d))) == "(" + a + j + b + j + c + j + d;
  }

  lemma KeyBranchPrints(field: string, scope: string)
    ensures ApiKeyBranch(field, scope) == Print(KeyTree(field, scope))
  {
    hide Compare;
    var inner := And(Cmp(field, "=", "@request.auth.workspace.id"), HasScope(scope));
    assert Print(inner) == InKeyWorkspace(field) + " && " + ApiKeyHasScope(scope);
    assert Print(And(IS_API_KEY, inner)) == AuthIsApiKey() + " && " + Print(inner);
    Grouped3(AuthIsApiKey(), " && ", InKeyWorkspace(field), ApiKeyHasScope(scope));
  }

  lemma MemberPartPrints()
    ensures MemberPart() == Print(MemberTree())
  {
    hide Compare;
    Grouped3(AuthIsUser(), " && ", InActiveWorkspace("workspace"), MemberRowMatches("workspace"));
    assert Print(MemberRow("workspace")) == MemberRowMatches("workspace");
    assert Print(And(Cmp("workspace", "=", "@request.auth.activeWorkspace"), MemberRow("workspace")))
        == InActiveWorkspace("workspace") + " && " + MemberRowMatches("workspace");
  }

  lemma SelfPrints()
    ensures UserSelfOnly() == Print(And(IS_USER, OWNS))
  {
    hide Compare;
  }

  lemma MemberPrints(scope: string)
    ensures WorkspaceAnyMember(scope) == WorkspaceSelfOnly(scope) == Print(WithKey(MemberTree(), "workspace", scope))
  {
    hide MemberPart, ApiKeyBranch, Compare, MemberTree, KeyTree;
    MemberPartPrints();
    KeyBranchPrints("workspace", scope);
  }

  lemma SplitPrints(vaultScope: string, responseScope: string)
    ensures WorkspaceSplitOrigin(vaultScope, responseScope) == Print(SplitTree(vaultScope, responseScope))
  {
    hide MemberPart, Compare, MemberTree, OriginPart, OriginTree;
    MemberPartPrints();
    var vault, response := OriginPart(vaultScope, OriginVault()), OriginPart(responseScope, OriginResponse());
    OriginPrints(vaultScope, "=");
    OriginPrints(responseScope, "!=");
    var either := Or(OriginTree(vaultScope, "="), OriginTree(responseScope, "!="));
    assert Print(either) == vault + " || " + response;
    Grouped2(vault, " || ", response);
    assert Print(Group(either)) == "(" + vault + " || " + response + ")";
    var inner := And(Cmp("workspace", "=", "@request.auth.workspace.id"), Group(either));
    assert Print(inner) == InKeyWorkspace("workspace") + " && " + Print(Group(either));
    assert Print(And(IS_API_KEY, inner)) == AuthIsApiKey() + " && " + Print(inner);
    Grouped3(AuthIsApiKey(), " && ", InKeyWorkspace("workspace"), Print(Group(either)));
    assert Print(Group(And(IS_API_KEY, inner))) == "(" + Print(And(IS_API_KEY, inner)) + ")";
    assert SplitTree(vaultScope, responseScope) == Or(MemberTree(), Group(And(IS_API_KEY, inner)));
  }

  lemma OriginPrints(scope: string, op: string)
    ensures OriginPart(scope, Compare("requestedBy", op, "''")) == Print(OriginTree(scope, op))
  {
    hide Compare;
    var origin := Cmp("requestedBy", op, "''");
    assert Print(And(HasScope(scope), origin)) == ApiKeyHasScope(scope) + " && " + Print(origin);
    Grouped2(ApiKeyHasScope(scope), " && ", Compare("requestedBy", op, "''"));
  }

  lemma AdminPrints(scope: string, field: string)
    ensures WorkspaceAnyAdmin(scope, field) == Print(WithKey(AdminTree(field), field, scope))
  {
    hide ApiKeyBranch, Compare, KeyTree;
    assert Print(MemberRow(field)) == MemberRowMatches(field);
    assert Print(And(IS_USER, MemberRow(field))) == AuthIsUser() + " && " + MemberRowMatches(field);
    Grouped2(AuthIsUser(), " && ", MemberRowMatches(field));
    KeyBranchPrints(field, scope);
  }

  lemma AdminSelfPrints(scope: string, field: string)
    ensures WorkspaceAdminSelfOnly(scope, field) == Print(WithKey(AdminSelfTree(field), field, scope))
  {
    hide ApiKeyBranch, Compare, KeyTree;
    var role := Cmp("@request.auth.activeRole", "=", "'admin'");
    var inner := And(Cmp(field, "=", "@request.auth.activeWorkspace"), role);
    assert Print(inner) == InActiveWorkspace(field) + " && " + Print(role);
    assert Print(And(OWNS, inner)) == Owned() + " && " + Print(inner);
    assert Print(And(IS_USER, And(OWNS, inner))) == AuthIsUser() + " && " + Print(And(OWNS, inner));
    Grouped4(AuthIsUser(), " && ", Owned(), InActiveWorkspace(field), Print(role));
    KeyBranchPrints(field, scope);
  }
}
