/** The preflight: before the database evaluates a rule, the same declaration explains
    a refusal to come (cmd/revoked/hooks/preflight.go).

    A write of an existing record lands when its rule holds and the preflight finds
    nothing. The preflight never says of a record that it is a response. */
module AccessPreflight {
  import opened Results
  import opened Filter
  import opened Access
  import opened AccessDiagnosis
  import opened AccessTheorems

  datatype Action = CreateAction | UpdateAction | DeleteAction

  /** What is asked to be written: the workspace the payload names, and the existing
      record if the id names one. */
  datatype Request = Request(action: Action, caller: Caller, superuser: bool, requested: string,
                             record: Option<Columns>, ofWorkspaces: bool)

  function CreateSubject(r: Request): Subject {
    Subject(r.caller, r.superuser, r.requested, "", false)
  }

  function RecordSubject(caller: Caller, superuser: bool, column: Columns, ofWorkspaces: bool): Subject {
    Subject(caller, superuser, if ofWorkspaces then column("id") else column("workspace"), column("user"), false)
  }

  function Belongs(members: seq<Member>, subj: Subject): (r: bool)
    ensures r <==> subj.superuser
                   || (subj.recordWorkspace != "" && match subj.caller
                       case Nobody => false
                       case ApiKey(_, bound, _) => bound == subj.recordWorkspace
                       case User(id, _, _) => MemberIn(members, subj.recordWorkspace, id))
  {
    if subj.superuser then true
    else if subj.caller.Nobody? || subj.recordWorkspace == "" then false
    else if subj.caller.ApiKey? then subj.caller.workspace == subj.recordWorkspace
    else MemberOf(members, subj.recordWorkspace, subj.caller.id).Some?
  }

  function PreflightErrors(spec: Spec, members: seq<Member>, r: Request): map<Blame, Problem> {
    if r.action == CreateAction then Errors(spec, members, CreateSubject(r))
    else if r.record.None? then map[]
    else
      var subj := RecordSubject(r.caller, r.superuser, r.record.value, r.ofWorkspaces);
      if Belongs(members, subj) then Errors(spec, members, subj) else map[]
  }

  method DiagnoseAccess(spec: Spec, members: seq<Member>, r: Request) returns (errs: map<Blame, Problem>)
    ensures errs == PreflightErrors(spec, members, r)
  {
    hide Errors, Belongs;
    var subj := Subject(r.caller, r.superuser, "", "", false);
    if r.action == CreateAction {
      subj := subj.(recordWorkspace := r.requested);
      var d := new Diagnosis(spec, members, subj);
      return d.errs;
    }
    if r.record.None? {
      return map[];
    }
    var existing := r.record.value;
    subj := subj.(recordWorkspace := existing("workspace"), recordUser := existing("user"));
    if r.ofWorkspaces {
      subj := subj.(recordWorkspace := existing("id"));
    }
    if !Belongs(members, subj) {
      return map[];
    }
    var d := new Diagnosis(spec, members, subj);
    return d.errs;
  }

  // ------------------------------------------------- the preflight against the rule

  /** A write of an existing record under a spec that governs it by the column the
      preflight reads. */
  predicate OfRecord(spec: Spec, r: Request) {
    && r.action != CreateAction && r.record.Some? && !r.superuser
    && GovernedField(spec) == (if r.ofWorkspaces then "id" else "workspace")
    && Describes(spec, RecordSubject(r.caller, r.superuser, r.record.value, r.ofWorkspaces), r.record.value)
  }

  function IsResponse(r: Request): bool
    requires r.record.Some?
  {
    r.record.value("requestedBy") != ""
  }

  /** Of a key: the preflight asks for the vault scope, the rule on a response for the
      response scope. */
  predicate SameScopes(spec: Spec, r: Request)
    requires r.record.Some?
  {
    r.caller.ApiKey? && spec.kind == WorkspaceSplitOrigin && IsResponse(r) ==>
      (spec.scope in r.caller.scopes <==> spec.responseScope in r.caller.scopes)
  }

  /** Somebody inside the workspace is told nothing, or nothing but what no rule is
      written to see, exactly when the rule admits them: if and only if the record is no
      response of a split-origin spec, or the key holds both scopes or neither. */
  lemma PreflightAgreesWithRule(spec: Spec, members: seq<Member>, r: Request)
    requires OfRecord(spec, r) && Printable(spec) && CleanCaller(r.caller) && spec.extra == "" && spec.scope != ""
    requires Belongs(members, RecordSubject(r.caller, r.superuser, r.record.value, r.ofWorkspaces))
    ensures
      var rule := Parse(spec.Rule());
      && rule.Some?
      && ((RuleHolds(rule.value, r.caller, r.record.value, members)
           <==> PreflightErrors(spec, members, r).Keys <= (if r.caller.User? then Unseen(spec) else {}))
          <==> SameScopes(spec, r))
  {
    hide Parse, Errors, RuleHolds, Printable, Unseen;
    var subj := RecordSubject(r.caller, r.superuser, r.record.value, r.ofWorkspaces);
    RuleAgreesWithDiagnosis(spec, members, subj, r.record.value);
  }

  /** Outside the workspace the preflight says nothing, and the rule admits nobody but
      an owner under the kinds that ask for one. */
  lemma OutsidersAreLeftToTheRule(spec: Spec, members: seq<Member>, r: Request)
    requires OfRecord(spec, r)
    requires !Belongs(members, RecordSubject(r.caller, r.superuser, r.record.value, r.ofWorkspaces))
    ensures PreflightErrors(spec, members, r) == map[]
    ensures Declared(spec, r.caller, r.record.value, members) ==>
              AsksOwner(spec.kind) && r.caller.User? && r.record.value("user") == r.caller.id
  {
    hide Errors, MemberIn;
  }

  /** A key that holds the response scope alone: the rule admits it to a response, the
      preflight refuses it for want of the vault scope. */
  lemma ResponseKeyIsRefused(spec: Spec, members: seq<Member>, r: Request)
    requires OfRecord(spec, r) && spec.kind == WorkspaceSplitOrigin && spec.scope != "" && !r.ofWorkspaces
    requires r.caller.ApiKey? && r.caller == ApiKey(r.caller.id, r.record.value("workspace"), [spec.responseScope])
    requires Printable(spec) && CleanCaller(r.caller) && IsResponse(r) && spec.scope != spec.responseScope
    ensures RuleHolds(BaseTree(spec), r.caller, r.record.value, members)
    ensures PreflightErrors(spec, members, r) == map[ScopesField := InvalidScope(spec.scope)]
  {
    hide BaseTree, RuleHolds, Printable;
    RuleMeansDeclared(spec, r.caller, r.record.value, members);
  }

  // ------------------------------------------------- which permission a member needs

  /** The subject that does say whether the record is a response, as the sealed routes
      build it. */
  function FullSubject(r: Request): Subject
    requires r.record.Some?
  {
    RecordSubject(r.caller, r.superuser, r.record.value, r.ofWorkspaces).(isResponse := IsResponse(r))
  }

  /** Of a person's row: both permissions, or neither, or a row that needs none. */
  predicate SamePermissions(spec: Spec, m: Member, r: Request)
    requires r.record.Some? && r.caller.User?
  {
    spec.kind == WorkspaceSplitOrigin && IsResponse(r) ==>
      || Owns(FullSubject(r)) || m.permissions == []
      || (spec.scope in m.permissions <==> spec.responseScope in m.permissions)
  }

  /** A member's write is let through by the preflight exactly when it would be with the
      permission that governs the record, if and only if their row holds both
      permissions or neither, or needs none. */
  lemma PreflightAsksThePermission(spec: Spec, members: seq<Member>, r: Request)
    requires OfRecord(spec, r) && r.caller.User? && !AsksOwner(spec.kind)
    requires Declared(spec, r.caller, r.record.value, members)
    ensures
      var m := MemberOf(members, FullSubject(r).recordWorkspace, r.caller.id);
      && m.Some?
      && ((PreflightErrors(spec, members, r) == map[] <==> Errors(spec, members, FullSubject(r)) == map[])
          <==> SamePermissions(spec, m.value, r))
  {
    hide MemberOf, MemberIn, UserErrors;
    var column := r.record.value;
    var subj := RecordSubject(r.caller, r.superuser, column, r.ofWorkspaces);
    NothingToReport(spec, members, subj, column);
    NothingToReport(spec, members, FullSubject(r), column);
  }

  /** On a response, a member holding the vault permission and not the response
      permission passes rule and preflight both. */
  lemma VaultPermissionReachesResponse(spec: Spec, members: seq<Member>, r: Request)
    requires OfRecord(spec, r) && r.caller.User? && spec.kind == WorkspaceSplitOrigin && IsResponse(r)
    requires Declared(spec, r.caller, r.record.value, members)
    requires
      var m := MemberOf(members, FullSubject(r).recordWorkspace, r.caller.id);
      m.Some? && spec.scope in m.value.permissions && spec.responseScope !in m.value.permissions
    requires !Owns(FullSubject(r))
    ensures PreflightErrors(spec, members, r) == map[]
    ensures Errors(spec, members, FullSubject(r)) != map[]
  {
    hide MemberOf, MemberIn, UserErrors;
    var subj := RecordSubject(r.caller, r.superuser, r.record.value, r.ofWorkspaces);
    NothingToReport(spec, members, subj, r.record.value);
    NothingToReport(spec, members, FullSubject(r), r.record.value);
  }

  /** What the registry declares for updating a vault entry (util/accessregistry.go). */
  const RECORD_UPDATE := Spec(WorkspaceSplitOrigin, "record:update", "", "", "response:update")

  /** The columns of an answer "o" sent to the workspace "w" for the request "q". */
  function AnswerColumn(c: string): string {
    if c == "workspace" then "w" else if c == "user" then "o" else if c == "requestedBy" then "q" else ""
  }

  lemma AnswerColumns()
    ensures AnswerColumn("workspace") == "w" && AnswerColumn("requestedBy") == "q" && AnswerColumn("user") == "o"
  {
  }

  lemma UpdateIsPrintable()
    ensures Printable(RECORD_UPDATE)
  {
    hide IsOperand;
    PlainOperands();
  }

  lemma ResponseKeyIsClean()
    ensures CleanCaller(ApiKey("k", "w", ["response:update"]))
  {
  }

  /** The same at that declaration: a key given the response scope, on an answer that
      somebody sent to the workspace. */
  lemma ResponseUpdateIsRefused(members: seq<Member>)
    ensures
      var r := Request(UpdateAction, ApiKey("k", "w", ["response:update"]), false, "", Some(AnswerColumn), false);
      && RuleHolds(BaseTree(RECORD_UPDATE), r.caller, AnswerColumn, members)
      && PreflightErrors(RECORD_UPDATE, members, r) == map[ScopesField := InvalidScope("record:update")]
  {
    hide BaseTree, RuleHolds, PreflightErrors, IsOperand, AnswerColumn, Printable, CleanCaller;
    var r := Request(UpdateAction, ApiKey("k", "w", ["response:update"]), false, "", Some(AnswerColumn), false);
    UpdateIsPrintable();
    ResponseKeyIsClean();
    AnswerColumns();
    ResponseKeyIsRefused(RECORD_UPDATE, members, r);
  }
}
