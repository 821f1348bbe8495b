/** Runs of the membership requests that end where the guards were meant to prevent. */
module MembershipRuns {
  import opened Results
  import opened Catalogue
  import opened Grants
  import opened Surfaces
  import opened KeyReach
  import opened Membership
  import opened MembershipTheorems
  import opened Governance

  lemma {:induction false} RunLast(past: History, steps: seq<Step>, step: Step)
    ensures Run(past, steps + [step]) == Next(Run(past, steps), step)
    decreases |steps|
  {
    hide Next;
    var all := steps + [step];
    if steps == [] {
      assert all[0] == step && all[1..] == [];
    } else {
      assert all[0] == steps[0] && all[1..] == steps[1..] + [step];
      RunLast(Next(past, steps[0]), steps[1..], step);
    }
  }

  lemma Advance(past: History, steps: seq<Step>, k: nat)
    requires k < |steps|
    ensures Run(past, steps[..k + 1]) == Next(Run(past, steps[..k]), steps[k])
  {
    hide Next, Run;
    assert steps[..k + 1] == steps[..k] + [steps[k]];
    RunLast(past, steps[..k], steps[k]);
  }

  lemma NoSteps(past: History, steps: seq<Step>)
    requires steps == []
    ensures Run(past, steps) == past
  {
  }

  // ------------------------------------------------------------------- the full set

  lemma EntryScopes(key: string, i: nat)
    requires i < |Permissions()| && Permissions()[i].key == key
    ensures ScopesOf(key) == Permissions()[i].scopes && Known(key)
  {
    hide Permissions;
    EntryIs(key, i);
    KnownHas(key);
  }

  lemma {:induction false} AllKeysHas(k: nat, n: nat)
    requires k <= n <= |Permissions()|
    ensures forall i :: 0 <= i < k ==> Permissions()[i].key in AllKeysUpTo(n)
    decreases n
  {
    hide Permissions;
    if n > 0 {
      AllKeysHas(if k < n then k else n - 1, n - 1);
    }
  }

  lemma {:induction false} AllKeysKnown(n: nat)
    requires n <= |Permissions()|
    ensures AllKnown(AllKeysUpTo(n))
  {
    hide Permissions, Known;
    if n > 0 {
      AllKeysKnown(n - 1);
      EntryScopes(Permissions()[n - 1].key, n - 1);
    }
  }

  /** Every entry's scopes are in the full set. */
  lemma FullSetHolds(key: string, i: nat)
    requires i < |Permissions()| && Permissions()[i].key == key
    ensures forall s :: s in ScopesOf(key) ==> s in FullSet()
  {
    hide Expand, Known, ScopesOf, Permissions, AllKeysUpTo;
    var keys := AllKeysUpTo(|Permissions()|);
    ExpandHolds(keys);
    AllKeysHas(i + 1, |Permissions()|);
    var k :| 0 <= k < |keys| && keys[k] == key;
    forall s | s in ScopesOf(key) ensures s in FullSet() {
      assert s in ScopesOf(keys[k]);
      assert Grants.Grants(keys, s);
    }
  }

  lemma AdministeringEntries()
    ensures |Permissions()| == 21 && Permissions()[17].key == MEMBERS_ADD && Permissions()[18].key == MEMBERS_REMOVE
    ensures ScopesOf(MEMBERS_ADD) == ["workspaceMembers:create", "workspaceMembers:read"]
    ensures ScopesOf(MEMBERS_REMOVE) == ["workspaceMembers:update", "workspaceMembers:delete", "workspaceMembers:read"]
  {
    hide Known, ScopesOf;
    EntryScopes(MEMBERS_ADD, 17);
    EntryScopes(MEMBERS_REMOVE, 18);
  }

  /** The creator's full set lets them bring people in and take them out. */
  lemma CreatorAdministers(row: Member)
    requires row.permissions == FullSet()
    ensures CanAdminister(row) && HoldsBoth(row)
  {
    hide FullSet, ScopesOf, Permissions, SurfaceKeys;
    AdministeringEntries();
    FullSetHolds(MEMBERS_ADD, 17);
    FullSetHolds(MEMBERS_REMOVE, 18);
    assert ScopesOf(MEMBERS_ADD)[0] == INVITE_SCOPE;
    AdminKeysKnown();
    HeldMeansScopes(MEMBERS_ADD, MemberScopes(row));
    HeldMeansScopes(MEMBERS_REMOVE, MemberScopes(row));
  }

  lemma FirstIsIn(xs: seq<string>)
    ensures xs == [] || xs[0] in xs
  {
  }

  /** What a holder of the full set asks for by keys, they get. */
  lemma FullGranterGrants(keys: seq<string>)
    requires AllKnown(keys) && Within(Expand(keys), FullSet())
    ensures Normalize(FullSet(), keys) == Ok(Expand(keys))
  {
    hide FullSet, Expand, Permissions, Known, AllScopes;
    FirstIsIn(Unknown(keys));
    FirstIsIn(Missing(FullSet(), Expand(keys)));
    assert ScopesIn([]) == [] && Expand(keys) + [] == Expand(keys);
  }

  /** What "members:add" alone stands for. */
  function Adding(): seq<string> { Expand([MEMBERS_ADD]) }

  lemma AddingHolds()
    ensures INVITE_SCOPE in Adding() && "workspaceMembers:delete" !in Adding()
    ensures Normalize(FullSet(), [MEMBERS_ADD]) == Ok(Adding())
  {
    hide FullSet, Expand, ScopesOf, Permissions, Known;
    var keys := [MEMBERS_ADD];
    ExpandHolds(keys);
    AdministeringEntries();
    AdminKeysKnown();
    FullSetHolds(MEMBERS_ADD, 17);
    assert ScopesOf(keys[0])[0] == INVITE_SCOPE;
    assert Grants.Grants(keys, INVITE_SCOPE);
    forall s | s in Expand(keys) ensures s in FullSet() && s in ScopesOf(MEMBERS_ADD) {
      assert Grants.Grants(keys, s);
    }
    FullGranterGrants(keys);
  }

  lemma AddingIsHalf(row: Member)
    requires row.permissions == Adding()
    ensures CanAdminister(row) && !HoldsBoth(row)
  {
    hide FullSet, Adding, ScopesOf, SurfaceKeys, Known, Permissions;
    AddingHolds();
    AdministeringEntries();
    HeldMeansScopes(MEMBERS_REMOVE, MemberScopes(row));
    assert ScopesOf(MEMBERS_REMOVE)[1] == "workspaceMembers:delete";
  }

  // ---------------------------------------------------------------- a founded workspace

  function Opened(workspace: Id, user: Id): State {
    START.state.(workspaces := {workspace}, founders := map[workspace := user])
  }

  function Staffed(workspace: Id, rows: seq<Member>): Moment {
    Moment(START.state.(workspaces := {workspace}, members := rows), map[])
  }

  /** A workspace, and its creator's row with the full set. */
  function Founded(workspace: Id, user: Id, row: Id): History {
    [START, Moment(Opened(workspace, user), map[]), Staffed(workspace, [FounderRow(workspace, user, row)])]
  }

  lemma FounderIsSynced(workspace: Id, user: Id, row: Id)
    ensures
      var founder := FounderRow(workspace, user, row);
      && CanAdminister(founder) && HoldsBoth(founder) && Synced(founder) == founder
      && MemberScopes(founder) == FullSet()
  {
    hide FullSet, HoldsBoth;
    CreatorAdministers(FounderRow(workspace, user, row));
  }

  lemma FoundedIsReachable(workspace: Id, user: Id, row: Id)
    ensures Run([START], [OpenStep(workspace, user), FoundStep(workspace, row)]) == Founded(workspace, user, row)
  {
    hide Run, FullSet, HoldsBoth, Next;
    var steps := [OpenStep(workspace, user), FoundStep(workspace, row)];
    NoSteps([START], steps[..0]);
    Opens(workspace, user);
    assert Run([START], steps[..1]) == [START, Moment(Opened(workspace, user), map[])]
    by { Advance([START], steps, 0); }
    Founds(workspace, user, row);
    Advance([START], steps, 1);
    assert steps[..2] == steps;
  }

  lemma FoundingNext(past: History, workspace: Id, user: Id, row: Id)
    ensures Next(past, OpenStep(workspace, user))
         == past + [Moment(OpenWorkspace(Now(past), workspace, user).0, Present(past).makers)]
    ensures Next(past, FoundStep(workspace, row))
         == past + [Moment(FoundWorkspace(Now(past), workspace, row).0, Present(past).makers)]
  {
    hide OpenWorkspace, FoundWorkspace, StoreMember, ReplaceMember, DropMember, StoreInvite, ReplaceInvite, StoreKey;
    hide WantsAdd, WantsUpdate, WantsRemove, WantsInvite, WantsRedeem, WantsKey, Permissions, AllScopes, FullSet;
  }

  lemma Opens(workspace: Id, user: Id)
    ensures Next([START], OpenStep(workspace, user)) == [START, Moment(Opened(workspace, user), map[])]
  {
    hide Next;
    FoundingNext([START], workspace, user, user);
    assert START.state.workspaces + {workspace} == {workspace};
    assert START.state.founders[workspace := user] == map[workspace := user];
  }

  lemma NobodyCounted(workspace: Id)
    ensures Count([], workspace) == 0
  {
  }

  /** The founder of a workspace nobody is in yet gets their row. */
  lemma FounderIsStored(s: State, workspace: Id, row: Id)
    requires workspace in s.founders && workspace in s.workspaces
    requires forall i :: 0 <= i < |s.members| ==> s.members[i].workspace != workspace && s.members[i].id != row
    requires Count(s.members, workspace) == 0
    ensures
      var founder := FounderRow(workspace, s.founders[workspace], row);
      FoundWorkspace(s, workspace, row).0
      == s.(founders := s.founders - {workspace}, members := s.members + [founder])
  {
    hide FullSet, HoldsBoth, Synced, FounderRow, FindMember, FindRow, Count;
    FounderIsSynced(workspace, s.founders[workspace], row);
    FounderPlace(workspace, s.founders[workspace], row);
  }

  lemma FounderPlace(workspace: Id, user: Id, row: Id)
    ensures
      var founder := FounderRow(workspace, user, row);
      founder.workspace == workspace && founder.user == user && founder.id == row
  {
    hide FullSet;
  }

  lemma Founds(workspace: Id, user: Id, row: Id)
    ensures Next([START, Moment(Opened(workspace, user), map[])], FoundStep(workspace, row))
         == Founded(workspace, user, row)
  {
    hide FoundWorkspace, FounderRow, Next;
    var s := Opened(workspace, user);
    FoundingNext([START, Moment(s, map[])], workspace, user, row);
    NobodyCounted(workspace);
    FounderIsStored(s, workspace, row);
    assert s.founders - {workspace} == map[];
    assert s.members + [FounderRow(workspace, user, row)] == [FounderRow(workspace, user, row)];
  }

  lemma FounderGrants(workspace: Id, user: Id, row: Id)
    ensures Granter(Founded(workspace, user, row)[2].state, Person(user), workspace) == FullSet()
  {
    hide FullSet, HoldsBoth;
    FounderIsSynced(workspace, user, row);
  }

  // --------------------------------------------------------------------------- runs

  lemma AdministersAlone(workspace: Id, user: Id, row: Id)
    ensures AdminCount(Staffed(workspace, [FounderRow(workspace, user, row)]).state.members, workspace, row) == 0
  {
    hide CanAdminister, AdminCount, FullSet;
    CountIsAlone([FounderRow(workspace, user, row)], workspace, row);
  }

  /** The founder keeps the permission to bring people in and gives up the other: their
      update passes the guard, and nobody holds both. */
  lemma NarrowedFounder(workspace: Id, user: Id, row: Id)
    ensures
      var step := UpdateStep(Person(user), Member(row, workspace, user, Admin, [MEMBERS_ADD]), 2, 2);
      var s := Now(Next(Founded(workspace, user, row), step));
      && Has(s.members, workspace, CanAdminister) && !Has(s.members, workspace, HoldsBoth)
  {
    hide FullSet, HoldsBoth, Adding, Granter, Normalize, CanAdminister, AdminCount;
    var past := Founded(workspace, user, row);
    var sent := Member(row, workspace, user, Admin, [MEMBERS_ADD]);
    var narrowed := sent.(permissions := Adding());
    FounderGrants(workspace, user, row);
    AddingHolds();
    AddingIsHalf(narrowed);
    assert Wanted(past, UpdateStep(Person(user), sent, 2, 2)) == Replace(narrowed);
    var s := Now(Next(past, UpdateStep(Person(user), sent, 2, 2)));
    assert s.members == [Synced(narrowed)] == [narrowed];
    assert s.members[0] == narrowed;
  }

  function Second(workspace: Id, user: Id, row: Id): Member { Member(row, workspace, user, Admin, Adding()) }

  /** The founder has brought in a second member who can bring people in. */
  function Paired(workspace: Id, one: Id, two: Id, a: Id, b: Id): History {
    Founded(workspace, one, a) + [Staffed(workspace, [FounderRow(workspace, one, a), Second(workspace, two, b)])]
  }

  lemma PairedIsReachable(workspace: Id, one: Id, two: Id, a: Id, b: Id)
    requires a != b && one != two
    ensures
      var step := AddStep(Person(one), Member(b, workspace, two, Plain, [MEMBERS_ADD]), 2);
      Next(Founded(workspace, one, a), step) == Paired(workspace, one, two, a, b)
  {
    hide FullSet, HoldsBoth, Adding, Granter, Normalize, CanAdminister;
    var sent := Member(b, workspace, two, Plain, [MEMBERS_ADD]);
    FounderGrants(workspace, one, a);
    AddingHolds();
    AddingIsHalf(sent.(permissions := Adding()));
    var founder := FounderRow(workspace, one, a);
    assert [founder] + [Second(workspace, two, b)] == [founder, Second(workspace, two, b)];
    OneCounted(founder, workspace);
  }

  lemma OneCounted(row: Member, workspace: Id)
    ensures Count([row], workspace) <= 1
  {
    assert [row][..0] == [];
  }

  lemma RemovalPasses(past: History, id: Id, at: nat)
    requires at < |past| && LoadedMember(past[at].state, id).Some?
    requires AdminCount(past[at].state.members, LoadedMember(past[at].state, id).value.workspace, id) > 0
    ensures Wanted(past, RemoveStep(id, at, at)) == Drop(id)
  {
    hide CanAdminister, AdminCount, FindRow;
  }

  /** Two who can bring people in are removed by requests that each saw the other:
      both removals pass their guard, and nobody is left who could restore access. */
  lemma BothLeave(workspace: Id, one: Id, two: Id, a: Id, b: Id)
    requires a != b && one != two
    ensures
      var past := Paired(workspace, one, two, a, b);
      var once := Next(past, RemoveStep(a, 3, 3));
      var twice := Next(once, RemoveStep(b, 3, 3));
      && Has(Now(past).members, workspace, CanAdminister) && Has(Now(once).members, workspace, CanAdminister)
      && Now(twice).members == [] && workspace in Now(twice).workspaces
  {
    hide FullSet, HoldsBoth, Adding, CanAdminister, AdminCount, Wanted;
    var past := Paired(workspace, one, two, a, b);
    var rows := Now(past).members;
    FounderIsSynced(workspace, one, a);
    AddingIsHalf(Second(workspace, two, b));
    assert Administers(rows[1], workspace, a) && Administers(rows[0], workspace, b);
    assert AdminCount(rows, workspace, a) > 0 && AdminCount(rows, workspace, b) > 0;
    RemovalPasses(past, a, 3);
    var once := Next(past, RemoveStep(a, 3, 3));
    assert once[3] == past[3];
    RemovalPasses(once, b, 3);
    assert Now(once).members == [rows[1]] && rows[1] == Now(once).members[0];
  }

  /** The permission a founder gave up comes back by a request whose granter was read
      before: what a circle holds is bounded by what it has held, not by what it holds. */
  lemma StaleGrantRegains(workspace: Id, user: Id, row: Id)
    ensures
      var narrow := UpdateStep(Person(user), Member(row, workspace, user, Admin, [MEMBERS_ADD]), 2, 2);
      var all := AllKeysUpTo(|Permissions()|);
      var regain := UpdateStep(Person(user), Member(row, workspace, user, Admin, all), 2, 3);
      var past := Next(Founded(workspace, user, row), narrow);
      !Has(Now(past).members, workspace, HoldsBoth) && Has(Now(Next(past, regain)).members, workspace, HoldsBoth)
  {
    hide FullSet, HoldsBoth, Adding, Granter, Normalize, CanAdminister, AdminCount, Permissions, AllKeysUpTo;
    NarrowedFounder(workspace, user, row);
    Narrowing(workspace, user, row);
    var all := AllKeysUpTo(|Permissions()|);
    var past := Founded(workspace, user, row)
                + [Staffed(workspace, [Member(row, workspace, user, Admin, Adding())])];
    var sent := Member(row, workspace, user, Admin, all);
    AllKeysKnown(|Permissions()|);
    FounderGrants(workspace, user, row);
    assert past[2] == Founded(workspace, user, row)[2];
    FullIsExpanded();
    FullGranterGrants(all);
    var founder := FounderRow(workspace, user, row);
    FounderIsSynced(workspace, user, row);
    var t := Next(past, UpdateStep(Person(user), sent, 2, 3));
    assert Now(t).members == [founder];
    assert Now(t).members[0] == founder;
  }

  lemma FullIsExpanded()
    ensures FullSet() == Expand(AllKeysUpTo(|Permissions()|))
  {
    hide Expand, Permissions, AllKeysUpTo;
  }

  lemma Narrowing(workspace: Id, user: Id, row: Id)
    ensures
      var sent := Member(row, workspace, user, Admin, [MEMBERS_ADD]);
      Next(Founded(workspace, user, row), UpdateStep(Person(user), sent, 2, 2))
      == Founded(workspace, user, row) + [Staffed(workspace, [sent.(permissions := Adding())])]
  {
    hide FullSet, HoldsBoth, Adding, Granter, Normalize, CanAdminister, AdminCount;
    var sent := Member(row, workspace, user, Admin, [MEMBERS_ADD]);
    FounderGrants(workspace, user, row);
    AddingHolds();
    var narrowed := sent.(permissions := Adding());
    AddingIsHalf(narrowed);
    var past := Founded(workspace, user, row);
    assert Wanted(past, UpdateStep(Person(user), sent, 2, 2)) == Replace(narrowed);
    assert [FounderRow(workspace, user, row)][0 := narrowed] == [narrowed];
    assert Apply(Now(past), Replace(narrowed)) == Staffed(workspace, [narrowed]).state;
  }

  /** The family on which a stored row passes its granter: an update that leaves no
      permissions and names the admin role passes whoever asks and whatever was read,
      and the row reads as the full set. */
  lemma EmptyGrantOfTheAdminRole(granter: seq<string>, others: nat, sent: Member)
    requires sent.permissions == [] && sent.role == Admin
    ensures UpdateGuard(granter, others, sent) == AddGuard(granter, sent) == Ok(sent)
    ensures MemberScopes(Synced(sent)) == FullSet()
  {
    hide FullSet, AllScopes, Known, Permissions, Expand;
    NothingExpands();
  }

  /** One person has founded two workspaces. */
  function Twice(w: Id, v: Id, user: Id, a: Id, b: Id): History {
    var first := [FounderRow(w, user, a)];
    var s := START.state.(workspaces := {w} + {v}, members := first);
    Founded(w, user, a)
    + [Moment(s.(founders := map[v := user]), map[]), Moment(s.(members := first + [FounderRow(v, user, b)]), map[])]
  }

  lemma TwiceIsReachable(w: Id, v: Id, user: Id, a: Id, b: Id)
    requires w != v && a != b
    ensures Next(Next(Founded(w, user, a), OpenStep(v, user)), FoundStep(v, b)) == Twice(w, v, user, a, b)
  {
    hide FoundWorkspace, FounderRow, Count, Next;
    var past := Founded(w, user, a);
    var begun := Next(past, OpenStep(v, user));
    FoundingNext(past, v, user, b);
    FoundingNext(begun, v, user, b);
    assert map[][v := user] == map[v := user];
    FounderPlace(w, user, a);
    NoneCounted(FounderRow(w, user, a), v);
    FounderIsStored(Now(begun), v, b);
    assert Now(begun).founders - {v} == map[];
  }

  lemma NoneCounted(row: Member, workspace: Id)
    ensures row.workspace != workspace ==> Count([row], workspace) == 0
  {
    assert [row][..0] == [];
  }

  /** The founder of two workspaces moves their row of the first into the second, for
      another person: each guard looks at the second alone, and the first has nobody. */
  lemma MovedFounder(w: Id, v: Id, user: Id, other: Id, a: Id, b: Id)
    requires w != v && user != other && a != b
    ensures
      var past := Twice(w, v, user, a, b);
      var step := UpdateStep(Person(user), Member(a, v, other, Plain, [MEMBERS_ADD]), 4, 4);
      && Has(Now(past).members, w, CanAdminister)
      && !Has(Now(Next(past, step)).members, w, CanAdminister)
  {
    hide FullSet, HoldsBoth, Adding, Granter, Normalize, CanAdminister, AdminCount;
    var past := Twice(w, v, user, a, b);
    var rows := Now(past).members;
    var sent := Member(a, v, other, Plain, [MEMBERS_ADD]);
    FounderIsSynced(w, user, a);
    FounderIsSynced(v, user, b);
    assert rows[0].workspace == w;
    assert Granter(Now(past), Person(user), v) == FullSet() by { SecondFounderGrants(past, v, user); }
    AddingHolds();
    AddingIsHalf(sent.(permissions := Adding()));
    var t := Now(Next(past, UpdateStep(Person(user), sent, 4, 4)));
    assert t.members == [Second(v, other, a), rows[1]];
  }

  lemma SecondFounderGrants(past: History, v: Id, user: Id)
    requires |Now(past).members| == 2 && Now(past).members[0].workspace != v
    requires Now(past).members[1].workspace == v && Now(past).members[1].user == user
    requires MemberScopes(Now(past).members[1]) == FullSet()
    ensures Granter(Now(past), Person(user), v) == FullSet()
  {
    hide FullSet, MemberScopes;
  }
}
