/** No circle of people and keys can widen what it holds by granting within itself,
    over every interleaving of requests. */
module Delegation {
  import opened Results
  import opened Catalogue
  import opened Grants
  import opened Surfaces
  import opened KeyReach
  import opened Membership
  import opened MembershipTheorems

  /** Somebody or some key of the circle holds the scope in the workspace, or an invite
      that one of them granted carries it. */
  ghost predicate Pool(m: Moment, workspace: Id, circle: iset<Principal>, scope: string) {
    || (exists i :: 0 <= i < |m.state.members| && RowHolds(m.state.members[i], workspace, circle, scope))
    || (exists id :: id in m.state.invites && id in m.makers
                     && InviteHolds(m.state.invites[id], m.makers[id], workspace, circle, scope))
    || (exists id :: id in m.state.keys && KeyHolds(id, m.state.keys[id], workspace, circle, scope))
  }

  ghost predicate RowHolds(row: Member, workspace: Id, circle: iset<Principal>, scope: string) {
    row.workspace == workspace && Person(row.user) in circle && scope in MemberScopes(row)
  }

  ghost predicate InviteHolds(invite: Invite, maker: Principal, workspace: Id, circle: iset<Principal>, scope: string) {
    invite.workspace == workspace && maker in circle && scope in invite.permissions
  }

  ghost predicate KeyHolds(id: Id, key: Key, workspace: Id, circle: iset<Principal>, scope: string) {
    key.workspace == workspace && ApiKey(id) in circle && scope in key.scopes
  }

  /** At some moment so far the circle held it. */
  ghost predicate Held(past: History, workspace: Id, circle: iset<Principal>, scope: string) {
    exists i :: 0 <= i < |past| && Pool(past[i], workspace, circle, scope)
  }

  // ------------------------------------------------------------------ what a write adds

  ghost predicate Adds(s: State, write: Write, workspace: Id, circle: iset<Principal>, scope: string) {
    match write
    case Store(row) => RowHolds(row, workspace, circle, scope)
    case Replace(row) => RowHolds(row, workspace, circle, scope)
    case PutInvite(_, invite, _, maker) => InviteHolds(invite, maker, workspace, circle, scope)
    case PutKey(id, key) => KeyHolds(id, key, workspace, circle, scope)
    case Found(w, row) => w in s.founders && RowHolds(FounderRow(w, s.founders[w], row), workspace, circle, scope)
    case _ => false
  }

  lemma SyncedHolds(row: Member, workspace: Id, circle: iset<Principal>, scope: string)
    ensures RowHolds(Synced(row), workspace, circle, scope) <==> RowHolds(row, workspace, circle, scope)
  {
    hide MemberScopes, Synced;
    SyncedRoleFollows(row);
    SyncedPlace(row);
  }

  /** Every row is one that was stored, or the one that is written. */
  lemma RowsAfter(s: State, write: Write, i: nat)
    requires i < |Apply(s, write).members|
    ensures
      var row := Apply(s, write).members[i];
      || row in s.members
      || (write.Store? && row == Synced(write.member)) || (write.Replace? && row == Synced(write.member))
      || (write.Found? && write.workspace in s.founders
          && row == Synced(FounderRow(write.workspace, s.founders[write.workspace], write.row)))
  {
    hide Synced, FindRow, FindMember, Count, Duplicates, FounderRow;
    if write.Drop? {
      var k := FindRow(s.members, write.id, 0);
      if k.Some? {
        assert Apply(s, write).members[i] == s.members[if i < k.value then i else i + 1];
      }
    }
  }

  lemma RowsAdd(m: Moment, write: Write, i: nat, workspace: Id, circle: iset<Principal>, scope: string)
    requires i < |Apply(m.state, write).members|
    requires RowHolds(Apply(m.state, write).members[i], workspace, circle, scope)
    ensures Pool(m, workspace, circle, scope) || Adds(m.state, write, workspace, circle, scope)
  {
    hide RowHolds, InviteHolds, KeyHolds, Apply, Synced, FounderRow;
    RowsAfter(m.state, write, i);
    if write.Store? || write.Replace? {
      SyncedHolds(write.member, workspace, circle, scope);
    } else if write.Found? && write.workspace in m.state.founders {
      var row := FounderRow(write.workspace, m.state.founders[write.workspace], write.row);
      SyncedHolds(row, workspace, circle, scope);
    }
  }

  lemma InvitesAfter(m: Moment, write: Write, id: Id)
    requires id in Commit(m, write).state.invites && id in Commit(m, write).makers
    ensures
      var invite, maker := Commit(m, write).state.invites[id], Commit(m, write).makers[id];
      || (id in m.state.invites && id in m.makers && invite == m.state.invites[id] && maker == m.makers[id])
      || (write.PutInvite? && invite == write.invite && maker == write.maker)
  {
    hide Synced, FindRow, FindMember, Count, Duplicates, FounderRow;
  }

  lemma KeysAfter(s: State, write: Write, id: Id)
    requires id in Apply(s, write).keys
    ensures
      || (id in s.keys && Apply(s, write).keys[id] == s.keys[id])
      || (write.PutKey? && write.id == id && Apply(s, write).keys[id] == write.key)
  {
    hide Synced, FindRow, FindMember, Count, Duplicates, FounderRow;
  }

  /** After a write the circle holds what it held, and what the write adds. */
  lemma CommitAdds(m: Moment, write: Write, workspace: Id, circle: iset<Principal>, scope: string)
    requires Pool(Commit(m, write), workspace, circle, scope)
    ensures Pool(m, workspace, circle, scope) || Adds(m.state, write, workspace, circle, scope)
  {
    hide RowHolds, InviteHolds, KeyHolds, Apply, FounderRow;
    var t := Commit(m, write);
    if i :| 0 <= i < |t.state.members| && RowHolds(t.state.members[i], workspace, circle, scope) {
      RowsAdd(m, write, i, workspace, circle, scope);
    } else if id :| id in t.state.invites && id in t.makers
                    && InviteHolds(t.state.invites[id], t.makers[id], workspace, circle, scope) {
      InvitesAfter(m, write, id);
    } else {
      var id :| id in t.state.keys && KeyHolds(id, t.state.keys[id], workspace, circle, scope);
      KeysAfter(m.state, write, id);
    }
  }

  // -------------------------------------------------------------- what a request adds

  /** A row without permissions is not stored as an admin's, unless by one who was seen
      to hold the full set. */
  ghost predicate FullyGranted(past: History, who: Principal, sent: Member, granterAt: nat) {
    sent.permissions == [] && sent.role == Admin ==>
      Within(FullSet(), Granter(Seen(past, granterAt), who, sent.workspace))
  }

  /** What a request gives to the circle in the workspace, the circle gives: a person's
      row is granted by one of them, an invite they accept was, and so a key. */
  ghost predicate Inside(past: History, step: Step, workspace: Id, circle: iset<Principal>) {
    match step
    case AddStep(who, sent, granterAt) =>
      sent.workspace == workspace && Person(sent.user) in circle ==>
        who in circle && FullyGranted(past, who, sent, granterAt)
    case UpdateStep(who, sent, granterAt, _) =>
      sent.workspace == workspace && Person(sent.user) in circle ==>
        who in circle && FullyGranted(past, who, sent, granterAt)
    case RedeemStep(id, user, _, _, inviteAt, _) =>
      var read := past[Back(past, inviteAt)];
      id in read.state.invites && read.state.invites[id].workspace == workspace && Person(user) in circle ==>
        id in read.makers && read.makers[id] in circle
    case KeyStep(who, id, at, _, _, _, _) => at == workspace && ApiKey(id) in circle ==> who in circle
    case FoundStep(at, _) =>
      !(at == workspace && at in Now(past).founders && Person(Now(past).founders[at]) in circle)
    case _ => true
  }

  lemma GranterHolds(past: History, at: nat, who: Principal, workspace: Id, circle: iset<Principal>, scope: string)
    requires who in circle && scope in Granter(Seen(past, at), who, workspace)
    ensures Held(past, workspace, circle, scope)
  {
    hide MemberScopes;
    var m := past[Back(past, at)];
    if who.Person? {
      var k := FindMember(m.state.members, workspace, who.id, 0);
      assert RowHolds(m.state.members[k.value], workspace, circle, scope);
    } else {
      assert KeyHolds(who.id, m.state.keys[who.id], workspace, circle, scope);
    }
    assert Pool(m, workspace, circle, scope);
  }

  lemma InviteWasHeld(past: History, at: nat, id: Id, workspace: Id, circle: iset<Principal>, scope: string)
    requires
      var m := past[Back(past, at)];
      && id in m.state.invites && id in m.makers
      && InviteHolds(m.state.invites[id], m.makers[id], workspace, circle, scope)
    ensures Held(past, workspace, circle, scope)
  {
    hide RowHolds, InviteHolds, KeyHolds;
    assert Pool(past[Back(past, at)], workspace, circle, scope);
  }

  lemma RowWithin(granter: seq<string>, sent: Member)
    ensures AddGuard(granter, sent).Ok? && (sent.permissions == [] && sent.role == Admin ==> Within(FullSet(), granter))
            ==> Within(MemberScopes(AddGuard(granter, sent).value), granter)
  {
    hide Normalize, FullSet, Synced, MemberScopes;
    if AddGuard(granter, sent).Ok? {
      StoredRowWithinGranter(granter, sent.permissions, AddGuard(granter, sent).value);
      SyncedRoleFollows(AddGuard(granter, sent).value);
    }
  }

  lemma UpdateIsAdd(granter: seq<string>, others: nat, sent: Member)
    ensures UpdateGuard(granter, others, sent).Ok? ==> UpdateGuard(granter, others, sent) == AddGuard(granter, sent)
  {
    hide Normalize, CanAdminister;
  }

  lemma MemberWithin(past: History, step: Step, workspace: Id, circle: iset<Principal>, scope: string)
    requires step.AddStep? || step.UpdateStep?
    requires Inside(past, step, workspace, circle) && Adds(Now(past), Wanted(past, step), workspace, circle, scope)
    ensures Held(past, workspace, circle, scope)
  {
    hide Granter, AddGuard, UpdateGuard, MemberScopes, FullSet, Held, Seen, AdminCount;
    var granter := Granter(Seen(past, step.granterAt), step.who, step.member.workspace);
    if step.UpdateStep? {
      var others := AdminCount(Seen(past, step.countAt).members, step.member.workspace, step.member.id);
      UpdateIsAdd(granter, others, step.member);
    }
    RowWithin(granter, step.member);
    GuardKeepsPlace(granter, step.member);
    GranterHolds(past, step.granterAt, step.who, workspace, circle, scope);
  }

  lemma GuardKeepsPlace(granter: seq<string>, sent: Member)
    ensures
      AddGuard(granter, sent).Ok? ==>
        AddGuard(granter, sent).value.workspace == sent.workspace && AddGuard(granter, sent).value.user == sent.user
  {
    hide Normalize;
  }

  lemma InviteWithin(past: History, step: Step, workspace: Id, circle: iset<Principal>, scope: string)
    requires step.InviteStep? || step.ReinviteStep?
    requires Adds(Now(past), Wanted(past, step), workspace, circle, scope)
    ensures Held(past, workspace, circle, scope)
  {
    hide Granter, Normalize, Held, Seen;
    var granter := Granter(Seen(past, step.granterAt), step.who, step.invite.workspace);
    NormalizeGrants(granter, step.invite.permissions);
    GranterHolds(past, step.granterAt, step.who, workspace, circle, scope);
  }

  lemma KeyWithin(past: History, step: Step, workspace: Id, circle: iset<Principal>, scope: string)
    requires step.KeyStep?
    requires Inside(past, step, workspace, circle) && Adds(Now(past), Wanted(past, step), workspace, circle, scope)
    ensures Held(past, workspace, circle, scope)
  {
    hide Granter, Normalize, Held, Seen, Reach, Rest, Asked, Repeats;
    var granter := Granter(Seen(past, step.granterAt), step.who, step.workspace);
    NormalizeGrants(granter, Rest(step.requested));
    GranterHolds(past, step.granterAt, step.who, workspace, circle, scope);
  }

  lemma RedeemWithin(past: History, step: Step, workspace: Id, circle: iset<Principal>, scope: string)
    requires step.RedeemStep? && Kept(past)
    requires Inside(past, step, workspace, circle) && Adds(Now(past), Wanted(past, step), workspace, circle, scope)
    ensures Held(past, workspace, circle, scope)
  {
    hide Held, FindMember, InviterCanStillInvite, Kept, FullSet, Merge, InviteHolds;
    var read := past[Back(past, step.inviteAt)];
    InviteGrants(past, step.inviteAt, step.id);
    assert step.id in read.state.invites;
    AcceptedHolds(read.state.invites[step.id], step.user, step.row, workspace, circle, scope);
    InviteMade(read, step.id, workspace, circle, scope);
    InviteWasHeld(past, step.inviteAt, step.id, workspace, circle, scope);
  }

  lemma InviteGrants(past: History, at: nat, id: Id)
    requires Kept(past)
    ensures
      var invites := past[Back(past, at)].state.invites;
      id in invites ==> invites[id].permissions != []
  {
    hide RowsKept, KeysOutsideVault;
    assert Inv(past[Back(past, at)].state);
  }

  lemma AcceptedHolds(invite: Invite, user: Id, row: Id, workspace: Id, circle: iset<Principal>, scope: string)
    requires invite.permissions != []
    requires RowHolds(Member(row, invite.workspace, user, invite.role, Merge([], invite.permissions)),
                      workspace, circle, scope)
    ensures scope in invite.permissions && invite.workspace == workspace && Person(user) in circle
  {
    hide FullSet;
    assert invite.permissions[0] in Merge([], invite.permissions);
  }

  lemma InviteMade(m: Moment, id: Id, workspace: Id, circle: iset<Principal>, scope: string)
    requires id in m.state.invites && id in m.makers && m.makers[id] in circle
    requires scope in m.state.invites[id].permissions && m.state.invites[id].workspace == workspace
    ensures InviteHolds(m.state.invites[id], m.makers[id], workspace, circle, scope)
  {
  }

  lemma WantedWithin(past: History, step: Step, workspace: Id, circle: iset<Principal>, scope: string)
    requires Kept(past) && Inside(past, step, workspace, circle)
    requires Adds(Now(past), Wanted(past, step), workspace, circle, scope)
    ensures Held(past, workspace, circle, scope)
  {
    hide Kept, Held, RowHolds, InviteHolds, KeyHolds, WantsAdd, WantsUpdate, WantsInvite, WantsRedeem, WantsKey;
    hide Inside, FounderRow;
    match step
    case AddStep(_, _, _) => MemberWithin(past, step, workspace, circle, scope);
    case UpdateStep(_, _, _, _) => MemberWithin(past, step, workspace, circle, scope);
    case InviteStep(_, _, _, _) => InviteWithin(past, step, workspace, circle, scope);
    case ReinviteStep(_, _, _, _) => InviteWithin(past, step, workspace, circle, scope);
    case RedeemStep(_, _, _, _, _, _) => RedeemWithin(past, step, workspace, circle, scope);
    case KeyStep(_, _, _, _, _, _, _) => KeyWithin(past, step, workspace, circle, scope);
    case FoundStep(at, row) => NotFounded(past, at, row, workspace, circle, scope);
    case _ =>
  }

  lemma NotFounded(past: History, at: Id, row: Id, workspace: Id, circle: iset<Principal>, scope: string)
    requires Inside(past, FoundStep(at, row), workspace, circle)
    ensures !Adds(Now(past), Found(at, row), workspace, circle, scope)
  {
    hide FullSet, MemberScopes;
  }

  // ------------------------------------------------------------------------ the bound

  lemma StepWithin(past: History, step: Step, workspace: Id, circle: iset<Principal>, scope: string)
    requires Kept(past) && Inside(past, step, workspace, circle)
    requires Held(Next(past, step), workspace, circle, scope)
    ensures Held(past, workspace, circle, scope)
  {
    hide Kept, Pool, Wanted, Commit, Inside, Adds;
    var t := Next(past, step);
    var i :| 0 <= i < |t| && Pool(t[i], workspace, circle, scope);
    if i == |past| {
      CommitAdds(Present(past), Wanted(past, step), workspace, circle, scope);
      if Adds(Now(past), Wanted(past, step), workspace, circle, scope) {
        WantedWithin(past, step, workspace, circle, scope);
      }
    }
  }

  ghost predicate AllInside(past: History, steps: seq<Step>, workspace: Id, circle: iset<Principal>)
    decreases |steps|
  {
    steps != [] ==>
      Inside(past, steps[0], workspace, circle) && AllInside(Next(past, steps[0]), steps[1..], workspace, circle)
  }

  /** For any circle of people and keys: where over a run all that any of them is given
      in a workspace is given by one of them, they never come to hold together, in their
      rows, their keys and the invites they granted, a scope that none of them had held
      before; however old the state was that each request's hooks read. */
  lemma {:induction false} NoEscalation(past: History, steps: seq<Step>, workspace: Id, circle: iset<Principal>,
                                        scope: string)
    requires Kept(past) && AllInside(past, steps, workspace, circle)
    ensures Held(Run(past, steps), workspace, circle, scope) <==> Held(past, workspace, circle, scope)
    decreases |steps|
  {
    hide Kept, Held, Next, Inside;
    if steps != [] {
      var t := Next(past, steps[0]);
      StepKeeps(past, steps[0]);
      NoEscalation(t, steps[1..], workspace, circle, scope);
      if Held(t, workspace, circle, scope) { StepWithin(past, steps[0], workspace, circle, scope); }
      if Held(past, workspace, circle, scope) { HeldStays(past, steps[0], workspace, circle, scope); }
    }
  }

  lemma HeldStays(past: History, step: Step, workspace: Id, circle: iset<Principal>, scope: string)
    requires Held(past, workspace, circle, scope)
    ensures Held(Next(past, step), workspace, circle, scope)
  {
    hide Pool, Commit, Wanted;
    var i :| 0 <= i < |past| && Pool(past[i], workspace, circle, scope);
    assert Next(past, step)[i] == past[i];
  }

  /** Every invite has one who granted what it carries. */
  ghost predicate InvitesAreMade(past: History) {
    forall i :: 0 <= i < |past| ==> past[i].state.invites.Keys <= past[i].makers.Keys
  }

  lemma InvitesAreMadeStep(past: History, step: Step)
    requires InvitesAreMade(past)
    ensures InvitesAreMade(Next(past, step))
  {
    hide Synced, FindRow, FindMember, Count, Duplicates, FounderRow, Wanted;
  }

  lemma {:induction false} InvitesAreMadeThroughout(past: History, steps: seq<Step>)
    requires InvitesAreMade(past)
    ensures InvitesAreMade(Run(past, steps))
    decreases |steps|
  {
    hide InvitesAreMade, Next;
    if steps != [] {
      InvitesAreMadeStep(past, steps[0]);
      InvitesAreMadeThroughout(Next(past, steps[0]), steps[1..]);
    }
  }
}
