/** Attestations and the positions their credentials hold in the status list:
    accepting an offer, moving a credential to another identity, editing and
    deleting (cmd/revoked/routes/attestations.go, attestationReissue.go,
    hooks/attestations.go, services/attestations.go).

    The database is a map of rows and a sequence of positions in the order they
    were saved. A transaction is one step. */
module Attestations {
  import opened Results

  datatype Id = Id(text: string)

  datatype Fingerprint = Fingerprint(hex: string)

  /** The empty fingerprint: an offer made for nobody in particular. */
  const NOBODY: Fingerprint := Fingerprint("")

  datatype Status = Offered | Active | Revoked

  datatype Reason = Unstated | Manual | MembershipEnded | KeyCompromise | Deleted | OtherReason(text: string)

  datatype Attestation = Attestation(status: Status, subject: Fingerprint, revokedAt: nat, reason: Reason)

  datatype Position = Position(idx: nat, attestation: Id, revoked: bool, revokedAt: nat)

  /** What a credential names: its place in the list, and whom it is about. */
  datatype Credential = Credential(idx: nat, holder: Fingerprint)

  datatype Refusal =
    | Missing | OfferRevoked | OfferClaimed | OfferMismatch
    | CredentialRevoked | ReissueStale | NoFreePosition

  type Outcome<+T> = Result<T, Refusal>

  datatype Db = Db(rows: map<Id, Attestation>, positions: seq<Position>)

  const MAX_ATTEMPTS: nat := 64

  // ------------------------------------------------------- the status list rows

  function RevokePosition(p: Position, now: nat): Position {
    if p.revoked then p else p.(revoked := true, revokedAt := now)
  }

  function RevokeAll(ps: seq<Position>, id: Id, now: nat): (r: seq<Position>)
    ensures |r| == |ps|
    ensures forall i :: 0 <= i < |ps| ==> r[i] == if ps[i].attestation == id then RevokePosition(ps[i], now) else ps[i]
  {
    seq(|ps|, i requires 0 <= i < |ps| =>
      if ps[i].attestation == id then RevokePosition(ps[i], now) else ps[i])
  }

  predicate Taken(ps: seq<Position>, idx: nat) {
    exists i :: 0 <= i < |ps| && ps[i].idx == idx
  }

  /** The first random draw no position has, of the attempts allowed. */
  function FirstFree(ps: seq<Position>, draws: seq<nat>, attempts: nat): (r: Option<nat>)
    ensures r.Some? ==> !Taken(ps, r.value)
  {
    if draws == [] || attempts == 0 then None
    else if Taken(ps, draws[0]) then FirstFree(ps, draws[1..], attempts - 1)
    else Some(draws[0])
  }

  function AllocatePosition(ps: seq<Position>, id: Id, draws: seq<nat>): (seq<Position>, Option<nat>) {
    match FirstFree(ps, draws, MAX_ATTEMPTS)
    case None => (ps, None)
    case Some(idx) => (ps + [Position(idx, id, false, 0)], Some(idx))
  }

  /** The first unrevoked position of an attestation, from k on. */
  function Standing(ps: seq<Position>, id: Id, k: nat): (r: Option<nat>)
    requires k <= |ps|
    ensures r.None? ==> forall i :: k <= i < |ps| && ps[i].attestation == id ==> ps[i].revoked
    ensures r.Some? ==> k <= r.value < |ps| && ps[r.value].attestation == id && !ps[r.value].revoked
    decreases |ps| - k
  {
    if k == |ps| then None
    else if ps[k].attestation == id && !ps[k].revoked then Some(k)
    else Standing(ps, id, k + 1)
  }

  /** The last of an attestation's positions, among the first k. */
  function Latest(ps: seq<Position>, id: Id, k: nat): (r: Option<nat>)
    requires k <= |ps|
    ensures r.None? ==> forall i :: 0 <= i < k ==> ps[i].attestation != id
    ensures r.Some? ==> r.value < k && ps[r.value].attestation == id
  {
    if k == 0 then None
    else if ps[k - 1].attestation == id then Some(k - 1)
    else Latest(ps, id, k - 1)
  }

  /** The position an attestation has: its unrevoked one, failing that its last,
      failing that a row one. */
  function AllocateStatus(ps: seq<Position>, id: Id, draws: seq<nat>): (seq<Position>, Option<nat>) {
    var standing := Standing(ps, id, 0);
    if standing.Some? then (ps, Some(ps[standing.value].idx))
    else
      var latest := Latest(ps, id, |ps|);
      if latest.Some? then (ps, Some(ps[latest.value].idx))
      else AllocatePosition(ps, id, draws)
  }

  function RenewStatus(ps: seq<Position>, id: Id, now: nat, draws: seq<nat>): (seq<Position>, Option<nat>) {
    AllocatePosition(RevokeAll(ps, id, now), id, draws)
  }

  function PositionAt(ps: seq<Position>, idx: nat): (r: Option<Position>)
    ensures r.None? <==> !Taken(ps, idx)
    ensures r.Some? ==> r.value in ps && r.value.idx == idx
  {
    if ps == [] then None
    else if ps[0].idx == idx then Some(ps[0])
    else
      assert Taken(ps, idx) ==> Taken(ps[1..], idx) by {
        if Taken(ps, idx) {
          var i :| 0 <= i < |ps| && ps[i].idx == idx;
          assert ps[1..][i - 1] == ps[i];
        }
      }
      PositionAt(ps[1..], idx)
  }

  // --------------------------------------------------------------- transactions

  function CreateOffer(db: Db, id: Id, bound: Fingerprint): Db {
    if id in db.rows then db
    else db.(rows := db.rows[id := Attestation(Offered, bound, 0, Unstated)])
  }

  /** The transaction that accepts an offer and issues the credential. */
  function Claim(db: Db, id: Id, who: Fingerprint, draws: seq<nat>): (Db, Outcome<Credential>) {
    if id !in db.rows then (db, Refused(Missing))
    else
      var row := db.rows[id];
      if row.status == Revoked then (db, Refused(OfferRevoked))
      else if row.status == Active && row.subject != who then (db, Refused(OfferClaimed))
      else if row.status == Offered && row.subject != NOBODY && row.subject != who then (db, Refused(OfferMismatch))
      else
        var rows := if row.status == Active then db.rows else db.rows[id := row.(status := Active, subject := who)];
        var (ps, idx) := AllocateStatus(db.positions, id, draws);
        if idx.None? then (db, Refused(NoFreePosition))
        else (Db(rows, ps), Ok(Credential(idx.value, who)))
  }

  datatype Look = Look(id: Id, again: bool)

  /** standingAttestation: the attestation a credential stands for, and whether it
      was already moved to `next`. */
  function FirstLook(db: Db, stated: Credential, next: Fingerprint): Outcome<Look> {
    var position := PositionAt(db.positions, stated.idx);
    if position.None? || position.value.attestation !in db.rows then Refused(CredentialRevoked)
    else
      var id := position.value.attestation;
      var row := db.rows[id];
      if row.status != Active then Refused(CredentialRevoked)
      else if !position.value.revoked && row.subject == stated.holder then Ok(Look(id, false))
      else if position.value.revoked && row.subject == next then Ok(Look(id, true))
      else Refused(CredentialRevoked)
  }

  /** The transaction that moves a credential, or hands the moved one out again. */
  function Reissue(db: Db, look: Look, stated: Credential, next: Fingerprint, now: nat, draws: seq<nat>)
    : (Db, Outcome<Credential>)
  {
    if look.id !in db.rows then (db, Refused(Missing))
    else
      var row := db.rows[look.id];
      if row.status != Active then (db, Refused(ReissueStale))
      else if look.again then
        if row.subject != next then (db, Refused(ReissueStale))
        else
          var (ps, idx) := AllocateStatus(db.positions, look.id, draws);
          if idx.None? then (db, Refused(NoFreePosition))
          else (db.(positions := ps), Ok(Credential(idx.value, next)))
      else if row.subject != stated.holder then (db, Refused(ReissueStale))
      else
        var position := PositionAt(db.positions, stated.idx);
        if position.None? || position.value.revoked || position.value.attestation != look.id then
          (db, Refused(ReissueStale))
        else
          var (ps, idx) := RenewStatus(db.positions, look.id, now, draws);
          if idx.None? then (db, Refused(NoFreePosition))
          else (Db(db.rows[look.id := row.(subject := next)], ps), Ok(Credential(idx.value, next)))
  }

  /** applyAttestationTransition: what an update request makes of the row it loaded. */
  function Transition(loaded: Attestation, wanted: Status, reason: Reason, now: nat): Attestation {
    if loaded.status == Revoked then loaded
    else if wanted == Revoked then
      loaded.(status := Revoked, revokedAt := now,
              reason := if reason in {Manual, MembershipEnded, KeyCompromise, Deleted} then reason else Manual)
    else loaded.(reason := Unstated)
  }

  /** An update request, from the row it loaded: every column is written back, and
      a revoked row's bits are set in the same transaction. */
  function Edit(db: Db, id: Id, loaded: Attestation, wanted: Status, reason: Reason, now: nat): Db {
    var row := Transition(loaded, wanted, reason, now);
    Db(if id in db.rows then db.rows[id := row] else db.rows,
       if row.status == Revoked then RevokeAll(db.positions, id, now) else db.positions)
  }

  function Delete(db: Db, id: Id, now: nat): Db {
    if id !in db.rows then db
    else Db(db.rows - {id}, RevokeAll(db.positions, id, now))
  }

  // ----------------------------------------------------------- the source's form

  /** A row in an update request: its fields as sent, and the row as loaded. */
  class RequestRecord {
    const original: Attestation
    var status: Status
    var revokedAt: nat
    var reason: Reason

    constructor (original: Attestation, wanted: Status, reason: Reason)
      ensures this.original == original && status == wanted
      ensures revokedAt == original.revokedAt && this.reason == reason
    {
      this.original := original;
      status := wanted;
      revokedAt := original.revokedAt;
      this.reason := reason;
    }

    /** The row as it will be saved: what it states and whom it is for are fixed. */
    function Value(): Attestation
      reads this
    {
      Attestation(status, original.subject, revokedAt, reason)
    }

    method ApplyTransition(now: nat)
      requires revokedAt == original.revokedAt
      modifies this
      ensures Value() == Transition(original, old(status), old(reason), now)
    {
      if original.status == Revoked {
        status := Revoked;
        revokedAt := original.revokedAt;
        reason := original.reason;
      } else if status == Revoked {
        revokedAt := now;
        if reason !in {Manual, MembershipEnded, KeyCompromise, Deleted} {
          reason := Manual;
        }
      } else {
        status := original.status;
        reason := Unstated;
      }
    }
  }

  class Store {
    var rows: map<Id, Attestation>
    var positions: seq<Position>

    constructor ()
      ensures Value() == Db(map[], [])
    {
      rows := map[];
      positions := [];
    }

    function Value(): Db
      reads this
    {
      Db(rows, positions)
    }

    method RevokeAttestationStatus(id: Id, now: nat)
      modifies this
      ensures Value() == Db(old(rows), RevokeAll(old(positions), id, now))
    {
      for i := 0 to |positions|
        invariant rows == old(rows) && |positions| == |old(positions)|
        invariant forall j :: i <= j < |positions| ==> positions[j] == old(positions)[j]
        invariant forall j :: 0 <= j < i ==> positions[j] == RevokeAll(old(positions), id, now)[j]
      {
        if positions[i].attestation == id && !positions[i].revoked {
          positions := positions[i := positions[i].(revoked := true, revokedAt := now)];
        }
      }
    }

    /** The random draws are a parameter. */
    method AllocateStatusPosition(id: Id, draws: seq<nat>) returns (idx: Option<nat>)
      modifies this
      ensures (positions, idx) == AllocatePosition(old(positions), id, draws) && rows == old(rows)
    {
      var taken := set i | 0 <= i < |positions| :: positions[i].idx;
      assert forall d :: d in taken <==> Taken(positions, d);
      var attempt := 0;
      while attempt < MAX_ATTEMPTS && attempt < |draws|
        invariant 0 <= attempt <= MAX_ATTEMPTS && attempt <= |draws|
        invariant FirstFree(positions, draws, MAX_ATTEMPTS)
               == FirstFree(positions, draws[attempt..], MAX_ATTEMPTS - attempt)
      {
        var candidate := draws[attempt];
        assert draws[attempt..][1..] == draws[attempt + 1..];
        if candidate !in taken {
          positions := positions + [Position(candidate, id, false, 0)];
          return Some(candidate);
        }
        attempt := attempt + 1;
      }
      return None;
    }

    method AllocateAttestationStatus(id: Id, draws: seq<nat>) returns (idx: Option<nat>)
      modifies this
      ensures (positions, idx) == AllocateStatus(old(positions), id, draws) && rows == old(rows)
    {
      var latest := None;
      for i := 0 to |positions|
        invariant Standing(positions, id, 0) == Standing(positions, id, i)
        invariant latest == Latest(positions, id, i)
      {
        if positions[i].attestation == id {
          if !positions[i].revoked {
            return Some(positions[i].idx);
          }
          latest := Some(i);
        }
      }
      if latest.Some? {
        return Some(positions[latest.value].idx);
      }
      idx := AllocateStatusPosition(id, draws);
    }

    method RenewAttestationStatus(id: Id, now: nat, draws: seq<nat>) returns (idx: Option<nat>)
      modifies this
      ensures (positions, idx) == RenewStatus(old(positions), id, now, draws) && rows == old(rows)
    {
      RevokeAttestationStatus(id, now);
      idx := AllocateStatusPosition(id, draws);
    }

    method ClaimOffer(id: Id, who: Fingerprint, draws: seq<nat>) returns (r: Outcome<Credential>)
      modifies this
      ensures (Value(), r) == Claim(old(Value()), id, who, draws)
    {
      var rowsBefore, positionsBefore := rows, positions;
      if id !in rows {
        return Refused(Missing);
      }
      var row := rows[id];
      match row.status {
        case Revoked =>
          return Refused(OfferRevoked);
        case Active =>
          if row.subject != who {
            return Refused(OfferClaimed);
          }
        case Offered =>
          if row.subject != NOBODY && row.subject != who {
            return Refused(OfferMismatch);
          }
          rows := rows[id := row.(status := Active, subject := who)];
      }
      var idx := AllocateAttestationStatus(id, draws);
      if idx.None? {
        rows, positions := rowsBefore, positionsBefore;
        return Refused(NoFreePosition);
      }
      return Ok(Credential(idx.value, who));
    }

    method StandingAttestation(stated: Credential, next: Fingerprint) returns (r: Outcome<Look>)
      ensures r == FirstLook(Value(), stated, next)
    {
      var position := PositionAt(positions, stated.idx);
      if position.None? {
        return Refused(CredentialRevoked);
      }
      var id := position.value.attestation;
      if id !in rows || rows[id].status != Active {
        return Refused(CredentialRevoked);
      }
      var revoked, subject := position.value.revoked, rows[id].subject;
      if !revoked && subject == stated.holder {
        return Ok(Look(id, false));
      }
      if revoked && subject == next {
        return Ok(Look(id, true));
      }
      return Refused(CredentialRevoked);
    }

    method ReissueCredential(look: Look, stated: Credential, next: Fingerprint, now: nat, draws: seq<nat>)
      returns (r: Outcome<Credential>)
      modifies this
      ensures (Value(), r) == Reissue(old(Value()), look, stated, next, now, draws)
    {
      var rowsBefore, positionsBefore := rows, positions;
      if look.id !in rows {
        return Refused(Missing);
      }
      var row := rows[look.id];
      if row.status != Active {
        return Refused(ReissueStale);
      }
      var idx;
      if look.again {
        if row.subject != next {
          return Refused(ReissueStale);
        }
        idx := AllocateAttestationStatus(look.id, draws);
      } else {
        if row.subject != stated.holder {
          return Refused(ReissueStale);
        }
        var position := PositionAt(positions, stated.idx);
        if position.None? || position.value.revoked || position.value.attestation != look.id {
          return Refused(ReissueStale);
        }
        idx := RenewAttestationStatus(look.id, now, draws);
        row := row.(subject := next);
        rows := rows[look.id := row];
      }
      if idx.None? {
        rows, positions := rowsBefore, positionsBefore;
        return Refused(NoFreePosition);
      }
      return Ok(Credential(idx.value, next));
    }

    method UpdateAttestation(id: Id, loaded: Attestation, wanted: Status, reason: Reason, now: nat)
      modifies this
      ensures Value() == Edit(old(Value()), id, loaded, wanted, reason, now)
    {
      var rec := new RequestRecord(loaded, wanted, reason);
      rec.ApplyTransition(now);
      if id in rows {
        rows := rows[id := rec.Value()];
      }
      if rec.status == Revoked {
        RevokeAttestationStatus(id, now);
      }
    }

    method DeleteAttestation(id: Id, now: nat)
      modifies this
      ensures Value() == Delete(old(Value()), id, now)
    {
      if id in rows {
        rows := rows - {id};
        RevokeAttestationStatus(id, now);
      }
    }
  }
}
