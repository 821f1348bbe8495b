/** Identities: issued, revoked once and for all, and answered for after they are gone
    (cmd/revoked/hooks/identities.go, cmd/revoked/services/identities.go).

    The hooks of a request run outside the transaction of its save. What a hook read,
    the demotion of the other identities and the save are therefore apart. A save
    writes every column of its row, and nothing but the fingerprint's unique index
    keeps a request from sending another fingerprint or workspace. */
module Identities {
  import opened Results

  datatype Id = Id(text: string)

  datatype Fingerprint = Fingerprint(hex: string)

  /** Blank only appears on rows from before the status existed. */
  datatype Status = Blank | Active | Revoked

  /** The columns a request may send. */
  datatype Columns = Columns(status: Status, revokedAt: nat, reason: string, isPrimary: bool,
                             sealedKey: string, keyEpoch: nat, keyScope: string)

  datatype Identity = Identity(id: Id, user: Id, workspace: Id, fingerprint: Fingerprint, domain: string,
                               columns: Columns)

  datatype Tombstone = Tombstone(revokedAt: nat, reason: string, domain: string)

  datatype Db = Db(rows: seq<Identity>, tombstones: map<Fingerprint, Tombstone>)

  /** What the server says of a fingerprint. */
  datatype Answer = Unknown | Stands | RevokedAt(at: nat, reason: string)

  const NOBODY: Id := Id("")

  predicate IsActive(c: Columns) { c.status == Blank || c.status == Active }

  function ClearKey(c: Columns): Columns { c.(sealedKey := "", keyEpoch := 0, keyScope := "") }

  predicate KeyCleared(c: Columns) { c.sealedKey == "" && c.keyEpoch == 0 && c.keyScope == "" }

  // ----------------------------------------------------------------------- finding

  function FindRow(rows: seq<Identity>, id: Id, k: nat): (r: Option<nat>)
    requires k <= |rows|
    ensures r.Some? ==> k <= r.value < |rows| && rows[r.value].id == id
    ensures r.None? ==> forall i :: k <= i < |rows| ==> rows[i].id != id
    decreases |rows| - k
  {
    if k == |rows| then None else if rows[k].id == id then Some(k) else FindRow(rows, id, k + 1)
  }

  function FindFingerprint(rows: seq<Identity>, fp: Fingerprint, k: nat): (r: Option<nat>)
    requires k <= |rows|
    ensures r.Some? ==> k <= r.value < |rows| && rows[r.value].fingerprint == fp
    ensures r.None? ==> forall i :: k <= i < |rows| ==> rows[i].fingerprint != fp
    decreases |rows| - k
  {
    if k == |rows| then None
    else if rows[k].fingerprint == fp then Some(k) else FindFingerprint(rows, fp, k + 1)
  }

  function AnswerOf(c: Columns): Answer {
    if IsActive(c) then Stands else RevokedAt(c.revokedAt, c.reason)
  }

  function Buried(tombstones: map<Fingerprint, Tombstone>, fp: Fingerprint): Answer {
    if fp in tombstones then RevokedAt(tombstones[fp].revokedAt, tombstones[fp].reason) else Unknown
  }

  /** The row answers while it exists, the tombstone after it. */
  function Lookup(db: Db, fp: Fingerprint): Answer {
    var k := FindFingerprint(db.rows, fp, 0);
    if fp.hex == "" then Unknown
    else if k.Some? then AnswerOf(db.rows[k.value].columns)
    else Buried(db.tombstones, fp)
  }

  // ---------------------------------------------------------------------- requests

  /** What the update hook makes of the columns a request sends, given those it read. */
  function Transition(stored: Columns, sent: Columns, now: nat): Columns {
    if !IsActive(stored) then
      ClearKey(sent.(status := Revoked, revokedAt := stored.revokedAt, reason := stored.reason, isPrimary := false))
    else if !IsActive(sent) then
      var reason := if sent.reason == "" then "manual" else sent.reason;
      ClearKey(sent.(revokedAt := now, reason := reason, isPrimary := false))
    else sent
  }

  /** A hook that finds no row leaves the columns alone. */
  function HookColumns(original: Option<Columns>, sent: Columns, now: nat): Columns {
    if original.None? then sent else Transition(original.value, sent, now)
  }

  function StoredColumns(rows: seq<Identity>, id: Id): Option<Columns> {
    var k := FindRow(rows, id, 0);
    if k.None? then None else Some(rows[k.value].columns)
  }

  function NewIdentity(id: Id, user: Id, workspace: Id, fp: Fingerprint, domain: string, isPrimary: bool): Identity {
    Identity(id, user, workspace, fp, domain, Columns(Active, 0, "", isPrimary, "", 0, ""))
  }

  predicate Rivals(row: Identity, user: Id, workspace: Id, except: Option<Id>) {
    row.user == user && row.workspace == workspace && row.columns.isPrimary && except != Some(row.id)
  }

  /** Clears the primary mark on the person's other identities in the workspace. */
  function Demote(rows: seq<Identity>, row: Identity, except: Option<Id>): (r: seq<Identity>)
    ensures |r| == |rows|
    ensures forall i :: 0 <= i < |rows| ==>
              r[i] == if row.columns.isPrimary && row.user != NOBODY && row.workspace != NOBODY
                         && Rivals(rows[i], row.user, row.workspace, except)
                      then rows[i].(columns := rows[i].columns.(isPrimary := false)) else rows[i]
  {
    seq(|rows|, i requires 0 <= i < |rows| =>
      if row.columns.isPrimary && row.user != NOBODY && row.workspace != NOBODY
         && Rivals(rows[i], row.user, row.workspace, except)
      then rows[i].(columns := rows[i].columns.(isPrimary := false)) else rows[i])
  }

  /** The index of the fingerprint refuses a save beside another row that has it. */
  predicate Taken(rows: seq<Identity>, fp: Fingerprint, except: Option<Id>) {
    exists i :: 0 <= i < |rows| && rows[i].fingerprint == fp && except != Some(rows[i].id)
  }

  predicate Inserts(rows: seq<Identity>, row: Identity) {
    FindRow(rows, row.id, 0).None? && !Taken(rows, row.fingerprint, None)
  }

  function Insert(rows: seq<Identity>, row: Identity): seq<Identity> {
    if Inserts(rows, row) then rows + [row] else rows
  }

  predicate Overwrites(rows: seq<Identity>, row: Identity) {
    FindRow(rows, row.id, 0).Some? && !Taken(rows, row.fingerprint, Some(row.id))
  }

  /** Writes every column over the row of that id, or none where it is gone. */
  function Overwrite(rows: seq<Identity>, row: Identity): seq<Identity> {
    if Overwrites(rows, row) then rows[FindRow(rows, row.id, 0).value := row] else rows
  }

  /** The first tombstone wins. */
  function Bury(tombstones: map<Fingerprint, Tombstone>, fp: Fingerprint, domain: string, reason: string, now: nat)
    : map<Fingerprint, Tombstone>
  {
    if fp.hex == "" || fp in tombstones then tombstones
    else tombstones[fp := Tombstone(now, if reason == "" then "deleted" else reason, domain)]
  }

  function Without(rows: seq<Identity>, id: Id): seq<Identity> {
    var k := FindRow(rows, id, 0);
    if k.None? then rows else rows[..k.value] + rows[k.value + 1..]
  }

  /** Removes the row of an id and buries the fingerprint the request had loaded. */
  function Delete(db: Db, loaded: Identity, now: nat): Db {
    Db(Without(db.rows, loaded.id),
       Bury(db.tombstones, loaded.fingerprint, loaded.domain, loaded.columns.reason, now))
  }

  predicate Leaving(row: Identity, user: Id, workspace: Id) {
    row.user == user && row.workspace == workspace && row.columns.status != Revoked
  }

  function Ended(c: Columns, reason: string, now: nat): Columns {
    c.(status := Revoked, revokedAt := now, reason := reason, isPrimary := false)
  }

  /** The single guarded update of a membership's end: it leaves the sealed key. */
  function RevokeWorkspace(db: Db, user: Id, workspace: Id, reason: string, now: nat): (r: Db)
    ensures r.tombstones == db.tombstones && |r.rows| == |db.rows|
    ensures forall i :: 0 <= i < |db.rows| ==>
              r.rows[i] == if user != NOBODY && workspace != NOBODY && Leaving(db.rows[i], user, workspace)
                           then db.rows[i].(columns := Ended(db.rows[i].columns, reason, now)) else db.rows[i]
  {
    db.(rows := seq(|db.rows|, i requires 0 <= i < |db.rows| =>
      if user != NOBODY && workspace != NOBODY && Leaving(db.rows[i], user, workspace)
      then db.rows[i].(columns := Ended(db.rows[i].columns, reason, now)) else db.rows[i]))
  }

  // ------------------------------------------------------------- the source's form

  class Record {
    var columns: Columns

    constructor (columns: Columns)
      ensures this.columns == columns
    {
      this.columns := columns;
    }

    method ClearSealedKey()
      modifies this
      ensures columns == ClearKey(old(columns))
    {
      columns := columns.(sealedKey := "");
      columns := columns.(keyEpoch := 0);
      columns := columns.(keyScope := "");
    }

    method ApplyRevocationTransition(original: Option<Columns>, now: nat)
      modifies this
      ensures columns == HookColumns(original, old(columns), now)
    {
      if original.None? {
        return;
      }
      var stored := original.value;
      var wasActive, nowActive := IsActive(stored), IsActive(columns);
      if !wasActive {
        columns := columns.(status := Revoked, revokedAt := stored.revokedAt, reason := stored.reason);
        columns := columns.(isPrimary := false);
        ClearSealedKey();
        return;
      }
      if !nowActive {
        var reason := columns.reason;
        if reason == "" {
          reason := "manual";
        }
        columns := columns.(revokedAt := now, reason := reason, isPrimary := false);
        ClearSealedKey();
      }
    }
  }

  class Store {
    var rows: seq<Identity>
    var tombstones: map<Fingerprint, Tombstone>

    constructor ()
      ensures Value() == Db([], map[])
    {
      rows, tombstones := [], map[];
    }

    function Value(): Db
      reads this
    {
      Db(rows, tombstones)
    }

    method FindById(id: Id) returns (k: Option<nat>)
      ensures k == FindRow(rows, id, 0)
    {
      for i := 0 to |rows|
        invariant FindRow(rows, id, 0) == FindRow(rows, id, i)
      {
        if rows[i].id == id {
          return Some(i);
        }
      }
      return None;
    }

    method DemotePrimaryIdentities(row: Identity, except: Option<Id>)
      modifies this
      ensures Value() == old(Value()).(rows := Demote(old(rows), row, except))
    {
      if !row.columns.isPrimary || row.user == NOBODY || row.workspace == NOBODY {
        assert rows == Demote(rows, row, except);
        return;
      }
      for i := 0 to |rows|
        invariant tombstones == old(tombstones) && |rows| == |old(rows)|
        invariant forall j :: i <= j < |rows| ==> rows[j] == old(rows)[j]
        invariant forall j :: 0 <= j < i ==> rows[j] == Demote(old(rows), row, except)[j]
      {
        if Rivals(rows[i], row.user, row.workspace, except) {
          rows := rows[i := rows[i].(columns := rows[i].columns.(isPrimary := false))];
        }
      }
    }

    /** The create hook: a fresh active row, and the person's others demoted. */
    method OnCreateRequest(id: Id, user: Id, workspace: Id, fp: Fingerprint, domain: string, isPrimary: bool)
      returns (row: Identity)
      modifies this
      ensures row == NewIdentity(id, user, workspace, fp, domain, isPrimary)
      ensures Value() == old(Value()).(rows := Demote(old(rows), row, None))
    {
      row := Identity(id, user, workspace, fp, domain, Columns(Active, 0, "", isPrimary, "", 0, ""));
      DemotePrimaryIdentities(row, None);
    }

    /** The first half of the update hook: reads the row, then settles the columns sent. */
    method SettleUpdate(sent: Identity, now: nat) returns (row: Identity)
      ensures row == sent.(columns := HookColumns(StoredColumns(rows, sent.id), sent.columns, now))
    {
      hide FindRow, HookColumns;
      var k := FindById(sent.id);
      var original := if k.None? then None else Some(rows[k.value].columns);
      var rec := new Record(sent.columns);
      rec.ApplyRevocationTransition(original, now);
      row := sent.(columns := rec.columns);
    }

    method IsTaken(fp: Fingerprint, except: Option<Id>) returns (taken: bool)
      ensures taken == Taken(rows, fp, except)
    {
      for i := 0 to |rows|
        invariant forall j :: 0 <= j < i ==> !(rows[j].fingerprint == fp && except != Some(rows[j].id))
      {
        if rows[i].fingerprint == fp && except != Some(rows[i].id) {
          return true;
        }
      }
      return false;
    }

    method SaveNew(row: Identity) returns (saved: bool)
      modifies this
      ensures saved == Inserts(old(rows), row)
      ensures Value() == old(Value()).(rows := Insert(old(rows), row))
    {
      hide FindRow, Taken;
      var k := FindById(row.id);
      var taken := IsTaken(row.fingerprint, None);
      saved := k.None? && !taken;
      if saved {
        rows := rows + [row];
      }
    }

    method SaveOver(row: Identity)
      modifies this
      ensures Value() == old(Value()).(rows := Overwrite(old(rows), row))
    {
      hide FindRow, Taken;
      var k := FindById(row.id);
      var taken := IsTaken(row.fingerprint, Some(row.id));
      if k.Some? && !taken {
        rows := rows[k.value := row];
      }
    }

    method WriteIdentityTombstone(fp: Fingerprint, domain: string, reason: string, now: nat)
      modifies this
      ensures rows == old(rows)
      ensures tombstones == Bury(old(tombstones), fp, domain, reason, now)
    {
      if fp.hex == "" || fp in tombstones {
        return;
      }
      tombstones := tombstones[fp := Tombstone(now, if reason == "" then "deleted" else reason, domain)];
    }

    method DeleteIdentity(loaded: Identity, now: nat)
      modifies this
      ensures Value() == Delete(old(Value()), loaded, now)
    {
      hide FindRow, Bury;
      var k := FindById(loaded.id);
      if k.Some? {
        rows := rows[..k.value] + rows[k.value + 1..];
      }
      WriteIdentityTombstone(loaded.fingerprint, loaded.domain, loaded.columns.reason, now);
    }

    method RevokeWorkspaceIdentities(user: Id, workspace: Id, reason: string, now: nat)
      modifies this
      ensures Value() == RevokeWorkspace(old(Value()), user, workspace, reason, now)
    {
      if user == NOBODY || workspace == NOBODY {
        assert rows == RevokeWorkspace(Value(), user, workspace, reason, now).rows;
        return;
      }
      for i := 0 to |rows|
        invariant tombstones == old(tombstones) && |rows| == |old(rows)|
        invariant forall j :: i <= j < |rows| ==> rows[j] == old(rows)[j]
        invariant forall j :: 0 <= j < i ==>
                    rows[j] == RevokeWorkspace(old(Value()), user, workspace, reason, now).rows[j]
      {
        if Leaving(rows[i], user, workspace) {
          rows := rows[i := rows[i].(columns := Ended(rows[i].columns, reason, now))];
        }
      }
      assert rows == RevokeWorkspace(old(Value()), user, workspace, reason, now).rows;
    }

    method LookupIdentityStatus(fp: Fingerprint) returns (answer: Answer)
      ensures answer == Lookup(Value(), fp)
    {
      if fp.hex == "" {
        return Unknown;
      }
      for i := 0 to |rows|
        invariant FindFingerprint(rows, fp, 0) == FindFingerprint(rows, fp, i)
      {
        if rows[i].fingerprint == fp {
          if IsActive(rows[i].columns) {
            return Stands;
          }
          return RevokedAt(rows[i].columns.revokedAt, rows[i].columns.reason);
        }
      }
      if fp in tombstones {
        return RevokedAt(tombstones[fp].revokedAt, tombstones[fp].reason);
      }
      return Unknown;
    }
  }
}
