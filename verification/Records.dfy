/** Vault entries: plain values, files, aliases of other entries, and entries sealed
    under a key the server does not hold (cmd/revoked/hooks/records.go, sealed.go,
    cmd/revoked/routes/sealed.go).

    A save writes back every column of the row it loaded. Signatures, key epochs and
    the permission to write are parameters of a request; a transaction is one step. */
module Records {
  import opened Results

  datatype Id = Id(text: string)

  datatype Kind = Text | File

  datatype Entry = Entry(
    workspace: Id, key: string, title: string, kind: Kind, value: string,
    file: string, filename: string, size: nat, stamp: Stamp,
    aliasOf: Option<Id>,
    isSealed: bool, sealedValue: string, sealedVersion: nat, keyEpoch: nat, keyWrap: string)

  /** What is recorded of a file's content: the digest of the salt and the content. */
  datatype Stamp = Stamp(hashSalt: string, contentHash: string, mime: string)

  const UNSTAMPED := Stamp("", "", "")

  /** The salt is drawn for the upload. */
  datatype Upload = Upload(original: string, stored: string, size: nat, salt: string, content: string)

  datatype Limits = Limits(maxSize: Option<nat>, maxStorage: Option<nat>)

  datatype Refusal =
    | NotFound | IdTaken | SealedFieldsRestricted | SealedInvalid | SealedUnsupported | VersionConflict
    | AliasCycle | AliasParentMissing | FileNotAllowed | FileAliasUnsupported | FileRequired | FileTooLarge
    | FileStorageExceeded | FileNameInvalid | ValueRequired | Forbidden

  type Outcome<+T> = Result<T, Refusal>

  type Rows = map<Id, Entry>

  /** How a name is cleaned, or None when it cannot be. */
  type Cleaner = string -> Option<string>

  /** Cleaning, the digest in hex, and the media type of a content's head. */
  datatype Tools = Tools(clean: Cleaner, digest: string -> string, detect: string -> string)

  const HEAD: nat := 512

  function StampOf(f: Upload, tools: Tools): Stamp {
    var head := f.content[..if |f.content| < HEAD then |f.content| else HEAD];
    Stamp(f.salt, tools.digest(f.salt + f.content), tools.detect(head))
  }

  // -------------------------------------------------------------------- validation

  function CheckSealed(rec: Entry): Outcome<()> {
    if !rec.isSealed then Ok(())
    else if rec.value != "" then Refused(SealedFieldsRestricted)
    else if rec.sealedValue == "" || rec.keyWrap == "" then Refused(SealedInvalid)
    else if rec.kind == File then Refused(SealedUnsupported)
    else if rec.aliasOf.Some? then Refused(SealedUnsupported)
    else Ok(())
  }

  function CheckAlias(rows: Rows, id: Id, rec: Entry): Outcome<Entry> {
    if rec.aliasOf.None? then Ok(rec)
    else
      var parent := rec.aliasOf.value;
      if parent == id then Refused(AliasCycle)
      else if parent !in rows || rows[parent].workspace != rec.workspace then Refused(AliasParentMissing)
      else if rows[parent].aliasOf.Some? then Refused(AliasCycle)
      else if rows[parent].isSealed then Refused(SealedUnsupported)
      else Ok(rec.(value := ""))
  }

  function CheckFilename(rec: Entry, before: string, tools: Tools): Outcome<Entry> {
    if rec.filename == "" && before == "" then Ok(rec.(filename := rec.file))
    else
      var c := tools.clean(rec.filename);
      if c.None? then Refused(FileNameInvalid) else Ok(rec.(filename := c.value))
  }

  /** The stored bytes of a workspace's files, but for one entry. */
  ghost function FileBytes(rows: Rows, workspace: Id, except: Id): nat {
    SizeSum(rows, set id | id in rows && rows[id].workspace == workspace && rows[id].kind == File && id != except)
  }

  ghost function SizeSum(rows: Rows, ids: set<Id>): nat
    requires ids <= rows.Keys
  {
    if ids == {} then 0 else var id :| id in ids; rows[id].size + SizeSum(rows, ids - {id})
  }

  function CheckFile(rec: Entry, before: string, upload: Option<Upload>, limits: Limits, used: nat, tools: Tools)
    : Outcome<Entry>
  {
    if rec.kind != File then
      if upload.Some? || rec.file != "" then Refused(FileNotAllowed)
      else if rec.value == "" && rec.aliasOf.None? && !rec.isSealed then Refused(ValueRequired)
      else Ok(rec)
    else if rec.aliasOf.Some? then Refused(FileAliasUnsupported)
    else
      var cleared := rec.(value := "");
      if upload.None? then
        if rec.file == "" then Refused(FileRequired) else CheckFilename(cleared, before, tools)
      else
        var f := upload.value;
        if limits.maxSize.Some? && f.size > limits.maxSize.value then Refused(FileTooLarge)
        else if limits.maxStorage.Some? && used + f.size > limits.maxStorage.value then Refused(FileStorageExceeded)
        else
          var seeded :=
            if rec.filename != "" then rec.filename
            else var c := tools.clean(f.original); if c.Some? then c.value else f.stored;
          var stamped := cleared.(stamp := StampOf(f, tools), size := f.size, file := f.stored);
          CheckFilename(stamped.(filename := seeded), before, tools)
  }

  /** The hooks of a save, in order. */
  function Validate(rows: Rows, id: Id, rec: Entry, before: string, upload: Option<Upload>, limits: Limits, used: nat,
                    tools: Tools): Outcome<Entry>
  {
    var shape := CheckSealed(rec);
    if shape.Refused? then Refused(shape.why)
    else
      var alias := CheckAlias(rows, id, rec);
      if alias.Refused? then alias
      else CheckFile(alias.value, before, upload, limits, used, tools)
  }

  // ---------------------------------------------------------------------- requests

  predicate SameSealing(a: Entry, b: Entry) {
    && a.isSealed == b.isSealed && a.sealedValue == b.sealedValue && a.sealedVersion == b.sealedVersion
    && a.keyEpoch == b.keyEpoch && a.keyWrap == b.keyWrap
  }

  predicate NothingSealed(rec: Entry) {
    !rec.isSealed && rec.sealedValue == "" && rec.sealedVersion == 0 && rec.keyEpoch == 0 && rec.keyWrap == ""
  }

  function PlainCreate(rows: Rows, id: Id, rec: Entry, upload: Option<Upload>, limits: Limits, used: nat, tools: Tools)
    : (Rows, Outcome<()>)
  {
    if !NothingSealed(rec) then (rows, Refused(SealedFieldsRestricted))
    else
      var r := Validate(rows, id, rec, "", upload, limits, used, tools);
      if r.Refused? then (rows, Refused(r.why))
      else if id in rows then (rows, Refused(IdTaken))
      else (rows[id := r.value], Ok(()))
  }

  /** An update request: what was loaded, and the row as edited from it. */
  function PlainUpdate(rows: Rows, id: Id, loaded: Entry, edited: Entry, upload: Option<Upload>, limits: Limits,
                       used: nat, tools: Tools): (Rows, Outcome<()>)
  {
    if !SameSealing(edited, loaded) then (rows, Refused(SealedFieldsRestricted))
    else if loaded.isSealed && (edited.value != "" || edited.key != loaded.key) then
      (rows, Refused(SealedFieldsRestricted))
    else if id in rows && rows[id].sealedVersion != loaded.sealedVersion then (rows, Refused(VersionConflict))
    else
      var r := Validate(rows, id, edited, loaded.filename, upload, limits, used, tools);
      if r.Refused? then (rows, Refused(r.why))
      else if id !in rows then (rows, Ok(()))
      else (rows[id := r.value], Ok(()))
  }

  /** A plain entry of a value, without a file. */
  function Blank(workspace: Id, key: string, title: string, kind: Kind, value: string): Entry {
    Entry(workspace, key, title, kind, value, "", "", 0, UNSTAMPED, None, false, "", 0, 0, "")
  }

  datatype Payload = Payload(sealedValue: string, keyWrap: string, keyEpoch: nat)

  predicate ValidPayload(p: Payload) { p.keyEpoch >= 1 && p.sealedValue != "" && p.keyWrap != "" }

  function ApplySealed(rec: Entry, p: Payload, version: nat): Entry {
    rec.(isSealed := true, value := "", sealedValue := p.sealedValue, sealedVersion := version,
         keyEpoch := p.keyEpoch, keyWrap := p.keyWrap)
  }

  /** The id comes from the client: the ciphertext is bound to it. */
  function SealCreate(rows: Rows, id: Id, blank: Entry, p: Payload, allowed: bool, limits: Limits, tools: Tools)
    : (Rows, Outcome<()>)
  {
    if !ValidPayload(p) then (rows, Refused(SealedInvalid))
    else if blank.kind == File then (rows, Refused(SealedUnsupported))
    else if !allowed then (rows, Refused(Forbidden))
    else
      var made := Blank(blank.workspace, blank.key, blank.title, blank.kind, "");
      var r := Validate(rows, id, ApplySealed(made, p, 1), "", None, limits, 0, tools);
      if r.Refused? then (rows, Refused(r.why))
      else if id in rows then (rows, Refused(IdTaken))
      else (rows[id := r.value], Ok(()))
  }

  /** Seals a plain entry or replaces a sealed one's value; re-read in the transaction. */
  function SealWrite(rows: Rows, id: Id, p: Payload, expected: nat, key: string, title: string, kind: Option<Kind>,
                     allowed: bool, limits: Limits, tools: Tools): (Rows, Outcome<()>)
  {
    if !ValidPayload(p) then (rows, Refused(SealedInvalid))
    else if id !in rows then (rows, Refused(NotFound))
    else
      var rec := rows[id];
      if rec.kind == File || rec.aliasOf.Some? then (rows, Refused(SealedUnsupported))
      else if rec.sealedVersion != expected || rec.key != key then (rows, Refused(VersionConflict))
      else if !allowed then (rows, Refused(Forbidden))
      else
        var written := ApplySealed(rec, p, expected + 1);
        var titled := if title != "" then written.(title := title) else written;
        var typed := if kind.Some? then titled.(kind := kind.value) else titled;
        var r := Validate(rows, id, typed, rec.filename, None, limits, 0, tools);
        if r.Refused? then (rows, Refused(r.why)) else (rows[id := r.value], Ok(()))
  }

  function Unseal(rows: Rows, id: Id, value: string, expected: nat, allowed: bool, limits: Limits, tools: Tools)
    : (Rows, Outcome<()>)
  {
    if expected < 1 || value == "" then (rows, Refused(SealedInvalid))
    else if id !in rows then (rows, Refused(NotFound))
    else
      var rec := rows[id];
      if !rec.isSealed || rec.sealedVersion != expected then (rows, Refused(VersionConflict))
      else if !allowed then (rows, Refused(Forbidden))
      else
        var plain := rec.(isSealed := false, value := value, sealedValue := "", sealedVersion := expected + 1,
                          keyEpoch := 0, keyWrap := "");
        var r := Validate(rows, id, plain, rec.filename, None, limits, 0, tools);
        if r.Refused? then (rows, Refused(r.why)) else (rows[id := r.value], Ok(()))
  }

  /** Whether at most n aliases lead from an entry to another. */
  predicate LeadsTo(rows: Rows, id: Id, target: Id, n: nat)
    decreases n
  {
    id == target
    || (n > 0 && id in rows && rows[id].aliasOf.Some? && LeadsTo(rows, rows[id].aliasOf.value, target, n - 1))
  }

  ghost predicate Leads(rows: Rows, id: Id, target: Id) { exists n: nat :: LeadsTo(rows, id, target, n) }

  /** Deleting an entry deletes every alias that leads to it. */
  ghost function Delete(rows: Rows, target: Id): Rows {
    map id | id in rows && !Leads(rows, id, target) :: rows[id]
  }

  // ------------------------------------------------------------- the source's form

  /** A row on its way into the database. The validators write to it. */
  class Draft {
    const id: Id
    const before: string
    var row: Entry

    constructor (id: Id, row: Entry, before: string)
      ensures this.id == id && this.row == row && this.before == before
    {
      this.id, this.row, this.before := id, row, before;
    }

    method ValidateSealedRecord() returns (r: Outcome<()>)
      ensures r == CheckSealed(row)
    {
      if !row.isSealed {
        return Ok(());
      }
      if row.value != "" {
        return Refused(SealedFieldsRestricted);
      }
      if row.sealedValue == "" || row.keyWrap == "" {
        return Refused(SealedInvalid);
      }
      if row.kind == File {
        return Refused(SealedUnsupported);
      }
      if row.aliasOf.Some? {
        return Refused(SealedUnsupported);
      }
      return Ok(());
    }

    method ValidateAliasRecord(rows: Rows) returns (r: Outcome<()>)
      modifies this
      ensures CheckAlias(rows, id, old(row)) == if r.Ok? then Ok(row) else Refused(r.why)
      ensures r.Refused? ==> row == old(row)
    {
      if row.aliasOf.None? {
        return Ok(());
      }
      var parentId := row.aliasOf.value;
      if parentId == id {
        return Refused(AliasCycle);
      }
      if parentId !in rows {
        return Refused(AliasParentMissing);
      }
      var parent := rows[parentId];
      if parent.workspace != row.workspace {
        return Refused(AliasParentMissing);
      }
      if parent.aliasOf.Some? {
        return Refused(AliasCycle);
      }
      if parent.isSealed {
        return Refused(SealedUnsupported);
      }
      row := row.(value := "");
      return Ok(());
    }

    method ValidateFilename(tools: Tools) returns (r: Outcome<()>)
      modifies this
      ensures CheckFilename(old(row), before, tools) == if r.Ok? then Ok(row) else Refused(r.why)
    {
      if row.filename == "" && before == "" {
        row := row.(filename := row.file);
        return Ok(());
      }
      var name := tools.clean(row.filename);
      if name.None? {
        return Refused(FileNameInvalid);
      }
      row := row.(filename := name.value);
      return Ok(());
    }

    method ValidateFileRecord(upload: Option<Upload>, limits: Limits, used: nat, tools: Tools) returns (r: Outcome<()>)
      modifies this
      ensures CheckFile(old(row), before, upload, limits, used, tools) == if r.Ok? then Ok(row) else Refused(r.why)
    {
      if row.kind != File {
        if upload.Some? || row.file != "" {
          return Refused(FileNotAllowed);
        }
        if row.value == "" && row.aliasOf.None? && !row.isSealed {
          return Refused(ValueRequired);
        }
        return Ok(());
      }
      if row.aliasOf.Some? {
        return Refused(FileAliasUnsupported);
      }
      row := row.(value := "");
      if upload.None? {
        if row.file == "" {
          return Refused(FileRequired);
        }
        r := ValidateFilename(tools);
        return;
      }
      var f := upload.value;
      if limits.maxSize.Some? && f.size > limits.maxSize.value {
        return Refused(FileTooLarge);
      }
      if limits.maxStorage.Some? && used + f.size > limits.maxStorage.value {
        return Refused(FileStorageExceeded);
      }
      var n := if |f.content| < HEAD then |f.content| else HEAD;
      var head, rest := f.content[..n], f.content[n..];
      var fed := f.salt + head;
      fed := fed + rest;
      assert fed == f.salt + f.content;
      row := row.(stamp := Stamp(f.salt, tools.digest(fed), tools.detect(head)));
      row := row.(size := f.size, file := f.stored);
      if row.filename == "" {
        var name := tools.clean(f.original);
        row := row.(filename := if name.Some? then name.value else f.stored);
      }
      r := ValidateFilename(tools);
    }

    method ValidateAll(rows: Rows, upload: Option<Upload>, limits: Limits, used: nat, tools: Tools)
      returns (r: Outcome<()>)
      modifies this
      ensures Validate(rows, id, old(row), before, upload, limits, used, tools)
           == if r.Ok? then Ok(row) else Refused(r.why)
    {
      r := ValidateSealedRecord();
      if r.Refused? {
        return;
      }
      r := ValidateAliasRecord(rows);
      if r.Refused? {
        return;
      }
      r := ValidateFileRecord(upload, limits, used, tools);
    }
  }

  /** workspaceFileBytes: the rows summed one by one. */
  method WorkspaceFileBytes(rows: Rows, workspace: Id, except: Id) returns (total: nat)
    ensures total == FileBytes(rows, workspace, except)
  {
    var all := set id | id in rows && rows[id].workspace == workspace && rows[id].kind == File && id != except;
    var left := all;
    total := 0;
    while left != {}
      invariant left <= rows.Keys
      invariant total + SizeSum(rows, left) == SizeSum(rows, all)
      decreases |left|
    {
      var id :| id in left;
      SizeSumWithout(rows, left, id);
      total := total + rows[id].size;
      left := left - {id};
    }
  }

  lemma {:induction false} SizeSumWithout(rows: Rows, ids: set<Id>, id: Id)
    requires ids <= rows.Keys && id in ids
    ensures SizeSum(rows, ids) == rows[id].size + SizeSum(rows, ids - {id})
    decreases |ids|
  {
    var first :| first in ids && SizeSum(rows, ids) == rows[first].size + SizeSum(rows, ids - {first});
    if first != id {
      SizeSumWithout(rows, ids - {first}, id);
      assert ids - {first} - {id} == ids - {id} - {first};
      SizeSumWithout(rows, ids - {id}, first);
    }
  }
}
