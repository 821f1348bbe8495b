/** A person's signed device list (util/sealedchain.go): what an entry must
    satisfy to be appended, and the class that checks and keeps the list. */
module SealedChain {
  import opened Results
  import opened Encoding
  import opened Statements

  const MAX_LIVE_ENTRIES: int := 32

  const ADD: Bytes := Ascii("add")
  const REMOVE: Bytes := Ascii("remove")
  const DEVICE: Bytes := Ascii("device")
  const RECOVERY: Bytes := Ascii("recovery")
  const PASSKEY: Bytes := Ascii("passkey")

  lemma ActionsDistinct()
    ensures ADD != REMOVE
  {
    assert |ADD| == 3 && |REMOVE| == 6;
  }

  /** SHA-256, ECDSA over P-256 and the on-curve test, left uninterpreted. What a
      theorem assumes of them it says in its requires. */
  datatype Crypto = Crypto(
    hash: Bytes -> Bytes,
    verify: (Bytes, Bytes, Bytes) -> bool,
    validKey: Bytes -> bool)

  datatype Entry = Entry(
    user: Bytes,
    seqNo: int,
    action: Bytes,
    kind: Bytes,
    name: Bytes,
    credentialId: Bytes,
    hpkeKey: Bytes,
    signingKey: Bytes,
    targetSeq: int,
    previousHash: Bytes,
    signerSeq: int,
    anchorSignature: Bytes,
    signature: Bytes)
  {
    /** The fields its signature covers: all but CredentialID and the signature. */
    function Covered(): Statement {
      DeviceEntry(user, seqNo, action, kind, name, hpkeKey, signingKey,
                  targetSeq, previousHash, signerSeq, anchorSignature)
    }

    function Payload(): Bytes { Statements.Payload(Covered()) }

    function HashInput(): Bytes { Payload() + signature }

    function Hash(c: Crypto): Bytes { c.hash(HashInput()) }
  }

  // ------------------------------------------------------- the list as a value

  function NextSeq(es: seq<Entry>): int { |es| + 1 }

  function HeadHash(c: Crypto, es: seq<Entry>): Bytes {
    if es == [] then [] else es[|es| - 1].Hash(c)
  }

  function EntryAt(es: seq<Entry>, n: int): Option<Entry> {
    if n < 1 || n > |es| then None else Some(es[n - 1])
  }

  /** The keys of the source's `removed` map after loading es. */
  function Removed(es: seq<Entry>): set<int> {
    set i | 0 <= i < |es| && es[i].action == REMOVE :: es[i].targetSeq
  }

  predicate IsLive(es: seq<Entry>, n: int) {
    var e := EntryAt(es, n);
    e.Some? && e.value.action == ADD && n !in Removed(es)
  }

  /** The numbers the first k entries carry, of those that are live in es. */
  function LiveUpTo(es: seq<Entry>, k: nat): (live: seq<int>)
    requires k <= |es|
    ensures forall n :: n in live ==> IsLive(es, n)
  {
    if k == 0 then []
    else LiveUpTo(es, k - 1) + (if IsLive(es, es[k - 1].seqNo) then [es[k - 1].seqNo] else [])
  }

  function Live(es: seq<Entry>): seq<int> { LiveUpTo(es, |es|) }

  predicate HasLivePasskey(es: seq<Entry>, credential: Bytes) {
    exists n :: n in Live(es) && es[n - 1].kind == PASSKEY && es[n - 1].credentialId == credential
  }

  predicate HasLiveRecovery(es: seq<Entry>) {
    exists n :: n in Live(es) && es[n - 1].kind == RECOVERY
  }

  predicate Acceptable(c: Crypto, es: seq<Entry>, e: Entry) {
    && e.seqNo == NextSeq(es)
    && e.previousHash == HeadHash(c, es)
    && (e.action == ADD ==> c.validKey(e.hpkeKey) && c.validKey(e.signingKey))
    && if es == [] then
         && e.action == ADD && e.kind == DEVICE && e.signerSeq == e.seqNo
         && c.verify(e.signingKey, e.Payload(), e.signature)
       else
         && IsLive(es, e.signerSeq)
         && c.verify(es[e.signerSeq - 1].signingKey, e.Payload(), e.signature)
         && if e.action == REMOVE then IsLive(es, e.targetSeq)
            else
              && e.action == ADD
              && |Live(es)| < MAX_LIVE_ENTRIES
              && (|| e.kind == DEVICE
                  || (&& e.kind == RECOVERY
                      && !HasLiveRecovery(es)
                      && c.verify(e.signingKey,
                                  Statements.Payload(RecoveryAnchor(e.user, es[0].Hash(c))),
                                  e.anchorSignature))
                  || (&& e.kind == PASSKEY
                      && e.credentialId != []
                      && !HasLivePasskey(es, e.credentialId)
                      && c.verify(e.signingKey,
                                  Statements.Payload(PasskeyAnchor(e.user, es[0].Hash(c), e.credentialId)),
                                  e.anchorSignature)))
  }

  /** The lists Append can build from an empty one. */
  predicate Accepted(c: Crypto, es: seq<Entry>) {
    es == [] || (Accepted(c, es[..|es| - 1]) && Acceptable(c, es[..|es| - 1], es[|es| - 1]))
  }

  function RemovedMap(es: seq<Entry>): map<int, bool> {
    map n | n in Removed(es) :: true
  }

  // ------------------------------------------------------ the list as an object

  class Chain {
    const c: Crypto
    var entries: seq<Entry>
    var removed: map<int, bool>

    constructor (c: Crypto)
      ensures Valid() && this.c == c && entries == []
    {
      this.c := c;
      entries := [];
      removed := map[];
    }

    ghost predicate Valid()
      reads this
    {
      removed == RemovedMap(entries)
    }

    /** Adds an entry without checking it. */
    method Load(e: Entry)
      requires Valid()
      modifies this
      ensures Valid() && entries == old(entries) + [e]
    {
      RemovedSnoc(entries, e);
      entries := entries + [e];
      if e.action == REMOVE {
        removed := removed[e.targetSeq := true];
      }
    }

    method Append(e: Entry) returns (ok: bool)
      requires Valid()
      modifies this
      ensures Valid()
      ensures ok == Acceptable(c, old(entries), e)
      ensures entries == if ok then old(entries) + [e] else old(entries)
      ensures Accepted(c, old(entries)) ==> Accepted(c, entries)
    {
      ok := IsAcceptable(e);
      if ok {
        Load(e);
        assert entries[..|entries| - 1] == old(entries);
      }
    }

    method IsAcceptable(e: Entry) returns (ok: bool)
      requires Valid()
      ensures ok == Acceptable(c, entries, e)
    {
      if e.seqNo != |entries| + 1 || e.previousHash != HeadHash(c, entries) {
        return false;
      }
      if e.action == ADD && (!c.validKey(e.hpkeKey) || !c.validKey(e.signingKey)) {
        return false;
      }
      if |entries| == 0 {
        return e.action == ADD && e.kind == DEVICE && e.signerSeq == e.seqNo &&
               c.verify(e.signingKey, e.Payload(), e.signature);
      }
      if !IsLiveSeq(e.signerSeq) {
        return false;
      }
      if !c.verify(entries[e.signerSeq - 1].signingKey, e.Payload(), e.signature) {
        return false;
      }
      ActionsDistinct();
      if e.action == REMOVE {
        return IsLiveSeq(e.targetSeq);
      }
      if e.action == ADD {
        var live := ListLive();
        if |live| >= MAX_LIVE_ENTRIES {
          return false;
        }
        if e.kind == DEVICE {
          return true;
        }
        if e.kind == RECOVERY {
          var found := LiveRecovery();
          return found.None? &&
                 c.verify(e.signingKey, Statements.Payload(RecoveryAnchor(e.user, entries[0].Hash(c))),
                          e.anchorSignature);
        }
        if e.kind == PASSKEY {
          var found := LivePasskey(e.credentialId);
          return e.credentialId != [] && found.None? &&
                 c.verify(e.signingKey,
                          Statements.Payload(PasskeyAnchor(e.user, entries[0].Hash(c), e.credentialId)),
                          e.anchorSignature);
        }
      }
      return false;
    }

    function IsLiveSeq(n: int): (live: bool)
      requires Valid()
      reads this
      ensures live == IsLive(entries, n)
    {
      var e := EntryAt(entries, n);
      e.Some? && e.value.action == ADD && !(n in removed && removed[n])
    }

    method ListLive() returns (live: seq<int>)
      requires Valid()
      ensures live == Live(entries)
      ensures forall j :: 0 <= j < |live| ==> live[j] in live && IsLive(entries, live[j])
    {
      live := [];
      for i := 0 to |entries|
        invariant live == LiveUpTo(entries, i)
      {
        if IsLiveSeq(entries[i].seqNo) {
          live := live + [entries[i].seqNo];
        }
      }
      assert forall j :: 0 <= j < |live| ==> live[j] in live;
    }

    method LivePasskey(credential: Bytes) returns (found: Option<Entry>)
      requires Valid()
      ensures found.Some? == HasLivePasskey(entries, credential)
      ensures found.Some? ==>
                exists n :: n in Live(entries) && entries[n - 1] == found.value
                            && found.value.kind == PASSKEY && found.value.credentialId == credential
    {
      var live := ListLive();
      for i := 0 to |live|
        invariant forall j :: 0 <= j < i ==>
                    !(entries[live[j] - 1].kind == PASSKEY && entries[live[j] - 1].credentialId == credential)
      {
        var e := entries[live[i] - 1];
        if e.kind == PASSKEY && e.credentialId == credential {
          return Some(e);
        }
      }
      return None;
    }

    method LiveRecovery() returns (found: Option<Entry>)
      requires Valid()
      ensures found.Some? == HasLiveRecovery(entries)
      ensures found.Some? ==>
                exists n :: n in Live(entries) && entries[n - 1] == found.value && found.value.kind == RECOVERY
    {
      var live := ListLive();
      for i := 0 to |live|
        invariant forall j :: 0 <= j < i ==> entries[live[j] - 1].kind != RECOVERY
      {
        var e := entries[live[i] - 1];
        if e.kind == RECOVERY {
          return Some(e);
        }
      }
      return None;
    }
  }

  lemma RemovedSnoc(es: seq<Entry>, e: Entry)
    ensures Removed(es + [e]) == Removed(es) + if e.action == REMOVE then {e.targetSeq} else {}
  {
    var es' := es + [e];
    forall n | n in Removed(es) + (if e.action == REMOVE then {e.targetSeq} else {})
      ensures n in Removed(es')
    {
      if n in Removed(es) {
        var i :| 0 <= i < |es| && es[i].action == REMOVE && es[i].targetSeq == n;
        assert es'[i] == es[i];
      } else {
        assert es'[|es|] == e;
      }
    }
  }

  /** Entry by entry through Load, as a stored list is read back: the object that
      results is the one Append built, removals included. */
  method Rebuild(c: Crypto, es: seq<Entry>) returns (chain: Chain)
    ensures fresh(chain) && chain.Valid() && chain.c == c && chain.entries == es
  {
    chain := new Chain(c);
    for i := 0 to |es|
      invariant fresh(chain) && chain.Valid() && chain.c == c
      invariant chain.entries == es[..i]
    {
      chain.Load(es[i]);
    }
  }

  /** Any entries offered in any order, each appended if acceptable: the list is
      one Append can build, whatever was offered. */
  method AppendAll(c: Crypto, offered: seq<Entry>) returns (chain: Chain)
    ensures fresh(chain) && chain.Valid() && chain.c == c && Accepted(c, chain.entries)
    ensures chain.entries == Kept(c, [], offered)
  {
    chain := new Chain(c);
    for i := 0 to |offered|
      invariant fresh(chain) && chain.Valid() && chain.c == c && Accepted(c, chain.entries)
      invariant Kept(c, [], offered) == Kept(c, chain.entries, offered[i..])
    {
      var ok := chain.Append(offered[i]);
    }
  }

  /** What is kept of a run of offers, starting from es. */
  function Kept(c: Crypto, es: seq<Entry>, offered: seq<Entry>): seq<Entry>
    decreases |offered|
  {
    if offered == [] then es
    else Kept(c, if Acceptable(c, es, offered[0]) then es + [offered[0]] else es, offered[1..])
  }
}
