/** Everything a sealed device signs: one byte string per statement
    (util/sealedchain.go). A signature is over bytes, so two statements that
    shared their bytes could be traded for one another. */
module Statements {
  import opened Encoding

  /** The fields a device entry's own signature covers. */
  datatype Statement =
    | DeviceEntry(user: Bytes, seqNo: int, action: Bytes, kind: Bytes, name: Bytes,
                  hpkeKey: Bytes, signingKey: Bytes, targetSeq: int, previousHash: Bytes,
                  signerSeq: int, anchorSignature: Bytes)
    | RecoveryAnchor(user: Bytes, rootHash: Bytes)
    | PasskeyAnchor(user: Bytes, rootHash: Bytes, credentialId: Bytes)
    | Wrap(workspace: Bytes, epoch: int, recipientKey: Bytes, wrap: Bytes, chainSeq: int)
    | Grant(workspace: Bytes, epoch: int, recipientUser: Bytes, recipientKey: Bytes, wrap: Bytes,
            granterUser: Bytes, granterChainSeq: int, recipientChainSeq: int)
    | Unseal(user: Bytes, record: Bytes, expectedVersion: int, value: Bytes)

  function Tag(s: Statement): (t: Bytes)
    ensures |t| < TWO32
  {
    match s
    case DeviceEntry(_, _, _, _, _, _, _, _, _, _, _) => Ascii("revoked-device-chain-v1")
    case RecoveryAnchor(_, _) => Ascii("revoked-recovery-anchor-v1")
    case PasskeyAnchor(_, _, _) => Ascii("revoked-passkey-anchor-v1")
    case Wrap(_, _, _, _, _) => Ascii("revoked-wrap-signature-v1")
    case Grant(_, _, _, _, _, _, _, _) => Ascii("revoked-grant-signature-v1")
    case Unseal(_, _, _, _) => Ascii("revoked-unseal-v1")
  }

  function Parts(s: Statement): seq<Part> {
    match s
    case DeviceEntry(user, seqNo, action, kind, name, hpke, signing, target, previous, signer, anchor) =>
      [Blob(user), Num(seqNo), Blob(action), Blob(kind), Blob(name), Blob(hpke), Blob(signing),
       Num(target), Blob(previous), Num(signer), Blob(anchor)]
    case RecoveryAnchor(user, root) => [Blob(user), Blob(root)]
    case PasskeyAnchor(user, root, credential) => [Blob(user), Blob(root), Blob(credential)]
    case Wrap(workspace, epoch, recipient, wrap, chainSeq) =>
      [Blob(workspace), Num(epoch), Blob(recipient), Blob(wrap), Num(chainSeq)]
    case Grant(workspace, epoch, user, key, wrap, granter, granterSeq, recipientSeq) =>
      [Blob(workspace), Num(epoch), Blob(user), Blob(key), Blob(wrap), Blob(granter),
       Num(granterSeq), Num(recipientSeq)]
    case Unseal(user, record, version, value) =>
      [Blob(user), Blob(record), Num(version), Blob(value)]
  }

  function Payload(s: Statement): Bytes {
    Encode(Tag(s), Parts(s))
  }

  /** Lengths below 2^32 and 64-bit integers throughout. */
  predicate Sized(s: Statement) { AllFit(Parts(s)) }

  predicate SameKind(s: Statement, t: Statement) {
    && s.DeviceEntry? == t.DeviceEntry? && s.RecoveryAnchor? == t.RecoveryAnchor?
    && s.PasskeyAnchor? == t.PasskeyAnchor? && s.Wrap? == t.Wrap?
    && s.Grant? == t.Grant? && s.Unseal? == t.Unseal?
  }

  lemma TagsDistinct(s: Statement, t: Statement)
    requires Tag(s) == Tag(t)
    ensures SameKind(s, t)
  {
    // The six labels differ in length, or else at their ninth byte.
    assert |Tag(s)| == |Tag(t)| && (|Tag(s)| > 8 ==> Tag(s)[8] == Tag(t)[8]);
  }

  lemma KindFixesShape(s: Statement, t: Statement)
    requires SameKind(s, t)
    ensures SameShape(Parts(s), Parts(t))
  {
  }

  lemma PartsDetermine(s: Statement, t: Statement)
    requires SameKind(s, t) && Parts(s) == Parts(t)
    ensures s == t
  {
    var p, q := Parts(s), Parts(t);
    assert p[0] == q[0] && p[1] == q[1];
    match s {
      case DeviceEntry(_, _, _, _, _, _, _, _, _, _, _) =>
        assert forall i :: 0 <= i < 11 ==> p[i] == q[i];
      case RecoveryAnchor(_, _) =>
      case PasskeyAnchor(_, _, _) => assert p[2] == q[2];
      case Wrap(_, _, _, _, _) => assert p[2] == q[2] && p[3] == q[3] && p[4] == q[4];
      case Grant(_, _, _, _, _, _, _, _) =>
        assert forall i :: 0 <= i < 8 ==> p[i] == q[i];
      case Unseal(_, _, _, _) => assert p[2] == q[2] && p[3] == q[3];
    }
  }

  /** No two statements share their bytes, even followed by other bytes: a
      signature on one is never a signature on another, of its own kind or not. */
  lemma PayloadUnique(s: Statement, x: Bytes, t: Statement, y: Bytes)
    requires Sized(s) && Sized(t)
    requires Payload(s) + x == Payload(t) + y
    ensures s == t && x == y
  {
    hide Encode, EncodeParts, Parts, Tag, SameShape, SameKind;
    LabelUnique(Tag(s), Parts(s), x, Tag(t), Parts(t), y);
    TagsDistinct(s, t);
    KindFixesShape(s, t);
    ContextUnique(Tag(s), Parts(s), x, Tag(t), Parts(t), y);
    PartsDetermine(s, t);
  }

  lemma PayloadInjective(s: Statement, t: Statement)
    requires Sized(s) && Sized(t) && Payload(s) == Payload(t)
    ensures s == t
  {
    hide Payload;
    assert Payload(s) + [] == Payload(t) + [];
    PayloadUnique(s, [], t, []);
  }

  /** Names a person's account key where a workspace id would otherwise go. */
  function AccountScope(user: Bytes): Bytes { Ascii("account:") + user }

  /** A wrap of an account key is never a wrap of a workspace key: a workspace
      id holds no colon. */
  lemma AccountWrapsApart(user: Bytes, workspace: Bytes, account: Statement, other: Statement)
    requires ':' as int !in workspace
    requires account.Wrap? && account.workspace == AccountScope(user) && Sized(account)
    requires other.Wrap? && other.workspace == workspace && Sized(other)
    ensures Payload(account) != Payload(other)
  {
    assert AccountScope(user)[7] == ':' as int;
    if Payload(account) == Payload(other) {
      PayloadInjective(account, other);
      assert false;
    }
  }
}
