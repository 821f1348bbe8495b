/** What every list Append can build satisfies: numbering, the live set, how
    trust is derived, and what the newest hash commits to. */
module SealedChainTheorems {
  import opened Results
  import opened Encoding
  import opened Statements
  import opened SealedChain

  // --------------------------------------------------------------- every prefix

  /** What follows from one acceptance, in the form the proofs below use. */
  lemma AcceptableFacts(c: Crypto, es: seq<Entry>, e: Entry)
    requires Acceptable(c, es, e)
    ensures e.seqNo == |es| + 1 && e.previousHash == HeadHash(c, es)
    ensures es == [] ==> e.action == ADD && e.kind == DEVICE && e.signerSeq == 1
                         && c.verify(e.signingKey, e.Payload(), e.signature)
    ensures es != [] ==> IsLive(es, e.signerSeq)
                         && c.verify(es[e.signerSeq - 1].signingKey, e.Payload(), e.signature)
    ensures e.action == ADD || (e.action == REMOVE && e.action != ADD && es != [] && IsLive(es, e.targetSeq))
    ensures e.action == ADD && es != [] ==> |Live(es)| < MAX_LIVE_ENTRIES
    ensures e.action == ADD && e.kind == RECOVERY ==> es != [] && !HasLiveRecovery(es)
    ensures e.action == ADD && e.kind == PASSKEY ==>
              && es != [] && !HasLivePasskey(es, e.credentialId)
              && c.verify(e.signingKey,
                          Statements.Payload(PasskeyAnchor(e.user, es[0].Hash(c), e.credentialId)),
                          e.anchorSignature)
  {
    hide IsLive, Live, HasLivePasskey, HasLiveRecovery, Statements.Payload;
    ActionsDistinct();
    KindsDistinct();
  }

  lemma {:induction false} AcceptedPrefix(c: Crypto, es: seq<Entry>, k: nat)
    requires Accepted(c, es) && k <= |es|
    ensures Accepted(c, es[..k])
    ensures k < |es| ==> Acceptable(c, es[..k], es[k])
  {
    hide Acceptable;
    if k == |es| {
      assert es[..k] == es;
    } else if k == |es| - 1 {
    } else {
      var init := es[..|es| - 1];
      AcceptedPrefix(c, init, k);
      assert init[..k] == es[..k];
    }
  }

  /** entries[i].Seq is i + 1. */
  lemma Numbered(c: Crypto, es: seq<Entry>)
    requires Accepted(c, es)
    ensures forall i :: 0 <= i < |es| ==> es[i].seqNo == i + 1
  {
    hide Acceptable, Accepted;
    forall i | 0 <= i < |es| ensures es[i].seqNo == i + 1 {
      AcceptedPrefix(c, es, i);
      AcceptableFacts(c, es[..i], es[i]);
    }
  }

  // --------------------------------------------------------------- the live set

  function LiveSet(es: seq<Entry>): set<int> {
    set n | 1 <= n <= |es| && IsLive(es, n)
  }

  function Count(es: seq<Entry>, action: Bytes): nat {
    if es == [] then 0
    else Count(es[..|es| - 1], action) + if es[|es| - 1].action == action then 1 else 0
  }

  function LiveSetUpTo(es: seq<Entry>, k: nat): set<int> {
    set n | 1 <= n <= k && IsLive(es, n)
  }

  lemma LiveSetStep(es: seq<Entry>, k: nat)
    requires 0 < k <= |es|
    ensures var before := LiveSetUpTo(es, k - 1);
            k !in before && LiveSetUpTo(es, k) == if IsLive(es, k) then before + {k} else before
  {
    hide IsLive;
  }

  lemma NoneLiveUpToZero(es: seq<Entry>)
    ensures LiveUpTo(es, 0) == [] && LiveSetUpTo(es, 0) == {}
  {
  }

  lemma LiveUpToStep(es: seq<Entry>, k: nat)
    requires 0 < k <= |es| && es[k - 1].seqNo == k
    ensures LiveUpTo(es, k) == if IsLive(es, k) then LiveUpTo(es, k - 1) + [k] else LiveUpTo(es, k - 1)
  {
    hide IsLive;
  }

  lemma {:induction false} LiveUpToMembers(es: seq<Entry>, k: nat)
    requires k <= |es|
    requires forall i :: 0 <= i < |es| ==> es[i].seqNo == i + 1
    ensures forall n :: n in LiveUpTo(es, k) <==> n in LiveSetUpTo(es, k)
    ensures |LiveUpTo(es, k)| == |LiveSetUpTo(es, k)|
  {
    hide IsLive, LiveSetUpTo, LiveUpTo;
    if k == 0 {
      NoneLiveUpToZero(es);
    } else {
      LiveUpToMembers(es, k - 1);
      LiveSetStep(es, k);
      LiveUpToStep(es, k);
    }
  }

  /** Live lists exactly the live numbers, each once. */
  lemma LiveListsLiveSet(c: Crypto, es: seq<Entry>)
    requires Accepted(c, es)
    ensures forall n :: n in Live(es) <==> IsLive(es, n)
    ensures |Live(es)| == |LiveSet(es)|
  {
    hide Acceptable, Accepted;
    Numbered(c, es);
    LiveUpToMembers(es, |es|);
    assert LiveSet(es) == LiveSetUpTo(es, |es|);
    forall n | IsLive(es, n) ensures n in LiveSet(es) {
      LiveWithin(es, n);
    }
  }

  lemma RemovedWithin(c: Crypto, es: seq<Entry>)
    requires Accepted(c, es)
    ensures forall n :: n in Removed(es) ==> 1 <= n <= |es|
  {
    hide Acceptable, Accepted;
    forall i | 0 <= i < |es| && es[i].action == REMOVE ensures 1 <= es[i].targetSeq <= |es| {
      AcceptedPrefix(c, es, i);
      AcceptableFacts(c, es[..i], es[i]);
      ActionsDistinct();
    }
  }

  /** One accepted entry: an add becomes live under its number, a removal ends
      exactly its target, and nothing else changes. */
  lemma LiveStep(c: Crypto, es: seq<Entry>, e: Entry)
    requires Accepted(c, es) && Acceptable(c, es, e)
    ensures e.action == ADD ==>
              |es| + 1 !in LiveSet(es) && LiveSet(es + [e]) == LiveSet(es) + {|es| + 1}
    ensures e.action != ADD ==>
              e.action == REMOVE && e.targetSeq in LiveSet(es) && LiveSet(es + [e]) == LiveSet(es) - {e.targetSeq}
  {
    hide Acceptable, Accepted, Removed;
    var es' := es + [e];
    AcceptableFacts(c, es, e);
    ActionsDistinct();
    RemovedSnoc(es, e);
    RemovedWithin(c, es);
    forall n ensures n in LiveSet(es') <==>
                     || (n in LiveSet(es) && !(e.action == REMOVE && n == e.targetSeq))
                     || (e.action == ADD && n == |es| + 1)
    {
      if 1 <= n <= |es| {
        assert es'[n - 1] == es[n - 1];
      } else if n == |es| + 1 {
        assert es'[n - 1] == e;
      }
    }
  }

  lemma EmptyLive()
    ensures Live([]) == []
  {
  }

  /** Adds minus removals, and never more than the cap. */
  lemma {:induction false} LiveCount(c: Crypto, es: seq<Entry>)
    requires Accepted(c, es)
    ensures |Live(es)| == Count(es, ADD) - Count(es, REMOVE)
    ensures |Live(es)| <= MAX_LIVE_ENTRIES
  {
    hide Acceptable, IsLive, Live, LiveSet;
    LiveListsLiveSet(c, es);
    if es == [] {
      EmptyLive();
    } else {
      var init, e := es[..|es| - 1], es[|es| - 1];
      assert es == init + [e];
      LiveCount(c, init);
      LiveListsLiveSet(c, init);
      LiveStep(c, init, e);
      ActionsDistinct();
      AcceptableFacts(c, init, e);
      EmptyLive();
      if e.action == ADD {
        assert |LiveSet(es)| == |LiveSet(init)| + 1;
      } else {
        assert |LiveSet(es)| == |LiveSet(init)| - 1;
      }
    }
  }

  /** Each removal ends an earlier add, and no two end the same one. */
  lemma RemovalsTargetDistinctAdds(c: Crypto, es: seq<Entry>)
    requires Accepted(c, es)
    ensures forall i :: 0 <= i < |es| && es[i].action == REMOVE ==>
              1 <= es[i].targetSeq <= i && es[es[i].targetSeq - 1].action == ADD
    ensures forall i, j :: 0 <= i < j < |es| && es[i].action == REMOVE && es[j].action == REMOVE ==>
              es[i].targetSeq != es[j].targetSeq
  {
    hide Acceptable, Accepted, Removed;
    ActionsDistinct();
    forall i | 0 <= i < |es| && es[i].action == REMOVE
      ensures 1 <= es[i].targetSeq <= i && es[es[i].targetSeq - 1].action == ADD
      ensures IsLive(es[..i], es[i].targetSeq)
    {
      AcceptedPrefix(c, es, i);
      AcceptableFacts(c, es[..i], es[i]);
    }
    forall i, j | 0 <= i < j < |es| && es[i].action == REMOVE && es[j].action == REMOVE
      ensures es[i].targetSeq != es[j].targetSeq
    {
      RemovedAt(es, i, j);
      RemovedForever(c, es, j, j, es[i].targetSeq);
    }
  }

  lemma RemovedAt(es: seq<Entry>, i: nat, j: nat)
    requires i < j <= |es| && es[i].action == REMOVE
    ensures es[i].targetSeq in Removed(es[..j])
  {
    assert es[..j][i] == es[i];
  }

  lemma LiveBefore(c: Crypto, es: seq<Entry>, n: int)
    requires Accepted(c, es) && es != [] && IsLive(es, n) && n < |es|
    ensures IsLive(es[..|es| - 1], n)
  {
    hide Acceptable;
    var init, e := es[..|es| - 1], es[|es| - 1];
    assert es == init + [e];
    LiveStep(c, init, e);
    assert n in LiveSet(es);
  }

  lemma LiveWithin(es: seq<Entry>, n: int)
    requires IsLive(es, n)
    ensures 1 <= n <= |es| && es[n - 1].action == ADD
  {
  }

  /** A live entry of e's exclusive kind: a second recovery key, or a second
      entry for the same passkey. */
  predicate Rivals(x: Entry, y: Entry) {
    x.kind == y.kind && (x.kind == RECOVERY || (x.kind == PASSKEY && x.credentialId == y.credentialId))
  }

  lemma NoRivalAccepted(c: Crypto, es: seq<Entry>, e: Entry, n: int)
    requires Accepted(c, es) && Acceptable(c, es, e) && e.action == ADD && IsLive(es, n)
    ensures !Rivals(es[n - 1], e)
  {
    hide Acceptable, IsLive, Live, Statements.Payload;
    LiveWithin(es, n);
    LiveListsLiveSet(c, es);
    AcceptableFacts(c, es, e);
  }

  /** At most one live recovery key, and at most one live entry for any one
      passkey. */
  lemma {:induction false} LiveRivalsAreOne(c: Crypto, es: seq<Entry>, m: int, n: int)
    requires Accepted(c, es) && IsLive(es, m) && IsLive(es, n)
    requires Rivals(es[m - 1], es[n - 1])
    ensures m == n
    decreases |es|
  {
    hide Acceptable, IsLive;
    LiveWithin(es, m);
    LiveWithin(es, n);
    var init, e := es[..|es| - 1], es[|es| - 1];
    if m < |es| { LiveBefore(c, es, m); }
    if n < |es| { LiveBefore(c, es, n); }
    if m < |es| && n < |es| {
      LiveRivalsAreOne(c, init, m, n);
    } else if m < |es| {
      NoRivalAccepted(c, init, e, m);
    } else if n < |es| {
      NoRivalAccepted(c, init, e, n);
    }
  }

  lemma KindsDistinct()
    ensures DEVICE != RECOVERY && RECOVERY != PASSKEY && DEVICE != PASSKEY
  {
    assert |DEVICE| == 6 && |RECOVERY| == 8 && |PASSKEY| == 7;
  }

  // ------------------------------------------------------------ trust derivation

  /** Entry s was live just before entry n, which names it as its signer and
      whose signature verifies under its key. */
  predicate VouchedBy(c: Crypto, es: seq<Entry>, n: int, s: int) {
    && 1 <= s < n <= |es| && es[n - 1].signerSeq == s
    && IsLive(es[..n - 1], s)
    && c.verify(es[s - 1].signingKey, es[n - 1].Payload(), es[n - 1].signature)
  }

  lemma SignerIsEarlier(c: Crypto, es: seq<Entry>, n: int)
    requires Accepted(c, es) && 1 < n <= |es|
    ensures 1 <= es[n - 1].signerSeq < n && VouchedBy(c, es, n, es[n - 1].signerSeq)
  {
    hide Acceptable, Accepted, Statements.Payload;
    AcceptedPrefix(c, es, n - 1);
    AcceptableFacts(c, es[..n - 1], es[n - 1]);
  }

  lemma SignerIsBefore(c: Crypto, es: seq<Entry>, n: int)
    requires Accepted(c, es) && 1 < n <= |es|
    ensures 1 <= es[n - 1].signerSeq < n
  {
    hide Acceptable, Accepted, VouchedBy;
    SignerIsEarlier(c, es, n);
  }

  /** Entry n vouched for by entry n's signer, that one by its own, back to the first. */
  function TrustPath(c: Crypto, es: seq<Entry>, n: int): (path: seq<int>)
    requires Accepted(c, es) && 1 <= n <= |es|
    ensures path != [] && path[0] == n && path[|path| - 1] == 1
    ensures forall k :: 0 <= k < |path| ==> 1 <= path[k] <= |es|
    decreases n
  {
    if n == 1 then [1]
    else
      SignerIsBefore(c, es, n);
      [n] + TrustPath(c, es, es[n - 1].signerSeq)
  }

  predicate VouchedAlong(c: Crypto, es: seq<Entry>, path: seq<int>) {
    |path| > 1 ==> VouchedBy(c, es, path[0], path[1]) && VouchedAlong(c, es, path[1..])
  }

  /** Every step of the path goes strictly back, to an entry that was live when
      it signed and under whose key the signature verifies; the path ends at the
      first entry, which signed itself. */
  lemma {:induction false} TrustDerivation(c: Crypto, es: seq<Entry>, n: int)
    requires Accepted(c, es) && 1 <= n <= |es|
    ensures VouchedAlong(c, es, TrustPath(c, es, n))
    ensures es[0].signerSeq == 1 && c.verify(es[0].signingKey, es[0].Payload(), es[0].signature)
    decreases n
  {
    hide Acceptable, Accepted, VouchedBy, Statements.Payload;
    AcceptedPrefix(c, es, 0);
    AcceptableFacts(c, es[..0], es[0]);
    if n > 1 {
      SignerIsEarlier(c, es, n);
      var s := es[n - 1].signerSeq;
      TrustDerivation(c, es, s);
      assert TrustPath(c, es, n)[1..] == TrustPath(c, es, s);
    }
  }

  /** Once removed, never live again and never a signer again. */
  lemma RemovedForever(c: Crypto, es: seq<Entry>, k: nat, m: nat, n: int)
    requires Accepted(c, es) && k <= m <= |es| && n in Removed(es[..k])
    ensures !IsLive(es[..m], n)
    ensures m < |es| ==> es[m].signerSeq != n
  {
    var i :| 0 <= i < k && es[..k][i].action == REMOVE && es[..k][i].targetSeq == n;
    hide Removed, Acceptable, Accepted;
    RemovedAt(es, i, m);
    if m < |es| {
      AcceptedPrefix(c, es, m);
      AcceptableFacts(c, es[..m], es[m]);
    }
  }

  /** Every added entry carries two valid keys, and one that joins by anchor has
      signed, with its own key, the hash of the entry the list began with. */
  lemma AddsAreProven(c: Crypto, es: seq<Entry>, i: nat)
    requires Accepted(c, es) && i < |es| && es[i].action == ADD
    ensures c.validKey(es[i].hpkeKey) && c.validKey(es[i].signingKey)
    ensures es[i].kind == DEVICE || es[i].kind == RECOVERY || es[i].kind == PASSKEY
    ensures es[i].kind != DEVICE ==>
              var root := es[0].Hash(c);
              var anchor := if es[i].kind == RECOVERY then RecoveryAnchor(es[i].user, root)
                            else PasskeyAnchor(es[i].user, root, es[i].credentialId);
              i > 0 && c.verify(es[i].signingKey, Statements.Payload(anchor), es[i].anchorSignature)
    ensures es[i].kind == PASSKEY ==> es[i].credentialId != []
  {
    hide IsLive, Live, HasLivePasskey, HasLiveRecovery, Statements.Payload, Accepted;
    AcceptedPrefix(c, es, i);
    ActionsDistinct();
    KindsDistinct();
  }

  /** A list whose every entry was removed takes nothing more. */
  lemma DeadListAcceptsNothing(c: Crypto, es: seq<Entry>, e: Entry)
    requires Accepted(c, es) && es != [] && Live(es) == []
    ensures !Acceptable(c, es, e)
  {
    LiveListsLiveSet(c, es);
  }

  // ------------------------------------------------------------- hash commitment

  predicate AllSized(es: seq<Entry>) {
    forall i :: 0 <= i < |es| ==> Sized(es[i].Covered())
  }

  /** No two of the inputs these two lists hash collide, and no hash is empty. */
  predicate HashBinds(c: Crypto, a: seq<Entry>, b: seq<Entry>) {
    && (forall i, j :: 0 <= i < |a| && 0 <= j < |b| && a[i].Hash(c) == b[j].Hash(c) ==>
          a[i].HashInput() == b[j].HashInput())
    && (forall i :: 0 <= i < |a| ==> a[i].Hash(c) != [])
    && (forall j :: 0 <= j < |b| ==> b[j].Hash(c) != [])
  }

  /** Equal on every field but CredentialID. */
  predicate Agree(x: Entry, y: Entry) {
    x.Covered() == y.Covered() && x.signature == y.signature
  }

  lemma HashInputUnique(x: Entry, y: Entry)
    requires Sized(x.Covered()) && Sized(y.Covered()) && x.HashInput() == y.HashInput()
    ensures Agree(x, y)
  {
    hide Statements.Payload;
    PayloadUnique(x.Covered(), x.signature, y.Covered(), y.signature);
  }

  lemma LinkedBack(c: Crypto, es: seq<Entry>, i: nat)
    requires Accepted(c, es) && 0 < i < |es|
    ensures es[i].previousHash == es[i - 1].Hash(c)
  {
    hide Acceptable, Accepted, Statements.Payload;
    AcceptedPrefix(c, es, i);
    AcceptableFacts(c, es[..i], es[i]);
  }

  /** One shared hash, anywhere in two lists: it is at the same place in both,
      and the two agree on everything up to there. */
  lemma {:induction false} SharedHashSharesPrefix(c: Crypto, a: seq<Entry>, i: nat, b: seq<Entry>, j: nat)
    requires Accepted(c, a) && Accepted(c, b) && AllSized(a) && AllSized(b) && HashBinds(c, a, b)
    requires i < |a| && j < |b| && a[i].Hash(c) == b[j].Hash(c)
    ensures i == j && forall k :: 0 <= k <= i ==> Agree(a[k], b[k])
    decreases i
  {
    hide Acceptable, Accepted, Statements.Payload;
    HashInputUnique(a[i], b[j]);
    Numbered(c, a);
    Numbered(c, b);
    if i > 0 {
      LinkedBack(c, a, i);
      LinkedBack(c, b, j);
      SharedHashSharesPrefix(c, a, i - 1, b, j - 1);
    }
  }

  /** The newest hash commits to the whole list, and to nothing else. */
  lemma HeadHashCommits(c: Crypto, a: seq<Entry>, b: seq<Entry>)
    requires Accepted(c, a) && Accepted(c, b) && AllSized(a) && AllSized(b) && HashBinds(c, a, b)
    ensures HeadHash(c, a) == HeadHash(c, b) <==>
            |a| == |b| && forall i :: 0 <= i < |a| ==> Agree(a[i], b[i])
  {
    hide Acceptable, Accepted, Statements.Payload;
    if a != [] && b != [] && HeadHash(c, a) == HeadHash(c, b) {
      SharedHashSharesPrefix(c, a, |a| - 1, b, |b| - 1);
    }
  }

  /** No anchor signature of these two lists verifies for two anchors. */
  predicate AnchorsBind(c: Crypto, a: seq<Entry>, b: seq<Entry>) {
    forall i :: 0 < i < |a| && i < |b| ==>
      var p := PasskeyAnchor(a[i].user, a[0].Hash(c), a[i].credentialId);
      var q := PasskeyAnchor(b[i].user, b[0].Hash(c), b[i].credentialId);
      && Sized(p) && Sized(q)
      && (a[i].signingKey == b[i].signingKey && a[i].anchorSignature == b[i].anchorSignature
          && c.verify(a[i].signingKey, Statements.Payload(p), a[i].anchorSignature)
          && c.verify(b[i].signingKey, Statements.Payload(q), b[i].anchorSignature)
          ==> Statements.Payload(p) == Statements.Payload(q))
  }

  /** CredentialID is outside the hash, yet a passkey entry's is fixed by it all
      the same: through the anchor signature, which the hash does cover. */
  lemma HeadHashCommitsPasskeys(c: Crypto, a: seq<Entry>, b: seq<Entry>, i: nat)
    requires Accepted(c, a) && Accepted(c, b) && AllSized(a) && AllSized(b) && HashBinds(c, a, b)
    requires AnchorsBind(c, a, b) && HeadHash(c, a) == HeadHash(c, b)
    requires i < |a| && a[i].action == ADD && a[i].kind == PASSKEY
    ensures i < |b| && a[i].credentialId == b[i].credentialId
  {
    hide Acceptable, Accepted, Statements.Payload;
    HeadHashCommits(c, a, b);
    assert Agree(a[i], b[i]);
    AcceptedPrefix(c, a, i);
    AcceptedPrefix(c, b, i);
    AcceptableFacts(c, a[..i], a[i]);
    AcceptableFacts(c, b[..i], b[i]);
    var p := PasskeyAnchor(a[i].user, a[0].Hash(c), a[i].credentialId);
    var q := PasskeyAnchor(b[i].user, b[0].Hash(c), b[i].credentialId);
    assert a[..i][0] == a[0] && b[..i][0] == b[0];
    assert Statements.Payload(p) == Statements.Payload(q);
    PayloadInjective(p, q);
  }
}
