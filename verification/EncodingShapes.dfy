/** Which contexts of different part shapes can share their bytes
    (util/sealedchain.go): the encoding carries lengths but no kinds. */
module EncodingShapes {
  import opened Encoding

  /** A shape: which parts are blobs. */
  type Shape = seq<bool>

  /** Above any list of parts whose lengths still fit in 32 bits; the source's longest
      has eleven. */
  const MAX_PARTS: nat := 0x100_0000

  function ShapeOf(ps: seq<Part>): (r: Shape)
    ensures |r| == |ps|
  {
    seq(|ps|, i requires 0 <= i < |ps| => ps[i].Blob?)
  }

  /** The least a shape encodes to: a blob's length, a number's eight bytes. */
  function MinSize(a: Shape): nat {
    if a == [] then 0 else (if a[0] then 4 else 8) + MinSize(a[1..])
  }

  /** A shape that begins with a blob, against one that begins with a number. */
  predicate Overlap(blobFirst: Shape, numFirst: Shape) {
    true in numFirst || MinSize(blobFirst) <= 8 * |numFirst|
  }

  /** Where the two shapes first differ decides. */
  predicate Meets(a: Shape, b: Shape) {
    if a == [] || b == [] then a == b
    else if a[0] == b[0] then Meets(a[1..], b[1..])
    else if a[0] then Overlap(a, b)
    else Overlap(b, a)
  }

  ghost predicate SharedBy(ps: seq<Part>, a: Shape, qs: seq<Part>, b: Shape) {
    AllFit(ps) && AllFit(qs) && ShapeOf(ps) == a && ShapeOf(qs) == b && EncodeParts(ps) == EncodeParts(qs)
  }

  ghost predicate Share(a: Shape, b: Shape) {
    exists ps, qs :: SharedBy(ps, a, qs, b)
  }

  // ------------------------------------------------------------ zeros throughout

  function Zeros(n: nat): (r: Bytes)
    ensures |r| == n && forall i :: 0 <= i < n ==> r[i] == 0
  {
    seq(n, i => 0)
  }

  function ZeroPart(blob: bool): Part { if blob then Blob([]) else Num(0) }

  function ZeroParts(a: Shape): (r: seq<Part>)
    ensures |r| == |a| && ShapeOf(r) == a
  {
    seq(|a|, i requires 0 <= i < |a| => ZeroPart(a[i]))
  }

  lemma {:induction false} ZeroBytes(k: nat)
    ensures BigEndian(0, k) == Zeros(k)
  {
    if k > 0 {
      ZeroBytes(k - 1);
    }
  }

  lemma ZeroPartEncodes(blob: bool)
    ensures EncodePart(ZeroPart(blob)) == Zeros(if blob then 4 else 8)
  {
    hide BigEndian;
    ZeroBytes(4);
    ZeroBytes(8);
  }

  lemma {:induction false} ZeroPartsEncode(a: Shape)
    ensures AllFit(ZeroParts(a)) && EncodeParts(ZeroParts(a)) == Zeros(MinSize(a))
  {
    hide EncodePart;
    if a != [] {
      ZeroPartEncodes(a[0]);
      ZeroPartsEncode(a[1..]);
      assert ZeroParts(a)[1..] == ZeroParts(a[1..]);
      assert ZeroParts(a)[0] == ZeroPart(a[0]);
    }
  }

  /** A number whose low half is zero. */
  lemma HighNumber(n: nat)
    requires n < 0x8000_0000
    ensures Int64(n * TWO32) && U64(n * TWO32) == U32(n) + Zeros(4)
  {
    hide BigEndian;
    HighBytes(n, 0);
    ZeroBytes(4);
  }

  lemma EncodeFirst(ps: seq<Part>)
    requires ps != []
    ensures EncodeParts(ps) == EncodePart(ps[0]) + EncodeParts(ps[1..])
  {
    hide EncodePart;
  }

  lemma {:induction false} EncodePartsConcat(ps: seq<Part>, qs: seq<Part>)
    ensures EncodeParts(ps + qs) == EncodeParts(ps) + EncodeParts(qs)
  {
    hide EncodePart, EncodeParts;
    if ps == [] {
      EncodeNoParts();
      assert ps + qs == qs;
    } else {
      EncodePartsConcat(ps[1..], qs);
      EncodeFirst(ps + qs);
      EncodePartsCons(ps, EncodeParts(qs));
      assert (ps + qs)[1..] == ps[1..] + qs;
    }
  }

  lemma {:induction false} NumbersOnly(a: Shape)
    requires true !in a
    ensures MinSize(a) == 8 * |a|
  {
    if a != [] {
      NumbersOnly(a[1..]);
    }
  }

  lemma {:induction false} MinSizeBound(a: Shape)
    ensures 4 * |a| <= MinSize(a) <= 8 * |a|
  {
    if a != [] {
      MinSizeBound(a[1..]);
    }
  }

  // ------------------------------------------------------ where shapes do not meet

  lemma {:induction false} SizeAtLeast(ps: seq<Part>)
    ensures |EncodeParts(ps)| >= MinSize(ShapeOf(ps))
    ensures true !in ShapeOf(ps) ==> |EncodeParts(ps)| == 8 * |ps|
  {
    if ps != [] {
      SizeAtLeast(ps[1..]);
      assert ShapeOf(ps)[1..] == ShapeOf(ps[1..]);
      assert ShapeOf(ps)[0] == ps[0].Blob?;
    }
  }

  lemma TailsAgree(ps: seq<Part>, qs: seq<Part>)
    requires ps != [] && qs != [] && ps[0].Blob? == qs[0].Blob?
    requires AllFit(ps) && AllFit(qs) && EncodeParts(ps) == EncodeParts(qs)
    ensures EncodeParts(ps[1..]) == EncodeParts(qs[1..]) && AllFit(ps[1..]) && AllFit(qs[1..])
    ensures ShapeOf(ps[1..]) == ShapeOf(ps)[1..] && ShapeOf(qs[1..]) == ShapeOf(qs)[1..]
  {
    hide EncodePart, Fits;
    PartUnique(ps[0], EncodeParts(ps[1..]), qs[0], EncodeParts(qs[1..]));
  }

  lemma {:induction false} SharedMeets(ps: seq<Part>, qs: seq<Part>)
    requires AllFit(ps) && AllFit(qs) && EncodeParts(ps) == EncodeParts(qs)
    ensures Meets(ShapeOf(ps), ShapeOf(qs))
    decreases |ps|
  {
    hide Fits, MinSize, EncodePart;
    SizeAtLeast(ps);
    SizeAtLeast(qs);
    if ps != [] && qs != [] {
      assert ShapeOf(ps)[0] == ps[0].Blob? && ShapeOf(qs)[0] == qs[0].Blob?;
      if ps[0].Blob? == qs[0].Blob? {
        TailsAgree(ps, qs);
        SharedMeets(ps[1..], qs[1..]);
      }
    } else {
      EncodeNoParts();
    }
  }

  // ------------------------------------------------------------ where they do meet

  lemma ShapeConcat(ps: seq<Part>, qs: seq<Part>)
    ensures ShapeOf(ps + qs) == ShapeOf(ps) + ShapeOf(qs)
    ensures AllFit(ps) && AllFit(qs) ==> AllFit(ps + qs)
  {
  }

  /** Against numbers alone: one blob takes up the difference. */
  lemma BlobMeetsNumbers(a: Shape, b: Shape)
    requires 0 < |a| <= MAX_PARTS && 0 < |b| <= MAX_PARTS && a[0]
    requires true !in b && MinSize(a) <= 8 * |b|
    ensures Share(a, b)
  {
    hide Zeros, ZeroParts, EncodeParts, EncodePart, MinSize, ShapeOf, Fits, U32, AllFit;
    assert b[0] in b;
    MinSizeStep(a);
    NumbersOnly(b[1..]);
    var n, rest := 8 * |b| - MinSize(a), MinSize(a[1..]);
    var ps, qs := [Blob(Zeros(n))] + ZeroParts(a[1..]), [Num(n * TWO32)] + ZeroParts(b[1..]);
    OneBlob(Zeros(n));
    OneNumber(n);
    ThenZeros(Blob(Zeros(n)), a[1..]);
    ThenZeros(Num(n * TWO32), b[1..]);
    PaddedZeros(U32(n), n, rest);
    PaddedZeros(U32(n), 4, 8 * |b| - 8);
    assert a == [true] + a[1..];
    assert b == [false] + b[1..];
    assert SharedBy(ps, a, qs, b);
  }

  /** One part, and zeros after it. */
  lemma ThenZeros(p: Part, rest: Shape)
    requires Fits(p)
    ensures AllFit([p] + ZeroParts(rest)) && ShapeOf([p] + ZeroParts(rest)) == [p.Blob?] + rest
    ensures EncodeParts([p] + ZeroParts(rest)) == EncodeParts([p]) + Zeros(MinSize(rest))
  {
    hide Fits, EncodeParts, Zeros, MinSize;
    ZeroPartsEncode(rest);
    EncodePartsConcat([p], ZeroParts(rest));
    assert ShapeOf([p]) == [p.Blob?];
    ShapeConcat([p], ZeroParts(rest));
  }

  lemma PaddedZeros(lead: Bytes, m: nat, n: nat)
    ensures lead + Zeros(m) + Zeros(n) == lead + Zeros(m + n)
  {
    hide Zeros;
    ZerosAdd(m, n);
    assert lead + Zeros(m) + Zeros(n) == lead + (Zeros(m) + Zeros(n));
  }

  lemma MinSizeStep(a: Shape)
    requires a != []
    ensures MinSize(a) == (if a[0] then 4 else 8) + MinSize(a[1..])
  {
  }

  lemma ZerosAdd(m: nat, n: nat)
    ensures Zeros(m) + Zeros(n) == Zeros(m + n)
  {
  }

  lemma OneBlob(b: Bytes)
    ensures EncodeParts([Blob(b)]) == U32(|b|) + b
    ensures |b| < TWO32 ==> Fits(Blob(b))
  {
    hide U32;
    EncodeOnePart(Blob(b));
  }

  lemma OneNumber(n: nat)
    requires n < 0x8000_0000
    ensures EncodeParts([Num(n * TWO32)]) == U32(n) + Zeros(4) && Fits(Num(n * TWO32))
  {
    hide U32, Zeros, U64;
    EncodeOnePart(Num(n * TWO32));
    HighNumber(n);
  }

  /** Against a shape with a blob of its own, after j numbers: each blob holds the
      other's tail. */
  lemma BlobMeetsBlob(a: Shape, b: Shape, j: nat)
    requires 0 < |a| <= MAX_PARTS && 0 < j < |b| <= MAX_PARTS && a[0]
    requires b[j] && true !in b[..j]
    ensures Share(a, b)
  {
    hide Zeros, ZeroParts, EncodeParts, EncodePart, MinSize, ShapeOf, Fits, U32;
    var w, v := MinSize(a[1..]), MinSize(b[j + 1..]);
    MinSizeBound(a[1..]);
    MinSizeBound(b[j + 1..]);
    NumbersOnly(b[1..j]);
    var c := 8 * (j - 1);
    var content := Zeros(4 + c) + U32(w) + Zeros(v);
    var n := |content|;
    OneBlob(content);
    OneNumber(n);
    OneBlob(Zeros(w));
    ThenZeros(Blob(content), a[1..]);
    ThenZeros(Num(n * TWO32), b[1..j]);
    ThenZeros(Blob(Zeros(w)), b[j + 1..]);
    var ps := [Blob(content)] + ZeroParts(a[1..]);
    var front, last := [Num(n * TWO32)] + ZeroParts(b[1..j]), [Blob(Zeros(w))] + ZeroParts(b[j + 1..]);
    var qs := front + last;
    EncodePartsConcat(front, last);
    ShapeConcat(front, last);
    SameBytes(n, c, w, v);
    assert EncodeParts(ps) == U32(n) + content + Zeros(w);
    assert EncodeParts(qs) == U32(n) + Zeros(4) + Zeros(c) + (U32(w) + Zeros(w) + Zeros(v));
    assert a == [true] + a[1..];
    assert b == [false] + b[1..j] + ([true] + b[j + 1..]) by { assert b[0] == b[..j][0]; }
    assert SharedBy(ps, a, qs, b);
  }

  lemma SameBytes(n: nat, c: nat, w: nat, v: nat)
    ensures U32(n) + (Zeros(4 + c) + U32(w) + Zeros(v)) + Zeros(w)
         == U32(n) + Zeros(4) + Zeros(c) + (U32(w) + Zeros(w) + Zeros(v))
  {
    hide U32, Zeros;
    ZerosAdd(4, c);
    ZerosAdd(v, w);
    ZerosAdd(w, v);
    assert U32(n) + (Zeros(4 + c) + U32(w) + Zeros(v)) + Zeros(w)
        == U32(n) + Zeros(4 + c) + (U32(w) + (Zeros(v) + Zeros(w)));
    assert U32(n) + Zeros(4) + Zeros(c) + (U32(w) + Zeros(w) + Zeros(v))
        == U32(n) + (Zeros(4) + Zeros(c)) + (U32(w) + (Zeros(w) + Zeros(v)));
  }

  lemma {:induction false} FirstBlob(b: Shape) returns (j: nat)
    requires true in b
    ensures j < |b| && b[j] && true !in b[..j]
  {
    if b[0] {
      j := 0;
    } else {
      var i := FirstBlob(b[1..]);
      j := i + 1;
      assert b[..j] == [b[0]] + b[1..][..i];
    }
  }

  lemma OverlapShares(a: Shape, b: Shape)
    requires 0 < |a| <= MAX_PARTS && 0 < |b| <= MAX_PARTS && a[0] && !b[0] && Overlap(a, b)
    ensures Share(a, b) && Share(b, a)
  {
    hide Share, MinSize;
    if true in b {
      var j := FirstBlob(b);
      BlobMeetsBlob(a, b, j);
    } else {
      BlobMeetsNumbers(a, b);
    }
    ShareTurns(a, b);
  }

  lemma ShareTurns(a: Shape, b: Shape)
    ensures Share(a, b) ==> Share(b, a)
  {
    hide AllFit, ShapeOf, EncodeParts;
    if Share(a, b) {
      var ps, qs :| SharedBy(ps, a, qs, b);
      assert SharedBy(qs, b, ps, a);
    }
  }

  lemma ShareLonger(k: bool, a: Shape, b: Shape)
    requires Share(a, b)
    ensures Share([k] + a, [k] + b)
  {
    hide EncodeParts, ShapeOf, Fits;
    var ps, qs :| SharedBy(ps, a, qs, b);
    var front := ZeroParts([k]);
    ZeroPartsEncode([k]);
    EncodePartsConcat(front, ps);
    EncodePartsConcat(front, qs);
    ShapeConcat(front, ps);
    ShapeConcat(front, qs);
    assert SharedBy(front + ps, [k] + a, front + qs, [k] + b);
  }

  lemma {:induction false} MeetsShares(a: Shape, b: Shape)
    requires |a| <= MAX_PARTS && |b| <= MAX_PARTS && Meets(a, b)
    ensures Share(a, b)
    decreases |a|
  {
    hide Share, Overlap;
    if a == [] || b == [] {
      NothingShared();
    } else if a[0] == b[0] {
      MeetsShares(a[1..], b[1..]);
      ShareLonger(a[0], a[1..], b[1..]);
      assert a == [a[0]] + a[1..] && b == [b[0]] + b[1..];
    } else if a[0] {
      OverlapShares(a, b);
    } else {
      OverlapShares(b, a);
    }
  }

  lemma NothingShared()
    ensures Share([], [])
  {
    assert SharedBy([], [], [], []);
  }

  /** Exactly when two shapes can be encoded alike: where they first differ one has a
      blob and the other a number, and the one with the number holds a blob further
      on, or is numbers alone with room for the least the other takes. */
  lemma ShapesShareExactly(a: Shape, b: Shape)
    requires |a| <= MAX_PARTS && |b| <= MAX_PARTS
    ensures Share(a, b) <==> Meets(a, b)
  {
    hide AllFit, EncodeParts, Meets, ShapeOf;
    if Share(a, b) {
      var ps, qs :| SharedBy(ps, a, qs, b);
      SharedMeets(ps, qs);
    }
    if Meets(a, b) {
      MeetsShares(a, b);
    }
  }

  /** Two contexts, labels and all: some contexts of the two shapes are the same bytes
      exactly when the labels are one and the shapes meet. */
  lemma ContextsShareExactly(tag: Bytes, a: Shape, tag': Bytes, b: Shape)
    requires |tag| < TWO32 && |tag'| < TWO32 && |a| <= MAX_PARTS && |b| <= MAX_PARTS
    ensures (exists ps, qs :: AllFit(ps) && AllFit(qs) && ShapeOf(ps) == a && ShapeOf(qs) == b
                              && Encode(tag, ps) == Encode(tag', qs))
            <==> tag == tag' && Meets(a, b)
  {
    hide AllFit, EncodeParts, Meets, ShapeOf, Prefixed;
    if ps, qs :| AllFit(ps) && AllFit(qs) && ShapeOf(ps) == a && ShapeOf(qs) == b
                 && Encode(tag, ps) == Encode(tag', qs) {
      assert Encode(tag, ps) + [] == Encode(tag', qs) + [];
      LabelUnique(tag, ps, [], tag', qs, []);
      assert EncodeParts(ps) + [] == EncodeParts(ps) && EncodeParts(qs) + [] == EncodeParts(qs);
      SharedMeets(ps, qs);
    }
    if tag == tag' && Meets(a, b) {
      MeetsShares(a, b);
      var ps, qs :| SharedBy(ps, a, qs, b);
      assert Encode(tag, ps) == Encode(tag', qs);
    }
  }
}
