/** The byte encoding every sealed-device signature and hash rests on
    (util/sealedchain.go): length-prefixed strings, fixed eight-byte integers.

    Strings are sequences of bytes, as they are in the source language. A string
    part and a byte-slice part are written alike, so both are `Blob`. */
module Encoding {

  type byte = x: int | 0 <= x < 256
  type Bytes = seq<byte>

  datatype Part = Blob(bytes: Bytes) | Num(value: int)

  const TWO32: int := 0x1_0000_0000
  const TWO63: int := 0x8000_0000_0000_0000
  const TWO64: int := 0x1_0000_0000_0000_0000

  function Ascii(s: string): (r: Bytes)
    ensures |r| == |s|
    ensures forall i :: 0 <= i < |s| ==> r[i] == s[i] as int % 256
  {
    seq(|s|, i requires 0 <= i < |s| => s[i] as int % 256)
  }

  // ---------------------------------------------------------------- integers

  function Pow256(k: nat): (p: nat)
    ensures p > 0
  {
    if k == 0 then 1 else 256 * Pow256(k - 1)
  }

  /** The k low-order bytes of n, most significant first. */
  function BigEndian(n: nat, k: nat): (r: Bytes)
    ensures |r| == k
  {
    if k == 0 then [] else BigEndian(n / 256, k - 1) + [n % 256]
  }

  function FromBigEndian(s: Bytes): (n: nat)
    ensures n < Pow256(|s|)
  {
    if s == [] then 0 else 256 * FromBigEndian(s[..|s| - 1]) + s[|s| - 1]
  }

  lemma {:induction false} BigEndianRoundTrip(n: nat, k: nat)
    requires n < Pow256(k)
    ensures FromBigEndian(BigEndian(n, k)) == n
  {
    if k == 0 {
    } else {
      BigEndianRoundTrip(n / 256, k - 1);
      var r := BigEndian(n, k);
      assert r[..|r| - 1] == BigEndian(n / 256, k - 1);
    }
  }

  lemma {:induction false} FromBigEndianRoundTrip(s: Bytes)
    ensures BigEndian(FromBigEndian(s), |s|) == s
  {
    if s == [] {
    } else {
      FromBigEndianRoundTrip(s[..|s| - 1]);
      assert FromBigEndian(s) / 256 == FromBigEndian(s[..|s| - 1]);
    }
  }

  lemma PowersOf256()
    ensures Pow256(4) == TWO32 && Pow256(8) == TWO64
  {
    assert Pow256(1) == 256;
    assert Pow256(2) == 0x1_0000;
    assert Pow256(3) == 0x100_0000;
    assert Pow256(4) == TWO32;
    assert Pow256(5) == 0x100_0000_0000;
    assert Pow256(6) == 0x1_0000_0000_0000;
    assert Pow256(7) == 0x100_0000_0000_0000;
  }

  /** binary.BigEndian.AppendUint32 of uint32(n): the cast truncates. */
  function U32(n: nat): (r: Bytes)
    ensures |r| == 4
  {
    BigEndian(n % TWO32, 4)
  }

  /** binary.BigEndian.AppendUint64 of uint64(i): two's complement. */
  function U64(i: int): (r: Bytes)
    ensures |r| == 8
  {
    BigEndian(i % TWO64, 8)
  }

  predicate Int64(i: int) { -TWO63 <= i < TWO63 }

  lemma BigEndianInjective(m: nat, n: nat, k: nat)
    requires m < Pow256(k) && n < Pow256(k) && BigEndian(m, k) == BigEndian(n, k)
    ensures m == n
  {
    BigEndianRoundTrip(m, k);
    BigEndianRoundTrip(n, k);
  }

  lemma U32Injective(m: nat, n: nat)
    requires m < TWO32 && n < TWO32 && U32(m) == U32(n)
    ensures m == n
  {
    hide BigEndian, Pow256;
    PowersOf256();
    BigEndianInjective(m, n, 4);
  }

  /** A length is written modulo 2^32: exactly lengths that far apart are alike. */
  lemma U32Wraps(m: nat, n: nat)
    ensures U32(m) == U32(n) <==> m % TWO32 == n % TWO32
  {
    hide BigEndian, Pow256;
    PowersOf256();
    if U32(m) == U32(n) {
      BigEndianInjective(m % TWO32, n % TWO32, 4);
    }
  }

  lemma U64Injective(i: int, j: int)
    requires Int64(i) && Int64(j) && U64(i) == U64(j)
    ensures i == j
  {
    hide BigEndian, Pow256;
    PowersOf256();
    BigEndianInjective(i % TWO64, j % TWO64, 8);
  }

  // ---------------------------------------------------------------- encoding

  function Prefixed(b: Bytes): (r: Bytes)
    ensures |r| == 4 + |b|
  {
    U32(|b|) + b
  }

  function EncodePart(p: Part): (r: Bytes)
    ensures |r| >= 4
  {
    match p
    case Blob(b) => Prefixed(b)
    case Num(i) => U64(i)
  }

  function EncodeParts(parts: seq<Part>): (r: Bytes)
    ensures |r| >= 4 * |parts|
  {
    if parts == [] then [] else EncodePart(parts[0]) + EncodeParts(parts[1..])
  }

  function Encode(tag: Bytes, parts: seq<Part>): (r: Bytes)
    ensures |r| >= 4 + |tag|
  {
    Prefixed(tag) + EncodeParts(parts)
  }

  lemma EncodeNoParts()
    ensures EncodeParts([]) == []
  {
  }

  lemma {:induction false} EncodePartsSnoc(parts: seq<Part>, p: Part)
    ensures EncodeParts(parts + [p]) == EncodeParts(parts) + EncodePart(p)
  {
    hide EncodePart;
    if parts == [] {
      assert [p][1..] == [];
    } else {
      EncodePartsSnoc(parts[1..], p);
      assert (parts + [p])[1..] == parts[1..] + [p];
      assert EncodePart(parts[0]) + (EncodeParts(parts[1..]) + EncodePart(p))
          == (EncodePart(parts[0]) + EncodeParts(parts[1..])) + EncodePart(p);
    }
  }

  method AddBytes(out: Bytes, b: Bytes) returns (out': Bytes)
    ensures out' == out + Prefixed(b)
  {
    out' := out + U32(|b|);
    out' := out' + b;
  }

  /** The source's loop: one buffer, appended to part by part. */
  method SealedContext(tag: Bytes, parts: seq<Part>) returns (out: Bytes)
    ensures out == Encode(tag, parts)
  {
    hide EncodeParts, U32, U64, Prefixed, BigEndian;
    out := AddBytes([], tag);
    EncodeNoParts();
    assert parts[..0] == [];
    var i := 0;
    while i < |parts|
      invariant 0 <= i <= |parts|
      invariant out == Prefixed(tag) + EncodeParts(parts[..i])
    {
      EncodePartsSnoc(parts[..i], parts[i]);
      assert parts[..i + 1] == parts[..i] + [parts[i]];
      match parts[i] {
        case Blob(b) => out := AddBytes(out, b);
        case Num(n) => out := out + U64(n);
      }
      assert out == Prefixed(tag) + (EncodeParts(parts[..i]) + EncodePart(parts[i]));
      i := i + 1;
    }
    assert parts[..i] == parts;
  }

  // ---------------------------------------------------------- unique reading

  /** What fits the encoding: lengths that 32 bits hold and 64-bit integers. */
  predicate Fits(p: Part) {
    match p
    case Blob(b) => |b| < TWO32
    case Num(i) => Int64(i)
  }

  predicate AllFit(parts: seq<Part>) {
    forall i :: 0 <= i < |parts| ==> Fits(parts[i])
  }

  predicate SameShape(ps: seq<Part>, qs: seq<Part>) {
    |ps| == |qs| && forall i :: 0 <= i < |ps| ==> ps[i].Blob? == qs[i].Blob?
  }

  lemma PrefixedUnique(a: Bytes, x: Bytes, b: Bytes, y: Bytes)
    requires |a| < TWO32 && |b| < TWO32
    requires Prefixed(a) + x == Prefixed(b) + y
    ensures a == b && x == y
  {
    var l, r := Prefixed(a) + x, Prefixed(b) + y;
    assert l[..4] == U32(|a|) && r[..4] == U32(|b|);
    U32Injective(|a|, |b|);
    assert l[4..4 + |a|] == a && r[4..4 + |b|] == b;
    assert l[4 + |a|..] == x && r[4 + |b|..] == y;
  }

  lemma PartUnique(p: Part, x: Bytes, q: Part, y: Bytes)
    requires Fits(p) && Fits(q) && p.Blob? == q.Blob?
    requires EncodePart(p) + x == EncodePart(q) + y
    ensures p == q && x == y
  {
    match p {
      case Blob(b) => PrefixedUnique(b, x, q.bytes, y);
      case Num(i) =>
        var l, r := U64(i) + x, U64(q.value) + y;
        assert l[..8] == U64(i) && r[..8] == U64(q.value);
        U64Injective(i, q.value);
        assert l[8..] == x && r[8..] == y;
    }
  }

  lemma EncodePartsCons(ps: seq<Part>, x: Bytes)
    requires ps != []
    ensures EncodeParts(ps) + x == EncodePart(ps[0]) + (EncodeParts(ps[1..]) + x)
  {
    hide EncodePart;
  }

  lemma {:induction false} PartsUnique(ps: seq<Part>, x: Bytes, qs: seq<Part>, y: Bytes)
    requires AllFit(ps) && AllFit(qs) && SameShape(ps, qs)
    requires EncodeParts(ps) + x == EncodeParts(qs) + y
    ensures ps == qs && x == y
  {
    hide EncodePart;
    if ps == [] {
      assert EncodeParts(ps) + x == x && EncodeParts(qs) + y == y;
    } else {
      EncodePartsCons(ps, x);
      EncodePartsCons(qs, y);
      PartUnique(ps[0], EncodeParts(ps[1..]) + x, qs[0], EncodeParts(qs[1..]) + y);
      PartsUnique(ps[1..], x, qs[1..], y);
      assert ps == [ps[0]] + ps[1..] && qs == [qs[0]] + qs[1..];
    }
  }

  /** Whatever follows it and whatever its parts are, a context names one label. */
  lemma LabelUnique(tag: Bytes, ps: seq<Part>, x: Bytes, tag': Bytes, qs: seq<Part>, y: Bytes)
    requires |tag| < TWO32 && |tag'| < TWO32
    requires Encode(tag, ps) + x == Encode(tag', qs) + y
    ensures tag == tag' && EncodeParts(ps) + x == EncodeParts(qs) + y
  {
    hide EncodeParts, Prefixed;
    assert Encode(tag, ps) + x == Prefixed(tag) + (EncodeParts(ps) + x);
    assert Encode(tag', qs) + y == Prefixed(tag') + (EncodeParts(qs) + y);
    PrefixedUnique(tag, EncodeParts(ps) + x, tag', EncodeParts(qs) + y);
  }

  /** Self-delimiting: among contexts of one shape, bytes that start with a
      context start with only that one, and the rest is what follows it. */
  lemma ContextUnique(tag: Bytes, ps: seq<Part>, x: Bytes, tag': Bytes, qs: seq<Part>, y: Bytes)
    requires |tag| < TWO32 && |tag'| < TWO32
    requires AllFit(ps) && AllFit(qs) && SameShape(ps, qs)
    requires Encode(tag, ps) + x == Encode(tag', qs) + y
    ensures tag == tag' && ps == qs && x == y
  {
    hide *;
    LabelUnique(tag, ps, x, tag', qs, y);
    PartsUnique(ps, x, qs, y);
  }

  /** The shape has to be fixed: under any one label, every four-byte string
      is encoded as some integer is. */
  lemma ShapeMatters(tag: Bytes, b: Bytes)
    requires |b| == 4
    ensures var n := 4 * TWO32 + FromBigEndian(b);
            Int64(n) && Encode(tag, [Num(n)]) == Encode(tag, [Blob(b)])
  {
    hide BigEndian, FromBigEndian, Pow256, EncodeParts;
    PowersOf256();
    FromBigEndianRoundTrip(b);
    HighBytes(4, FromBigEndian(b));
    EncodeOnePart(Num(4 * TWO32 + FromBigEndian(b)));
    EncodeOnePart(Blob(b));
  }

  lemma EncodeOnePart(p: Part)
    ensures EncodeParts([p]) == EncodePart(p)
  {
    assert [p] == [] + [p];
    EncodePartsSnoc([], p);
  }

  lemma HighBytes(hi: nat, lo: nat)
    requires lo < TWO32
    ensures BigEndian(hi * TWO32 + lo, 8) == BigEndian(hi, 4) + BigEndian(lo, 4)
  {
    hide BigEndian, Pow256;
    PowersOf256();
    ShiftedBytes(hi, lo, 4);
  }

  lemma {:induction false} ShiftedBytes(hi: nat, lo: nat, k: nat)
    requires lo < Pow256(k)
    ensures BigEndian(hi * Pow256(k) + lo, 4 + k) == BigEndian(hi, 4) + BigEndian(lo, k)
    decreases k
  {
    if k == 0 {
      assert BigEndian(hi, 4) + [] == BigEndian(hi, 4);
    } else {
      var n, p := hi * Pow256(k) + lo, Pow256(k - 1);
      assert n == 256 * (hi * p) + lo;
      assert n / 256 == hi * p + lo / 256 && n % 256 == lo % 256;
      ShiftedBytes(hi, lo / 256, k - 1);
      assert BigEndian(hi, 4) + (BigEndian(lo / 256, k - 1) + [lo % 256])
          == (BigEndian(hi, 4) + BigEndian(lo / 256, k - 1)) + [lo % 256];
    }
  }
}
