/** Numbers as big-endian bytes, as `math/big` and `net` hold addresses, and the bytes of CIDR masks. */
module Bytes {
  type Byte = x: int | 0 <= x < 256

  function Pow2(n: nat): (p: int)
    ensures p >= 1
  {
    if n == 0 then 1 else 2 * Pow2(n - 1)
  }

  /** `SetBytes` */
  function FromBytes(b: seq<Byte>): (v: nat) {
    if b == [] then 0 else 256 * FromBytes(b[..|b| - 1]) + b[|b| - 1]
  }

  /** `Bytes`: no leading zeros. */
  function ToBytes(v: nat): (b: seq<Byte>) {
    if v == 0 then [] else ToBytes(v / 256) + [v % 256]
  }

  /** The last `k` bytes of a number. */
  function LastBytes(v: nat, k: nat): (b: seq<Byte>)
    ensures |b| == k
  {
    if k == 0 then [] else LastBytes(v / 256, k - 1) + [v % 256]
  }

  /** Bitwise and. */
  function And(a: nat, b: nat): nat {
    if a == 0 || b == 0 then 0 else 2 * And(a / 2, b / 2) + (a % 2) * (b % 2)
  }

  /** `CIDRMask` */
  function CidrMask(ones: nat, k: nat): (m: seq<Byte>)
    ensures |m| == k
  {
    if k == 0 then []
    else if ones >= 8 then [255] + CidrMask(ones - 8, k - 1)
    else [255 - 255 / Pow2(ones)] + CidrMask(0, k - 1)
  }

  /** What `IPNet.Contains` compares, byte by byte. */
  predicate SameMasked(x: seq<Byte>, y: seq<Byte>, m: seq<Byte>)
    requires |x| == |y| == |m|
  {
    forall i :: 0 <= i < |x| ==> And(x[i], m[i]) == And(y[i], m[i])
  }

  /** Two addresses in the same block: equal without their last bits. */
  predicate SameQuotient(x: seq<Byte>, y: seq<Byte>, bits: nat) {
    FromBytes(x) / Pow2(bits) == FromBytes(y) / Pow2(bits)
  }

  // ---------------------------------------------------------------------------------------------
  // Arithmetic

  lemma {:induction false} Pow2Adds(a: nat, b: nat)
    ensures Pow2(a + b) == Pow2(a) * Pow2(b)
  {
    if a == 0 {
    } else {
      Pow2Adds(a - 1, b);
      assert Pow2(a + b) == 2 * (Pow2(a - 1) * Pow2(b)) == (2 * Pow2(a - 1)) * Pow2(b);
    }
  }

  lemma {:induction false} Pow2Grows(a: nat, b: nat)
    requires a <= b
    ensures Pow2(a) <= Pow2(b)
  {
    if a == b {
    } else {
      Pow2Grows(a, b - 1);
    }
  }

  lemma {:induction false} Pow2Byte(k: nat)
    ensures Pow2(8 * k + 8) == 256 * Pow2(8 * k)
  {
    Pow2Adds(8 * k, 8);
    Eight();
  }

  lemma {:induction false} Eight()
    ensures Pow2(0) == 1 && Pow2(1) == 2 && Pow2(2) == 4 && Pow2(3) == 8 && Pow2(4) == 16
    ensures Pow2(5) == 32 && Pow2(6) == 64 && Pow2(7) == 128 && Pow2(8) == 256
  {
    assert Pow2(4) == 16;
    assert Pow2(6) == 64;
  }

  lemma {:induction false} DivideBy(q: int, d: int, r: int)
    requires d > 0 && 0 <= r < d
    ensures (q * d + r) / d == q && (q * d + r) % d == r
  {
    var x := q * d + r;
    assert x == d * (x / d) + x % d;
    assert d * (q - x / d) == x % d - r;
    Multiple(d, q - x / d);
  }

  lemma {:induction false} Multiple(d: int, k: int)
    requires d > 0 && -d < d * k < d
    ensures k == 0
  {
    assert k >= 1 ==> d * k >= d;
    assert k <= -1 ==> d * k <= -d;
  }

  lemma {:induction false} Regroup(b: int, d: int, q: int, r: int)
    ensures b * (d * q + r) == q * (b * d) + b * r
  {
  }

  lemma {:induction false} DigitFits(b: int, d: int, r: int)
    requires b > 0 && 0 <= r < d
    ensures 0 <= b * r <= b * d - b
  {
    assert b * (d - 1) == b * d - b;
    assert b * r <= b * (d - 1);
  }

  lemma {:induction false} DivideTwice(x: nat, b: int, d: int)
    requires b > 0 && d > 0
    ensures b * d > 0 && x / (b * d) == (x / b) / d
  {
    var y := x / b;
    var q, r1, r2 := y / d, x % b, y % d;
    assert y == d * q + r2;
    assert x == b * y + r1;
    Regroup(b, d, q, r2);
    DigitFits(b, d, r2);
    DivideBy(q, b * d, b * r2 + r1);
  }

  /** Two aligned parts are equal exactly when both are: the digit above `b * d`, and what is left. */
  lemma {:induction false} DivideSum(q: nat, r: nat, b: int, d: int)
    requires b > 0 && d > 0 && r < b * d
    ensures (q * (b * d) + r) / d == q * b + r / d && 0 <= r / d < b
  {
    var s := r % d;
    assert r == d * (r / d) + s;
    assert q * (b * d) + r == (q * b + r / d) * d + s;
    DivideBy(q * b + r / d, d, s);
    var t := r / d;
    assert t >= b ==> d * t >= d * b;
  }

  lemma {:induction false} SameParts(q1: nat, q2: nat, r1: int, r2: int, b: int)
    requires b > 0 && 0 <= r1 < b && 0 <= r2 < b
    ensures q1 * b + r1 == q2 * b + r2 <==> q1 == q2 && r1 == r2
  {
    if q1 * b + r1 == q2 * b + r2 {
      DivideBy(q1, b, r1);
      DivideBy(q2, b, r2);
    }
  }

  // ---------------------------------------------------------------------------------------------
  // Bytes and numbers

  lemma {:induction false} FromBytesBound(b: seq<Byte>)
    ensures FromBytes(b) < Pow2(8 * |b|)
  {
    if b == [] {
    } else {
      FromBytesBound(b[..|b| - 1]);
      Pow2Byte(|b| - 1);
    }
  }

  /** Reading from the front instead. */
  lemma {:induction false} FromBytesHead(b: seq<Byte>)
    requires b != []
    ensures FromBytes(b) == b[0] * Pow2(8 * (|b| - 1)) + FromBytes(b[1..])
  {
    if |b| > 1 {
      assert b == [b[0]] + b[1..];
      FromBytesJoin([b[0]], b[1..]);
      assert FromBytes([b[0]]) == b[0];
    }
  }

  lemma {:induction false} Scale(a: int, p: int, q: int)
    requires q == 256 * p
    ensures 256 * (a * p) == a * q
  {
  }

  lemma {:induction false} FromBytesJoin(a: seq<Byte>, b: seq<Byte>)
    ensures FromBytes(a + b) == FromBytes(a) * Pow2(8 * |b|) + FromBytes(b)
  {
    if b == [] {
      assert a + b == a;
    } else {
      var init := b[..|b| - 1];
      FromBytesJoin(a, init);
      assert (a + b)[..|a + b| - 1] == a + init;
      Pow2Byte(|b| - 1);
      Scale(FromBytes(a), Pow2(8 * |init|), Pow2(8 * |b|));
    }
  }

  lemma {:induction false} LastBytesValue(v: nat, k: nat)
    requires v < Pow2(8 * k)
    ensures FromBytes(LastBytes(v, k)) == v
  {
    if k == 0 {
    } else {
      Pow2Byte(k - 1);
      LastBytesValue(v / 256, k - 1);
      assert LastBytes(v, k)[..k - 1] == LastBytes(v / 256, k - 1);
    }
  }

  /** The bytes of a number are determined by it. */
  lemma {:induction false} BytesOfValue(b: seq<Byte>)
    ensures LastBytes(FromBytes(b), |b|) == b
  {
    if b == [] {
    } else {
      BytesOfValue(b[..|b| - 1]);
      assert b == b[..|b| - 1] + [b[|b| - 1]];
    }
  }

  /** Stripping leading zeros leaves `k` bytes exactly for the numbers of `k` bytes. */
  lemma {:induction false} ToBytesIs(v: nat, k: nat)
    requires k > 0 && Pow2(8 * (k - 1)) <= v < Pow2(8 * k)
    ensures ToBytes(v) == LastBytes(v, k)
  {
    Pow2Byte(k - 1);
    if k == 1 {
      assert Pow2(0) == 1;
    } else {
      Pow2Byte(k - 2);
      ToBytesIs(v / 256, k - 1);
    }
  }

  lemma {:induction false} ToBytesShort(v: nat, k: nat)
    ensures v < Pow2(8 * k) <==> |ToBytes(v)| <= k
  {
    if k == 0 {
      assert Pow2(0) == 1;
    } else if v != 0 {
      Pow2Byte(k - 1);
      ToBytesShort(v / 256, k - 1);
    }
  }

  lemma {:induction false} NoLeadingZero(v: nat)
    ensures ToBytes(v) == LastBytes(v, |ToBytes(v)|)
    ensures v != 0 ==> ToBytes(v) != [] && ToBytes(v)[0] != 0
  {
    if v == 0 {
    } else {
      NoLeadingZero(v / 256);
    }
  }

  /** A number at least as big has at least as many bytes. */
  lemma {:induction false} KeepsBytes(b: seq<Byte>, v: nat)
    requires b != [] && b[0] != 0 && FromBytes(b) <= v
    ensures |ToBytes(v)| >= |b|
  {
    if |b| == 1 {
    } else {
      KeepsBytes(b[..|b| - 1], v / 256);
    }
  }

  // ---------------------------------------------------------------------------------------------
  // Masks

  lemma {:induction false} AndAll(a: nat, k: nat)
    requires a < Pow2(k)
    ensures And(a, Pow2(k) - 1) == a
  {
    if k == 0 || a == 0 {
    } else {
      AndAll(a / 2, k - 1);
    }
  }

  lemma {:induction false} HalfOfPart(a: nat, j: nat)
    requires j > 0
    ensures a % Pow2(j) == 2 * ((a / 2) % Pow2(j - 1)) + a % 2
  {
    var d := Pow2(j - 1);
    var h := a / 2;
    assert h == d * (h / d) + h % d;
    assert a == 2 * (d * (h / d) + h % d) + a % 2;
    assert 2 * (d * (h / d)) == (h / d) * (2 * d);
    DivideBy(h / d, 2 * d, 2 * (h % d) + a % 2);
  }

  lemma {:induction false} AndEven(a: nat, m: nat)
    requires m % 2 == 0
    ensures And(a, m) == 2 * And(a / 2, m / 2)
  {
  }

  /** A mask of leading ones clears the bits below. */
  lemma {:induction false} AndMask(a: nat, k: nat, j: nat, m: nat)
    requires a < Pow2(k) && j <= k && m == Pow2(k) - Pow2(j)
    ensures And(a, m) == a - a % Pow2(j)
  {
    if j == 0 {
      AndAll(a, k);
    } else {
      HalfMask(k, j, m);
      AndMask(a / 2, k - 1, j - 1, m / 2);
      HalfOfPart(a, j);
      AndEven(a, m);
    }
  }

  lemma {:induction false} HalfMask(k: nat, j: nat, m: nat)
    requires 0 < j <= k && m == Pow2(k) - Pow2(j)
    ensures m % 2 == 0 && m / 2 == Pow2(k - 1) - Pow2(j - 1)
  {
  }

  lemma {:induction false} MaskByteIs(ones: nat)
    requires ones < 8
    ensures 255 - 255 / Pow2(ones) == Pow2(8) - Pow2(8 - ones)
  {
    Eight();
  }

  lemma {:induction false} Rounds(x: nat, d: int)
    requires d > 0
    ensures x - x % d == (x / d) * d
  {
  }

  lemma {:induction false} MaskByteRounds(ones: nat, x: Byte, m: Byte)
    requires ones < 8 && m == 255 - 255 / Pow2(ones)
    ensures And(x, m) == (x / Pow2(8 - ones)) * Pow2(8 - ones)
  {
    MaskByteIs(ones);
    ByteBelow(x);
    AndMask(x, 8, 8 - ones, m);
    Rounds(x, Pow2(8 - ones));
  }

  lemma {:induction false} ByteBelow(x: Byte)
    ensures x < Pow2(8)
  {
    Eight();
  }

  lemma {:induction false} MaskByte(ones: nat, x: Byte, y: Byte)
    requires ones < 8
    ensures var m := 255 - 255 / Pow2(ones);
      And(x, m) == And(y, m) <==> x / Pow2(8 - ones) == y / Pow2(8 - ones)
  {
    var m := 255 - 255 / Pow2(ones);
    assert 0 <= m < 256 by { Eight(); }
    MaskByteRounds(ones, x, m);
    MaskByteRounds(ones, y, m);
    SameParts(x / Pow2(8 - ones), y / Pow2(8 - ones), 0, 0, Pow2(8 - ones));
  }

  /** Comparing under a mask, byte by byte, is comparing the quotients by the block size. */
  lemma {:induction false} MaskedIsQuotient(x: seq<Byte>, y: seq<Byte>, ones: nat)
    requires |x| == |y| && ones <= 8 * |x|
    ensures SameMasked(x, y, CidrMask(ones, |x|)) <==> SameQuotient(x, y, 8 * |x| - ones)
  {
    if x == [] {
      assert FromBytes(x) == 0 && FromBytes(y) == 0;
    } else if ones >= 8 {
      MaskHigh(x, y, ones);
      MaskedIsQuotient(x[1..], y[1..], ones - 8);
      QuotientHigh(x, y, ones);
    } else {
      MaskLow(x, y, ones);
      QuotientLow(x, y, ones);
    }
  }

  lemma {:induction false} MaskHigh(x: seq<Byte>, y: seq<Byte>, ones: nat)
    requires |x| == |y| > 0 && ones >= 8
    ensures SameMasked(x, y, CidrMask(ones, |x|)) <==>
      x[0] == y[0] && SameMasked(x[1..], y[1..], CidrMask(ones - 8, |x[1..]|))
  {
    var m := CidrMask(ones, |x|);
    assert m[1..] == CidrMask(ones - 8, |x| - 1);
    MaskedHead(x, y, m);
    AndMaskFull(x[0], m[0]);
    AndMaskFull(y[0], m[0]);
  }

  lemma {:induction false} MaskLow(x: seq<Byte>, y: seq<Byte>, ones: nat)
    requires |x| == |y| > 0 && ones < 8
    ensures var m := 255 - 255 / Pow2(ones);
      SameMasked(x, y, CidrMask(ones, |x|)) <==>
        And(x[0], m) == And(y[0], m)
  {
    var m := CidrMask(ones, |x|);
    NothingMasked(x[1..], y[1..]);
    assert m[1..] == CidrMask(0, |x| - 1);
    MaskedHead(x, y, m);
  }

  lemma {:induction false} NothingMasked(x: seq<Byte>, y: seq<Byte>)
    requires |x| == |y|
    ensures SameMasked(x, y, CidrMask(0, |x|))
  {
    if x == [] {
    } else {
      NothingMasked(x[1..], y[1..]);
      assert CidrMask(0, |x|)[1..] == CidrMask(0, |x| - 1);
      assert Pow2(0) == 1;
      MaskedHead(x, y, CidrMask(0, |x|));
    }
  }

  lemma {:induction false} MaskedHead(x: seq<Byte>, y: seq<Byte>, m: seq<Byte>)
    requires |x| == |y| == |m| > 0
    ensures SameMasked(x, y, m) <==> And(x[0], m[0]) == And(y[0], m[0]) && SameMasked(x[1..], y[1..], m[1..])
  {
    if SameMasked(x[1..], y[1..], m[1..]) && And(x[0], m[0]) == And(y[0], m[0]) {
      forall i | 0 <= i < |x| ensures And(x[i], m[i]) == And(y[i], m[i]) {
        if i > 0 { assert And(x[1..][i - 1], m[1..][i - 1]) == And(y[1..][i - 1], m[1..][i - 1]); }
      }
    }
  }

  lemma {:induction false} AndMaskFull(x: Byte, m: Byte)
    requires m == 255
    ensures And(x, m) == x
  {
    Eight();
    AndAll(x, 8);
  }

  lemma {:induction false} QuotientHigh(x: seq<Byte>, y: seq<Byte>, ones: nat)
    requires |x| == |y| > 0 && 8 <= ones <= 8 * |x|
    ensures SameQuotient(x, y, 8 * |x| - ones) <==> x[0] == y[0] && SameQuotient(x[1..], y[1..], 8 * |x[1..]| - (ones - 8))
  {
    var d, c := Pow2(8 * |x| - ones), Pow2(ones - 8);
    SplitHead(x, ones - 8);
    SplitHead(y, ones - 8);
    SameParts(x[0], y[0], FromBytes(x[1..]) / d, FromBytes(y[1..]) / d, c);
  }

  /** The quotient of a number by a block smaller than its first byte. */
  lemma {:induction false} SplitHead(x: seq<Byte>, rest: nat)
    requires x != [] && rest <= 8 * (|x| - 1)
    ensures var d := Pow2(8 * (|x| - 1) - rest);
      && FromBytes(x) / d == x[0] * Pow2(rest) + FromBytes(x[1..]) / d
      && 0 <= FromBytes(x[1..]) / d < Pow2(rest)
  {
    var k := |x| - 1;
    FromBytesHead(x);
    FromBytesBound(x[1..]);
    Pow2Adds(rest, 8 * k - rest);
    DivideSum(x[0], FromBytes(x[1..]), Pow2(rest), Pow2(8 * k - rest));
  }

  lemma {:induction false} QuotientLow(x: seq<Byte>, y: seq<Byte>, ones: nat)
    requires |x| == |y| > 0 && ones < 8
    ensures var m := 255 - 255 / Pow2(ones); SameQuotient(x, y, 8 * |x| - ones) <==> And(x[0], m) == And(y[0], m)
  {
    OnlyHead(x, ones);
    OnlyHead(y, ones);
    MaskByte(ones, x[0], y[0]);
  }

  /** The quotient of a number by a block that leaves only bits of its first byte. */
  lemma {:induction false} OnlyHead(x: seq<Byte>, ones: nat)
    requires x != [] && ones < 8
    ensures FromBytes(x) / Pow2(8 * |x| - ones) == x[0] / Pow2(8 - ones)
  {
    var k := |x| - 1;
    SplitHead(x, 0);
    Pow2Adds(8 * k, 8 - ones);
    DivideTwice(FromBytes(x), Pow2(8 * k), Pow2(8 - ones));
  }
}
