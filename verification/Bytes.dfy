/** Powers of two, and the big-endian byte strings of Go's math/big. */
module Bytes {

  type byte = x: int | 0 <= x < 256

  const TWO63: int := 0x8000_0000_0000_0000
  const TWO64: int := 0x1_0000_0000_0000_0000
  const TWO256: int := 0x1_0000_0000_0000_0000_0000_0000_0000_0000_0000_0000_0000_0000_0000_0000_0000_0000

  type Word = x: nat | x < TWO256

  function Pow2(n: nat): (p: nat)
    ensures p > 0
  {
    if n == 0 then 1 else 2 * Pow2(n - 1)
  }

  lemma {:induction false} Pow2Add(a: nat, b: nat)
    ensures Pow2(a + b) == Pow2(a) * Pow2(b)
  {
    if a > 0 {
      Pow2Add(a - 1, b);
      assert Pow2(a + b) == 2 * (Pow2(a - 1) * Pow2(b));
      assert 2 * (Pow2(a - 1) * Pow2(b)) == (2 * Pow2(a - 1)) * Pow2(b);
    }
  }

  lemma Pow2Monotone(a: nat, b: nat)
    requires a <= b
    ensures Pow2(a) <= Pow2(b)
    decreases b
  {
    if a < b { Pow2Monotone(a, b - 1); }
  }

  lemma Pow2Square(n: nat, p: nat)
    requires Pow2(n) == p
    ensures Pow2(2 * n) == p * p
  {
    Pow2Add(n, n);
  }

  /** The argument is a variable so that the verifier does not unroll Pow2. */
  lemma Pow2At(n: nat)
    ensures n == 7 ==> Pow2(n) == 128
    ensures n == 8 ==> Pow2(n) == 256
    ensures n == 63 ==> Pow2(n) == TWO63
    ensures n == 64 ==> Pow2(n) == TWO64
    ensures n == 256 ==> Pow2(n) == TWO256
  {
    var a: nat :| a == 8;
    assert Pow2(a) == 256 by {
      assert Pow2(a) == 2 * Pow2(a - 1) == 4 * Pow2(a - 2) == 8 * Pow2(a - 3) == 16 * Pow2(a - 4);
      assert Pow2(a - 4) == 2 * Pow2(a - 5) == 4 * Pow2(a - 6) == 8 * Pow2(a - 7) == 16 * Pow2(a - 8);
    }
    Pow2Square(a, 256);
    Pow2Square(2 * a, 0x1_0000);
    Pow2Square(4 * a, 0x1_0000_0000);
    assert Pow2(8 * a) == 2 * Pow2(8 * a - 1);
    Pow2Square(8 * a, TWO64);
    Pow2Square(16 * a, TWO64 * TWO64);
  }

  lemma Pow2Eight()
    ensures Pow2(8) == 256
  {
    Pow2At(8);
  }

  lemma Pow2Byte(k: nat)
    ensures Pow2(8 * (k + 1)) == 256 * Pow2(8 * k)
  {
    Pow2Eight();
    Pow2Add(8 * k, 8);
  }

  /** byte(int(b) + n): it comes out as b exactly when 256 divides n. */
  function Bump(b: byte, n: nat): (r: byte)
    ensures r == b <==> n % 256 == 0
  {
    (b + n) % 256
  }

  /** big.Int.SetBytes. */
  function FromBytes(bs: seq<byte>): nat {
    if |bs| == 0 then 0 else FromBytes(bs[..|bs| - 1]) * 256 + bs[|bs| - 1]
  }

  /** The low k bytes of n, as common.BigToHash(n).Bytes() gives for k = 32. */
  function ToBytes(n: nat, k: nat): (bs: seq<byte>)
    ensures |bs| == k
  {
    if k == 0 then [] else ToBytes(n / 256, k - 1) + [n % 256]
  }

  /** big.Int.Bytes: the shortest big-endian form. */
  function MinBytes(n: nat): seq<byte> {
    if n == 0 then [] else MinBytes(n / 256) + [n % 256]
  }

  function StripZeros(bs: seq<byte>): (r: seq<byte>)
    ensures |r| <= |bs|
    ensures r == bs <==> |bs| == 0 || bs[0] != 0
  {
    if |bs| > 0 && bs[0] == 0 then StripZeros(bs[1..]) else bs
  }

  /** int64(x) for a big.Int or uint64 x: the low 64 bits, read as signed. */
  function ToInt64(x: int): (r: int)
    ensures -TWO63 <= r < TWO63
    ensures (r - x) % TWO64 == 0
    ensures -TWO63 <= x < TWO63 ==> r == x
  {
    var low := x % TWO64;
    if low >= TWO63 then low - TWO64 else low
  }

  lemma ShiftStep(x: nat, p: nat, y: nat)
    ensures (x * p + y) * 256 == x * (p * 256) + y * 256
  {}

  lemma {:induction false} FromBytesConcat(a: seq<byte>, b: seq<byte>)
    ensures FromBytes(a + b) == FromBytes(a) * Pow2(8 * |b|) + FromBytes(b)
    decreases |b|
  {
    if |b| == 0 {
      assert a + b == a;
    } else {
      var b' := b[..|b| - 1];
      assert (a + b)[..|a + b| - 1] == a + b';
      FromBytesConcat(a, b');
      Pow2Add(8 * |b'|, 8);
      Pow2Eight();
      ShiftStep(FromBytes(a), Pow2(8 * |b'|), FromBytes(b'));
      assert 8 * |b| == 8 * |b'| + 8;
    }
  }

  lemma {:induction false} FromBytesBound(bs: seq<byte>)
    ensures FromBytes(bs) < Pow2(8 * |bs|)
  {
    if |bs| > 0 {
      FromBytesBound(bs[..|bs| - 1]);
      Pow2Byte(|bs| - 1);
    }
  }

  /** Dropping the tail of a byte string is a right shift. */
  lemma FromBytesShift(a: seq<byte>, b: seq<byte>)
    ensures FromBytes(a + b) / Pow2(8 * |b|) == FromBytes(a)
    ensures FromBytes(a + b) % Pow2(8 * |b|) == FromBytes(b)
  {
    FromBytesConcat(a, b);
    FromBytesBound(b);
    DivModUnique(FromBytes(a + b), Pow2(8 * |b|), FromBytes(a), FromBytes(b));
  }

  lemma {:induction false} FromToBytes(n: nat, k: nat)
    ensures FromBytes(ToBytes(n, k)) == n % Pow2(8 * k)
  {
    if k > 0 {
      FromToBytes(n / 256, k - 1);
      var bs, p := ToBytes(n, k), Pow2(8 * (k - 1));
      assert bs[..k - 1] == ToBytes(n / 256, k - 1);
      Pow2Byte(k - 1);
      ModSplit(n, 256, p);
    }
  }

  lemma {:induction false} ToFromBytes(bs: seq<byte>)
    ensures ToBytes(FromBytes(bs), |bs|) == bs
  {
    if |bs| > 0 {
      ToFromBytes(bs[..|bs| - 1]);
      DivModUnique(FromBytes(bs), 256, FromBytes(bs[..|bs| - 1]), bs[|bs| - 1]);
    }
  }

  lemma MulDist(a: int, b: int, d: int)
    ensures (a - b) * d == a * d - b * d
    ensures (a + b) * d == a * d + b * d
  {}

  lemma MulAssoc(a: int, b: int, c: int)
    ensures a * (b * c) == (a * b) * c
  {}

  lemma MulPos(k: int, d: int)
    requires d > 0
    ensures k >= 1 ==> k * d >= d
    ensures k <= -1 ==> k * d <= -d
    ensures k >= 0 ==> k * d >= 0
  {
    if k >= 1 {
      MulDist(k - 1, 1, d);
      assert (k - 1) * d >= 0;
    } else if k <= -1 {
      MulDist(0, -k - 1, d);
      assert (-k - 1) * d >= 0;
      assert (-k) * d == (-k - 1) * d + d by { MulDist(-k - 1, 1, d); }
      assert k * d == -((-k) * d) by { MulDist(0, -k, d); }
    }
  }

  lemma DivModFacts(n: int, d: int)
    requires d > 0
    ensures n == n / d * d + n % d
    ensures 0 <= n % d < d
  {}

  lemma DivModUnique(n: int, d: int, q: int, r: int)
    requires d > 0 && 0 <= r < d && n == q * d + r
    ensures n / d == q && n % d == r
  {
    DivModFacts(n, d);
    MulDist(q, n / d, d);
    MulPos(q - n / d, d);
  }

  /** Being y modulo n is differing from y by a multiple of n. */
  lemma SameRemainder(x: nat, y: nat, n: nat)
    requires y < n
    ensures (x - y) % n == 0 <==> x % n == y
  {
    DivModFacts(x - y, n);
    DivModFacts(x, n);
    if (x - y) % n == 0 { DivModUnique(x, n, (x - y) / n, y); }
    if x % n == y { DivModUnique(x - y, n, x / n, 0); }
  }

  lemma DivNonNeg(n: int, d: int)
    requires n >= 0 && d > 0
    ensures n / d >= 0
    ensures n < d ==> n / d == 0
  {
    DivModFacts(n, d);
    MulPos(n / d, d);
  }

  lemma ModSplit(n: nat, a: nat, b: nat)
    requires a > 0 && b > 0
    ensures a * b > 0
    ensures n % (a * b) == (n / a % b) * a + n % a
    ensures n / (a * b) == n / a / b
  {
    MulPos(a, b);
    DivModFacts(n, a);
    DivModFacts(n / a, b);
    var q, c := n / a / b, n / a % b;
    MulDist(q * b, c, a);
    MulAssoc(q, b, a);
    MulDist(b - 1, c, a);
    MulPos(b - 1 - c, a);
    MulPos(c, a);
    MulDist(b, 1, a);
    DivModUnique(n, a * b, q, c * a + n % a);
  }

  lemma {:induction false} MinBytesOfFromBytes(bs: seq<byte>)
    ensures MinBytes(FromBytes(bs)) == StripZeros(bs)
    decreases |bs|
  {
    if |bs| > 0 {
      var init, last := bs[..|bs| - 1], bs[|bs| - 1];
      MinBytesOfFromBytes(init);
      DivModUnique(FromBytes(bs), 256, FromBytes(init), last);
      StripSnoc(init, last);
      assert bs == init + [last];
      MinBytesEmpty(FromBytes(init));
    }
  }

  lemma MinBytesEmpty(n: nat)
    ensures MinBytes(n) == [] <==> n == 0
  {}

  lemma {:induction false} StripSnoc(init: seq<byte>, last: byte)
    ensures StripZeros(init + [last])
         == if StripZeros(init) == [] && last == 0 then [] else StripZeros(init) + [last]
  {
    var bs := init + [last];
    if |init| == 0 {
      assert bs == [last];
      assert StripZeros([last][1..]) == [];
    } else if init[0] == 0 {
      assert bs[1..] == init[1..] + [last];
      StripSnoc(init[1..], last);
    }
  }

  /** The length of the shortest form: k bytes exactly when 256^(k-1) <= n < 256^k. */
  lemma {:induction false} MinBytesLength(n: nat, k: nat)
    requires k > 0 && Pow2(8 * (k - 1)) <= n < Pow2(8 * k)
    ensures |MinBytes(n)| == k
    ensures FromBytes(MinBytes(n)) == n
    decreases k
  {
    Pow2Eight();
    Pow2Add(8 * (k - 1), 8);
    MinBytesValue(n);
    if k > 1 {
      Pow2Add(8 * (k - 2), 8);
      MinBytesLength(n / 256, k - 1);
    } else {
      assert Pow2(0) == 1;
      assert n / 256 == 0;
    }
  }

  lemma {:induction false} MinBytesValue(n: nat)
    ensures FromBytes(MinBytes(n)) == n
  {
    if n > 0 {
      MinBytesValue(n / 256);
      var bs := MinBytes(n);
      assert bs[..|bs| - 1] == MinBytes(n / 256);
    }
  }

  /** Appending ^b for every byte b. */
  function Complement(bs: seq<byte>): (r: seq<byte>)
    ensures |r| == |bs|
    ensures forall i :: 0 <= i < |bs| ==> r[i] == 255 - bs[i]
  {
    seq(|bs|, i requires 0 <= i < |bs| => 255 - bs[i])
  }

  /** The loop over the bytes that appends each one flipped. */
  method FlipBytes(bs: seq<byte>) returns (r: seq<byte>)
    ensures r == Complement(bs)
  {
    r := [];
    var i := 0;
    while i < |bs|
      invariant 0 <= i <= |bs| && |r| == i
      invariant forall j :: 0 <= j < i ==> r[j] == 255 - bs[j]
    {
      r := r + [255 - bs[i]];
      i := i + 1;
    }
  }

  lemma {:induction false} ComplementValue(bs: seq<byte>)
    ensures FromBytes(Complement(bs)) == Pow2(8 * |bs|) - 1 - FromBytes(bs)
  {
    if |bs| > 0 {
      var init := bs[..|bs| - 1];
      ComplementValue(init);
      assert Complement(bs)[..|bs| - 1] == Complement(init);
      Pow2Byte(|init|);
    }
  }

  function Zeros(n: nat): (r: seq<byte>)
    ensures |r| == n
    ensures forall i :: 0 <= i < n ==> r[i] == 0
  {
    seq(n, i => 0)
  }

  // ---- shifts ---------------------------------------------------------------

  /** v >> d. */
  function Shr(v: nat, d: nat): nat {
    if d == 0 then v else Shr(v, d - 1) / 2
  }

  lemma {:induction false} ShrIsDivision(v: nat, d: nat)
    ensures Shr(v, d) == v / Pow2(d)
  {
    if d > 0 {
      ShrIsDivision(v, d - 1);
      ModSplit(v, Pow2(d - 1), 2);
      assert Pow2(d) == Pow2(d - 1) * 2;
    }
  }

  // ---- bit fields of words -------------------------------------------------

  /** (word >> offset) & (2^width - 1). */
  function Field(word: nat, offset: nat, width: nat): (r: nat)
    ensures r < Pow2(width)
  {
    word / Pow2(offset) % Pow2(width)
  }

  /** The word with the field overwritten by x. */
  function PutField(word: nat, offset: nat, width: nat, x: nat): nat {
    var high, p := word / Pow2(offset + width), Pow2(offset);
    DivNonNeg(word, Pow2(offset + width));
    MulPos(high, Pow2(offset + width));
    MulPos(x, p);
    high * Pow2(offset + width) + x * p + word % p
  }

  /** A field below bit k only sees the number modulo 2^k. */
  lemma FieldSplit(q: nat, r: nat, k: nat, offset: nat, width: nat)
    requires r < Pow2(k) && offset + width <= k
    ensures q * Pow2(k) >= 0
    ensures Field(q * Pow2(k) + r, offset, width) == Field(r, offset, width)
  {
    var gap, m, p := Pow2(k - offset - width), Pow2(width), Pow2(offset);
    Pow2Add(k - offset - width, width);
    Pow2Add(k - offset, offset);
    MulPos(q, Pow2(k));
    SumField(q, gap, m, p, r);
  }

  lemma SumField(q: nat, g: nat, m: nat, p: nat, r: nat)
    requires m > 0 && p > 0
    ensures (q * ((g * m) * p) + r) / p % m == r / p % m
  {
    QuotientSplit(q, g * m, p, r);
    MulPos(q, g + 1);
    SumMod(q, g, m, r / p);
  }

  lemma SumMod(q: nat, g: nat, m: nat, r: int)
    requires m > 0
    ensures (q * (g * m) + r) % m == r % m
  {
    MulAssoc(q, g, m);
    DivModFacts(r, m);
    MulDist(q * g, r / m, m);
    DivModUnique(q * (g * m) + r, m, q * g + r / m, r % m);
  }

  lemma QuotientShift(k: nat, d: nat, r: nat)
    requires d > 0
    ensures (k * d + r) / d == k + r / d
    ensures (k * d + r) % d == r % d
  {
    DivModFacts(r, d);
    MulDist(k, r / d, d);
    DivModUnique(k * d + r, d, k + r / d, r % d);
  }

  /** Adding a multiple of d to r adds to the quotient and leaves the remainder. */
  lemma QuotientSplit(q: nat, c: nat, d: nat, r: nat)
    requires d > 0
    ensures (q * (c * d) + r) / d == q * c + r / d
    ensures (q * (c * d) + r) % d == r % d
  {
    MulAssoc(q, c, d);
    QuotientShift(q * c, d, r);
  }

  /** A field above bit k is a field of the number shifted down by k. */
  lemma FieldShift(n: nat, k: nat, offset: nat, width: nat)
    requires k <= offset
    ensures n / Pow2(k) >= 0
    ensures Field(n, offset, width) == Field(n / Pow2(k), offset - k, width)
  {
    DivNonNeg(n, Pow2(k));
    Pow2Add(k, offset - k);
    ModSplit(n, Pow2(k), Pow2(offset - k));
  }

  lemma PutParts(word: nat, offset: nat, width: nat, x: nat)
    requires x < Pow2(width)
    ensures PutField(word, offset, width, x) / Pow2(offset + width) == word / Pow2(offset + width)
    ensures PutField(word, offset, width, x) / Pow2(offset) % Pow2(width) == x
    ensures PutField(word, offset, width, x) % Pow2(offset) == word % Pow2(offset)
  {
    var p, m, high := Pow2(offset), Pow2(width), word / Pow2(offset + width);
    Pow2Add(offset, width);
    DivModFacts(word, p);
    var n := PutField(word, offset, width, x);
    assert high * Pow2(offset + width) == (high * m) * p by {
      MulAssoc(high, m, p);
      assert p * m == m * p;
    }
    MulDist(high * m, x, p);
    DivModUnique(n, p, high * m + x, word % p);
    DivModUnique(n / p, m, high, x);
    ModSplit(n, p, m);
  }

  /** Writing a field: it reads back, and every disjoint field is unchanged. */
  lemma FieldOfPut(word: nat, offset: nat, width: nat, x: nat, offset2: nat, width2: nat)
    requires x < Pow2(width)
    ensures Field(PutField(word, offset, width, x), offset, width) == x
    ensures offset2 + width2 <= offset || offset + width <= offset2 ==>
      Field(PutField(word, offset, width, x), offset2, width2) == Field(word, offset2, width2)
  {
    var n := PutField(word, offset, width, x);
    PutParts(word, offset, width, x);
    if offset2 + width2 <= offset {
      FieldLow(n, offset, offset2, width2);
      FieldLow(word, offset, offset2, width2);
    } else if offset + width <= offset2 {
      FieldShift(n, offset + width, offset2, width2);
      FieldShift(word, offset + width, offset2, width2);
    }
  }

  lemma FieldLow(n: nat, k: nat, offset: nat, width: nat)
    requires offset + width <= k
    ensures Field(n, offset, width) == Field(n % Pow2(k), offset, width)
  {
    DivModFacts(n, Pow2(k));
    DivNonNeg(n, Pow2(k));
    FieldSplit(n / Pow2(k), n % Pow2(k), k, offset, width);
  }
}
