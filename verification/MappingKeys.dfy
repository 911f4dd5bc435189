/** storage/utils/mapping_value.go: the 32-byte form of an integer mapping key. */
module MappingKeys {
  import opened Bytes
  import opened SolidityScan

  /** encodeIntString on the parsed int64. */
  method EncodeInt(intVar: int) returns (key: seq<byte>)
    requires -TWO63 <= intVar < TWO63
    ensures key == ToBytes(intVar % TWO256, 32)
    ensures FromBytes(key) == intVar % TWO256
    ensures IntAt(intVar % TWO256, 256, 0) == intVar
  {
    KeyValue(intVar);
    if intVar < 0 {
      key := InvertAndAddOne(intVar);
    } else {
      key := ToBytes(BigToHash(intVar), 32);
    }
  }

  method InvertAndAddOne(intVar: int) returns (key: seq<byte>)
    requires -TWO63 <= intVar < 0
    ensures key == ToBytes(intVar % TWO256, 32)
  {
    var ub := FlipBytes(ToBytes(BigToHash(intVar), 32));
    NegativeKey(intVar);
    key := MinBytes(FromBytes(ub) + 1);
  }

  lemma KeyValue(v: int)
    requires -TWO63 <= v < TWO63
    ensures FromBytes(ToBytes(v % TWO256, 32)) == v % TWO256
    ensures IntAt(v % TWO256, 256, 0) == v
  {
    Pow2At(256);
    FromToBytes(v % TWO256, 32);
    ModExact(v % TWO256, TWO256);
    assert Pow2(0) == 1;
    KeyFits(v);
    IntDecoded(v % TWO256, 256, 0, v);
  }

  lemma KeyFits(v: int)
    requires -TWO63 <= v < TWO63
    ensures Fits(v, 256)
  {
    Pow2At(63);
    Pow2Monotone(63, 255);
  }

  lemma NegativeKey(v: int)
    requires -TWO63 <= v < 0
    ensures MinBytes(FromBytes(Complement(ToBytes(BigToHash(v), 32))) + 1) == ToBytes(v % TWO256, 32)
  {
    var bs := ToBytes(BigToHash(v), 32);
    Pow2At(256);
    ModExact(-v, TWO256);
    FromToBytes(-v, 32);
    ComplementValue(bs);
    DivModUnique(v, TWO256, -1, v + TWO256);
    FullLength(v + TWO256);
  }

  /** A number with its top byte set has the same shortest and 32-byte forms. */
  lemma FullLength(n: nat)
    requires TWO256 - TWO63 <= n < TWO256
    ensures MinBytes(n) == ToBytes(n, 32)
  {
    Pow2At(256);
    Pow2At(8);
    Pow2Byte(31);
    MinBytesLength(n, 32);
    SameBytes(n, 32);
  }

  lemma {:induction false} SameBytes(n: nat, k: nat)
    requires |MinBytes(n)| == k
    ensures MinBytes(n) == ToBytes(n, k)
  {
    if n > 0 { SameBytes(n / 256, k - 1); }
  }
}
