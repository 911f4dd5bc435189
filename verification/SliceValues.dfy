/** storage/utils/slice_value.go: elements of dynamic and fixed-size arrays. */
module SliceValues {
  import opened Bytes
  import opened SolidityScan

  /** The element types that the slice and array dispatch distinguishes. */
  datatype Unit = UintUnit(width: nat) | IntUnit(width: nat) | BoolUnit | AddressUnit | StringUnit
                | BytesUnit(width: nat)

  datatype Value = Number(n: int) | Flag(b: bool) | Account(a: nat) | Text(s: seq<byte>)

  /** The first bit of packed element i, in 64-bit arithmetic. */
  function BeginBit(i: nat, width: nat): nat {
    i * width % TWO64
  }

  function SlotOf(base: Word, bit: nat): Word {
    BigToHash(base + ToInt64(bit / 256))
  }

  datatype SliceValue = SliceValue(slotIndex: Word, unit: Unit, length: nat) {
    /** Index(i) of the slice value types. */
    function Index(st: Storage, keccak: Hashing, i: nat): Value
      requires unit.IntUnit? ==> unit.width > 0
    {
      match unit
      case UintUnit(w) =>
        var bit := BeginBit(i, w);
        Number(UintAt(SlotWord(st(SlotOf(slotIndex, bit))), w, bit % 256))
      case IntUnit(w) =>
        var bit := BeginBit(i, w);
        Number(IntAt(SlotWord(st(SlotOf(slotIndex, bit))), w, bit % 256))
      case BytesUnit(w) =>
        var bit := BeginBit(i, w);
        Text(BytesAt(SlotWord(st(SlotOf(slotIndex, bit))), w, bit % 256))
      case BoolUnit =>
        var bit := BeginBit(i, 8);
        Flag(BoolAt(SlotWord(st(SlotOf(slotIndex, bit))), bit % 256))
      case AddressUnit =>
        Account(AddressAt(SlotWord(st(BigToHash(slotIndex + ToInt64(i)))), 0))
      case StringUnit =>
        Text(StringAt(st, BigToHash(slotIndex + ToInt64(i)), keccak))
    }

    /** The values String() formats: all elements in order. */
    method Elements(st: Storage, keccak: Hashing) returns (values: seq<Value>)
      requires unit.IntUnit? ==> unit.width > 0
      ensures |values| == length
      ensures forall i :: 0 <= i < length ==> values[i] == Index(st, keccak, i)
    {
      values := [];
      var i := 0;
      while i < length
        invariant 0 <= i <= length && |values| == i
        invariant forall j :: 0 <= j < i ==> values[j] == Index(st, keccak, j)
      {
        values := values + [Index(st, keccak, i)];
        i := i + 1;
      }
    }
  }

  /** SoliditySlice.Value: the length is in the slot, the data at its hash. */
  function SliceAt(st: Storage, p: Word, keccak: Hashing, unit: Unit): SliceValue {
    SliceValue(keccak(p), unit, SlotWord(st(p)) % TWO64)
  }

  /** SolidityArray.Value: the data starts in the slot itself. */
  function ArrayAt(p: Word, unit: Unit, unitLength: nat): SliceValue {
    SliceValue(p, unit, unitLength)
  }

  // ---- one number ------------------------------------------------------------

  /** Data slots from..to-1 read as one number, lowest slot first. */
  function DataNumber(st: Storage, base: Word, from: nat, to: nat): nat
    decreases to - from
  {
    if from >= to then 0
    else SlotWord(st(BigToHash(base + from))) + TWO256 * DataNumber(st, base, from + 1, to)
  }

  lemma DropSlot(n: nat, q: nat)
    ensures n / Pow2(256 * (q + 1)) == n / Pow2(256 * q) / TWO256
  {
    Pow2At(256);
    Pow2Add(256 * q, 256);
    ModSplit(n, Pow2(256 * q), Pow2(256));
  }

  lemma TailNumber(st: Storage, base: Word, from: nat, to: nat)
    requires from < to
    ensures DataNumber(st, base, from, to) / TWO256 == DataNumber(st, base, from + 1, to)
  {
    var rest := DataNumber(st, base, from + 1, to);
    DivModUnique(DataNumber(st, base, from, to), TWO256, rest, SlotWord(st(BigToHash(base + from))));
  }

  lemma {:induction false} DataShift(st: Storage, base: Word, to: nat, q: nat)
    requires q <= to
    ensures DataNumber(st, base, 0, to) / Pow2(256 * q) == DataNumber(st, base, q, to)
  {
    if q > 0 {
      DataShift(st, base, to, q - 1);
      DropSlot(DataNumber(st, base, 0, to), q - 1);
      TailNumber(st, base, q - 1, to);
    } else {
      assert Pow2(256 * 0) == Pow2(0) == 1;
    }
  }

  /** A multiple of a divisor of 256 leaves room for one more element in its slot. */
  lemma FitsInSlot(i: nat, w: nat)
    requires w > 0 && 256 % w == 0
    ensures i * w % 256 + w <= 256
  {
    var c := 256 / w;
    DivModFacts(256, w);
    MulPos(c, w);
    DivModFacts(i, c);
    var q, r := i / c, i % c;
    MulDist(q * c, r, w);
    MulAssoc(q, c, w);
    MulDist(c - 1, r, w);
    MulPos(c - 1 - r, w);
    MulDist(c, 1, w);
    MulPos(r, w);
    DivModUnique(i * w, 256, q, r * w);
  }

  lemma PackedBits(st: Storage, base: Word, q: nat, o: nat, w: nat, m: nat)
    requires q < m && o + w <= 256
    ensures Field(SlotWord(st(BigToHash(base + q))), o, w)
         == DataNumber(st, base, 0, m) / Pow2(256 * q + o) % Pow2(w)
  {
    FieldShift(DataNumber(st, base, 0, m), 256 * q, 256 * q + o, w);
    DataShift(st, base, m, q);
    LowField(DataNumber(st, base, q + 1, m), SlotWord(st(BigToHash(base + q))), 256, o, w);
  }

  lemma LowField(rest: nat, word: Word, k: nat, o: nat, w: nat)
    requires k == 256 && o + w <= k
    ensures Field(word + TWO256 * rest, o, w) == Field(word, o, w)
  {
    Pow2At(k);
    FieldSplit(rest, word, k, o, w);
  }

  lemma SlotOfBit(base: Word, bit: nat)
    requires bit < TWO64
    ensures SlotOf(base, bit) == BigToHash(base + bit / 256)
  {}

  lemma PackedParts(st: Storage, base: Word, bit: nat, q: nat, o: nat, w: nat, m: nat)
    requires bit == 256 * q + o && bit < 256 * m && o + w <= 256
    ensures Field(SlotWord(st(BigToHash(base + q))), o, w) == DataNumber(st, base, 0, m) / Pow2(bit) % Pow2(w)
  {
    PackedBits(st, base, q, o, w, m);
  }

  /** Main result on packed arrays: element i is bits [i*w, i*w+w) of the data read as one number. */
  lemma PackedIndex(st: Storage, base: Word, i: nat, w: nat, m: nat)
    requires w > 0 && 256 % w == 0
    requires i * w < 256 * m && i * w < TWO64
    ensures Field(SlotWord(st(SlotOf(base, BeginBit(i, w)))), BeginBit(i, w) % 256, w)
         == DataNumber(st, base, 0, m) / Pow2(i * w) % Pow2(w)
  {
    ModExact(i * w, TWO64);
    FitsInSlot(i, w);
    SlotOfBit(base, i * w);
    PackedParts(st, base, i * w, i * w / 256, i * w % 256, w, m);
  }

  lemma UintElement(s: SliceValue, st: Storage, keccak: Hashing, i: nat, m: nat)
    requires s.unit.UintUnit? && s.unit.width > 0 && 256 % s.unit.width == 0
    requires i * s.unit.width < 256 * m && i * s.unit.width < TWO64
    ensures s.Index(st, keccak, i)
         == Number(DataNumber(st, s.slotIndex, 0, m) / Pow2(i * s.unit.width) % Pow2(s.unit.width))
  {
    PackedIndex(st, s.slotIndex, i, s.unit.width, m);
  }

  /** The same for signed elements: Index gives the value v stored in those bits exactly when v is in
      [-2^63, 2^64). */
  lemma IntElement(s: SliceValue, st: Storage, keccak: Hashing, i: nat, m: nat, v: int)
    requires s.unit.IntUnit? && s.unit.width % 8 == 0 && s.unit.width > 0 && 256 % s.unit.width == 0
    requires i * s.unit.width < 256 * m && i * s.unit.width < TWO64 && Fits(v, s.unit.width)
    requires DataNumber(st, s.slotIndex, 0, m) / Pow2(i * s.unit.width) % Pow2(s.unit.width) == v % Pow2(s.unit.width)
    ensures s.Index(st, keccak, i) == Number(v) <==> -TWO63 <= v < TWO64
  {
    var w := s.unit.width;
    var bit := BeginBit(i, w);
    PackedIndex(st, s.slotIndex, i, w, m);
    DivisorBound(w);
    IntDecoded(SlotWord(st(SlotOf(s.slotIndex, bit))), w, bit % 256, v);
  }

  lemma DivisorBound(w: nat)
    requires w > 0 && 256 % w == 0
    ensures w <= 256
  {
    ModExact(256, w);
  }

  /** And for booleans: true exactly when the byte is 1. */
  lemma BoolElement(s: SliceValue, st: Storage, keccak: Hashing, i: nat, m: nat)
    requires s.unit.BoolUnit? && i * 8 < 256 * m && i * 8 < TWO64
    ensures s.Index(st, keccak, i) == Flag(DataNumber(st, s.slotIndex, 0, m) / Pow2(i * 8) % Pow2(8) == 1)
  {
    var bit := BeginBit(i, 8);
    PackedIndex(st, s.slotIndex, i, 8, m);
    ByteField(SlotWord(st(SlotOf(s.slotIndex, bit))), bit % 256, 8);
  }

  lemma ByteField(word: Word, offset: nat, width: nat)
    requires width == 8
    ensures BoolAt(word, offset) <==> Field(word, offset, width) == 1
  {
    Pow2At(width);
  }

  /** No element straddles two slots exactly for the widths that divide 256. */
  lemma StraddleFree(w: nat)
    requires w > 0
    ensures (forall i: nat :: i * w % 256 + w <= 256) <==> 256 % w == 0
  {
    if 256 % w == 0 {
      forall i: nat ensures i * w % 256 + w <= 256 { FitsInSlot(i, w); }
    } else if w <= 256 {
      var i := 256 / w;
      DivModFacts(256, w);
      ModExact(i * w, 256);
      assert i * w % 256 + w > 256;
    } else {
      assert 0 * w % 256 + w > 256;
    }
  }

  /** The slot and offset that Solidity gives element i: 256/w elements a slot, never split. */
  function LayoutSlot(i: nat, w: nat): int
    requires 0 < w <= 256
  {
    PerSlot(w);
    i / (256 / w)
  }

  function LayoutOffset(i: nat, w: nat): int
    requires 0 < w <= 256
  {
    PerSlot(w);
    i % (256 / w) * w
  }

  lemma PerSlot(w: nat)
    requires 0 < w <= 256
    ensures 256 / w > 0
  {
    DivModFacts(256, w);
    MulPos(256 / w, w);
  }

  /** Index looks where Solidity put element i exactly when the width divides 256 and the first bit fits
      64 bits, or the element is still in the first slot. */
  lemma IndexMeetsLayout(i: nat, w: nat)
    requires 0 < w <= 256
    ensures LayoutSlot(i, w) == BeginBit(i, w) / 256 && LayoutOffset(i, w) == BeginBit(i, w) % 256
       <==> (256 % w == 0 && i * w < TWO64) || i < 256 / w
  {
    if i * w < TWO64 {
      ShortIndexMeetsLayout(i, w);
    } else {
      LayoutNotBefore(i, w);
      if i < 256 / w { FirstSlotShort(i, w); }
    }
  }

  /** The layout never puts an element before bit i * w. */
  lemma LayoutNotBefore(i: nat, w: nat)
    requires 0 < w <= 256
    ensures LayoutSlot(i, w) * 256 + LayoutOffset(i, w) >= i * w
  {
    PerSlot(w);
    var c := 256 / w;
    var q, r := i / c, i % c;
    DivModFacts(256, w);
    DivModFacts(i, c);
    DivNonNeg(i, c);
    MulDist(q * c, r, w);
    MulAssoc(q, c, w);
    LayoutGap(q, 256 % w, c * w, r * w);
    MulPos(q, 256 % w + 1);
    NonNegProduct(q, 256 % w);
  }

  lemma NonNegProduct(a: nat, b: nat)
    ensures a * b >= 0
  {}

  lemma FirstSlotShort(i: nat, w: nat)
    requires 0 < w <= 256 && i < 256 / w
    ensures i * w < 256
  {
    DivModFacts(256, w);
    MulDist(256 / w - 1, i, w);
    MulPos(256 / w - 1 - i, w);
    MulDist(256 / w, 1, w);
  }

  lemma ShortIndexMeetsLayout(i: nat, w: nat)
    requires 0 < w <= 256 && i * w < TWO64
    ensures LayoutSlot(i, w) == BeginBit(i, w) / 256 && LayoutOffset(i, w) == BeginBit(i, w) % 256
       <==> 256 % w == 0 || i < 256 / w
  {
    PerSlot(w);
    ModExact(i * w, TWO64);
    var c := 256 / w;
    var q, r := i / c, i % c;
    DivModFacts(256, w);
    DivModFacts(i, c);
    MulPos(r, w);
    MulDist(c - 1, r, w);
    MulPos(c - 1 - r, w);
    MulDist(c, 1, w);
    MulDist(q * c, r, w);
    MulAssoc(q, c, w);
    // i * w == q * (c * w) + r * w, and the layout position is q * 256 + r * w
    LayoutGap(q, 256 % w, c * w, r * w);
    DivModFacts(i * w, 256);
    if i < c {
      DivModUnique(i, c, 0, i);
      DivModUnique(i * w, 256, 0, i * w);
    } else if 256 % w == 0 {
      DivModUnique(i * w, 256, q, r * w);
    } else {
      MulPos(q, c);
      assert q >= 1 by { if q <= 0 { MulPos(-q, c); } }
    }
  }

  /** Ten 24-bit elements fit a slot, so Solidity puts element 10 into the second one; Index looks at the
      last 16 bits of the first. */
  lemma ElementMisplaced()
    ensures LayoutSlot(10, 24) == 1 && LayoutOffset(10, 24) == 0
    ensures BeginBit(10, 24) / 256 == 0 && BeginBit(10, 24) % 256 == 240
  {}

  /** Byte 2^61 of an array is looked for at bit 0. */
  lemma ByteMisplaced()
    ensures LayoutSlot(0x2000_0000_0000_0000, 8) == 0x100_0000_0000_0000
    ensures BeginBit(0x2000_0000_0000_0000, 8) == 0
  {}

  lemma LayoutGap(q: int, gap: int, used: int, o: int)
    requires used + gap == 256
    ensures q * 256 + o == q * used + o + q * gap
    ensures q >= 1 && gap >= 1 ==> q * gap >= 1
  {}

  /** Writing a w-bit field of one slot. */
  function WriteBits(st: Storage, slot: Word, o: nat, w: nat, x: nat): Storage {
    (p: Word) => if p == slot then ToBytes(PutField(SlotWord(st(p)), o, w, x), 32) else st(p)
  }

  lemma WriteBitsWord(st: Storage, slot: Word, o: nat, w: nat, x: nat)
    requires o + w <= 256 && x < Pow2(w)
    ensures SlotWord(WriteBits(st, slot, o, w, x)(slot)) == PutField(SlotWord(st(slot)), o, w, x)
  {
    var n := PutField(SlotWord(st(slot)), o, w, x);
    PutFieldBound(SlotWord(st(slot)), o, w, x);
    Pow2At(256);
    FromToBytes(n, 32);
    ModExact(n, TWO256);
  }

  lemma WriteBitsRead(st: Storage, slot: Word, o: nat, w: nat, x: nat, slot2: Word, o2: nat)
    requires o + w <= 256 && x < Pow2(w)
    requires slot == slot2 ==> o == o2 || o + w <= o2 || o2 + w <= o
    ensures Field(SlotWord(WriteBits(st, slot, o, w, x)(slot2)), o2, w)
         == if slot == slot2 && o == o2 then x else Field(SlotWord(st(slot2)), o2, w)
  {
    if slot == slot2 {
      WriteBitsWord(st, slot, o, w, x);
      FieldOfPut(SlotWord(st(slot)), o, w, x, o2, w);
    }
  }

  lemma BitsIndependent(st: Storage, base: Word, bit: nat, bit2: nat, w: nat, x: nat)
    requires w > 0 && x < Pow2(w) && bit % 256 + w <= 256
    requires bit < TWO64 && bit2 < TWO64
    requires bit == bit2 || bit + w <= bit2 || bit2 + w <= bit
    ensures Field(SlotWord(WriteBits(st, SlotOf(base, bit), bit % 256, w, x)(SlotOf(base, bit2))), bit2 % 256, w)
         == if bit == bit2 then x else Field(SlotWord(st(SlotOf(base, bit2))), bit2 % 256, w)
  {
    SlotsApart(base, bit, bit2, w);
    WriteBitsRead(st, SlotOf(base, bit), bit % 256, w, x, SlotOf(base, bit2), bit2 % 256);
  }

  /** Writing packed element i: it reads back and no other element changes. */
  lemma ElementsIndependent(st: Storage, base: Word, i: nat, j: nat, w: nat, x: nat, bit: nat, bit2: nat)
    requires w > 0 && 256 % w == 0 && x < Pow2(w)
    requires bit == i * w < TWO64 && bit2 == j * w < TWO64
    ensures Field(SlotWord(WriteBits(st, SlotOf(base, bit), bit % 256, w, x)(SlotOf(base, bit2))), bit2 % 256, w)
         == if i == j then x else Field(SlotWord(st(SlotOf(base, bit2))), bit2 % 256, w)
  {
    FitsInSlot(i, w);
    DisjointRanges(i, j, w);
    BitsIndependent(st, base, bit, bit2, w, x);
  }

  lemma SlotsApart(base: Word, bit: nat, bit2: nat, w: nat)
    requires bit < TWO64 && bit2 < TWO64 && w > 0
    ensures bit != bit2 && SlotOf(base, bit) == SlotOf(base, bit2) ==> bit % 256 != bit2 % 256
    ensures (bit + w <= bit2 || bit2 + w <= bit) && SlotOf(base, bit) == SlotOf(base, bit2) ==>
      bit % 256 + w <= bit2 % 256 || bit2 % 256 + w <= bit % 256
  {
    if SlotOf(base, bit) == SlotOf(base, bit2) {
      SlotsDiffer(base, bit, bit2);
      if bit + w <= bit2 || bit2 + w <= bit { DisjointOffsets(bit, bit2, w); }
      DivModFacts(bit, 256);
      DivModFacts(bit2, 256);
    }
  }

  lemma DisjointOffsets(bit: nat, bit2: nat, w: nat)
    requires bit / 256 == bit2 / 256
    requires bit + w <= bit2 || bit2 + w <= bit
    ensures bit % 256 + w <= bit2 % 256 || bit2 % 256 + w <= bit % 256
  {
    DivModFacts(bit, 256);
    DivModFacts(bit2, 256);
  }

  lemma SlotsDiffer(base: Word, bit: nat, bit2: nat)
    requires bit < TWO64 && bit2 < TWO64 && SlotOf(base, bit) == SlotOf(base, bit2)
    ensures bit / 256 == bit2 / 256
  {
    var a, b := base + bit / 256, base + bit2 / 256;
    DivModFacts(a, TWO256);
    DivModFacts(b, TWO256);
    MulDist(a / TWO256, b / TWO256, TWO256);
    MulPos(a / TWO256 - b / TWO256, TWO256);
  }

  lemma DisjointRanges(i: nat, j: nat, w: nat)
    requires w > 0
    ensures i < j ==> i * w + w <= j * w
    ensures j < i ==> j * w + w <= i * w
    ensures i == j <==> i * w == j * w
  {
    MulDist(j, i, w);
    MulPos(j - i, w);
  }
}
