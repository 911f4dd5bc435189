/** storage/utils/scan.go: decoding of the Solidity storage layout. */
module SolidityScan {
  import opened Bytes

  type Slot = bs: seq<byte> | |bs| == 32 witness Zeros(32)

  /** f in the source: the 32 bytes held in every storage slot. */
  type Storage = Word -> Slot

  /** crypto.Keccak256Hash of the 32 bytes of a slot number; nothing is assumed about it. */
  type Hashing = Word -> Word

  /** common.BytesToHash(data).Big(). */
  function SlotWord(bs: Slot): Word {
    FromBytesBound(bs);
    Pow2At(256);
    FromBytes(bs)
  }

  /** common.BigToHash: the low 32 bytes of the magnitude. */
  function BigToHash(x: int): Word {
    (if x < 0 then -x else x) % TWO256
  }

  // ---- strings ---------------------------------------------------------------

  /** big.Int.Rsh on a word, with the shift distance a wrapped uint. */
  function Rsh(v: Word, distance: int): nat {
    var d := distance % TWO64;
    if d >= 256 then 0 else Shr(v, d)
  }

  /** Slots first+from up to first+to-1, one after the other. */
  function ReadRun(st: Storage, first: Word, from: int, to: int): seq<byte>
    decreases to - from
  {
    if from >= to then [] else ReadRun(st, first, from, to - 1) + st(BigToHash(first + (to - 1)))
  }

  function LastChunk(slot: Slot, remain: nat): seq<byte> {
    if remain == 0 then slot else MinBytes(Rsh(SlotWord(slot), 256 - remain))
  }

  /** slotNum.Int64(). */
  function SlotCount(bits: nat): int {
    ToInt64(if bits % 256 == 0 then bits / 256 else bits / 256 + 1)
  }

  /** slotNum.Int64() - 1, which wraps around at -2^63. */
  function LastSlot(bits: nat): int {
    ToInt64(SlotCount(bits) - 1)
  }

  /** The bytes SolidityString.Value returns for slot p. */
  function StringAt(st: Storage, p: Word, keccak: Hashing): seq<byte> {
    var v := SlotWord(st(p));
    if v % 2 == 1 then
      var bits := (v - 1) / 2 * 8;
      var last := LastSlot(bits);
      st(keccak(p)) + ReadRun(st, keccak(p), 1, last) + LastChunk(st(BigToHash(keccak(p) + last)), bits % 256)
    else
      MinBytes(Rsh(v, 256 - v % 256 / 2 * 8))
  }

  /** The slot loop: the first data slot and all that follow it but the last. */
  method ReadSlots(st: Storage, first: Word, last: int) returns (value: seq<byte>)
    ensures value == st(first) + ReadRun(st, first, 1, last)
  {
    value := st(first);
    var i := 1;
    while i < last
      invariant 1 <= i && (i <= last || i == 1)
      invariant value == st(first) + ReadRun(st, first, 1, i)
    {
      value := value + st(BigToHash(first + i));
      i := i + 1;
    }
    assert ReadRun(st, first, 1, i) == ReadRun(st, first, 1, last);
  }

  datatype SolidityString = SolidityString(slotIndex: Word) {
    method LongValue(st: Storage, keccak: Hashing) returns (value: seq<byte>)
      requires SlotWord(st(slotIndex)) % 2 == 1
      ensures value == StringAt(st, slotIndex, keccak)
    {
      var v: nat := SlotWord(st(slotIndex));
      var length: nat := (v - 1) / 2 * 8;
      var remain := length % 256;
      var last := LastSlot(length);
      var firstSlotIndex := keccak(slotIndex);
      value := ReadSlots(st, firstSlotIndex, last);
      var lastSlotValue := st(BigToHash(firstSlotIndex + last));
      if remain == 0 {
        value := value + lastSlotValue;
      } else {
        value := value + MinBytes(Rsh(SlotWord(lastSlotValue), 256 - remain));
      }
    }

    method Value(st: Storage, keccak: Hashing) returns (value: seq<byte>)
      ensures value == StringAt(st, slotIndex, keccak)
    {
      var v: nat := SlotWord(st(slotIndex));
      if v % 2 == 1 {
        value := LongValue(st, keccak);
      } else {
        var length: nat := v % 256 / 2 * 8;
        var distance: int := 256 - length;
        value := MinBytes(Rsh(v, distance));
      }
    }
  }

  /** The slots that decoding the string at p looks at. */
  ghost predicate StringReads(st: Storage, keccak: Hashing, p: Word, slot: Word) {
    var v := SlotWord(st(p));
    slot == p || (v % 2 == 1 && RunReads(keccak(p), LastSlot((v - 1) / 2 * 8), slot))
  }

  ghost predicate RunReads(first: Word, last: int, slot: Word) {
    slot == first || slot == DataSlot(first, last) || exists j :: 1 <= j < last && slot == DataSlot(first, j)
  }

  function DataSlot(first: Word, j: int): Word {
    BigToHash(first + j)
  }

  ghost predicate AgreeOnRun(st: Storage, st': Storage, first: Word, last: int) {
    forall slot :: RunReads(first, last, slot) ==> st(slot) == st'(slot)
  }

  lemma {:induction false} RunLocal(st: Storage, st': Storage, first: Word, from: int, to: int, last: int)
    requires AgreeOnRun(st, st', first, last) && 1 <= from && to <= last
    ensures ReadRun(st, first, from, to) == ReadRun(st', first, from, to)
    decreases if from < to then to - from else 0
  {
    if from < to {
      RunLocal(st, st', first, from, to - 1, last);
      assert RunReads(first, last, DataSlot(first, to - 1));
    }
  }

  ghost predicate AgreeOnString(st: Storage, st': Storage, keccak: Hashing, p: Word) {
    forall slot :: StringReads(st, keccak, p, slot) ==> st(slot) == st'(slot)
  }

  /** Decoding depends on those slots only. */
  lemma StringLocal(st: Storage, st': Storage, keccak: Hashing, p: Word)
    requires AgreeOnString(st, st', keccak, p)
    ensures StringAt(st, p, keccak) == StringAt(st', p, keccak)
  {
    assert StringReads(st, keccak, p, p);
    var v: nat := SlotWord(st(p));
    if v % 2 == 1 {
      LongLocal(st, st', keccak, p, LastSlot((v - 1) / 2 * 8));
    }
  }

  lemma LongLocal(st: Storage, st': Storage, keccak: Hashing, p: Word, last: int)
    requires AgreeOnRun(st, st', keccak(p), last)
    ensures st(keccak(p)) == st'(keccak(p)) && st(BigToHash(keccak(p) + last)) == st'(BigToHash(keccak(p) + last))
    ensures ReadRun(st, keccak(p), 1, last) == ReadRun(st', keccak(p), 1, last)
  {
    assert RunReads(keccak(p), last, keccak(p)) && RunReads(keccak(p), last, DataSlot(keccak(p), last));
    RunLocal(st, st', keccak(p), 1, last, last);
  }

  function ShortTail(n: nat): (tail: seq<byte>)
    requires n <= 31
    ensures |tail| == 32 - n && tail[31 - n] == 2 * n
  {
    Zeros(31 - n) + [2 * n]
  }

  /** The slot that holds a string's own position, by the rule of "bytes and string". */
  function HeaderSlot(s: seq<byte>): Slot
    requires |s| < TWO63
  {
    if |s| <= 31 then s + ShortTail(|s|) else ToBytes(2 * |s| + 1, 32)
  }

  /** The i-th data slot of a long string, zero-padded on the right. */
  function Chunk(s: seq<byte>, i: nat): Slot
    requires 32 * i < |s|
  {
    if 32 * i + 32 <= |s| then s[32 * i..32 * i + 32] else s[32 * i..] + Zeros(32 * i + 32 - |s|)
  }

  ghost predicate Stores(st: Storage, p: Word, keccak: Hashing, s: seq<byte>)
    requires |s| < TWO63
  {
    && st(p) == HeaderSlot(s)
    && (|s| > 31 ==>
          forall i: nat :: 32 * i < |s| ==> st(BigToHash(keccak(p) + i)) == Chunk(s, i))
  }

  /** The data area of a long string does not wrap around onto its header. */
  predicate HeaderOutsideData(p: Word, first: Word, s: seq<byte>) {
    |s| > 31 ==> 32 * ((p - first) % TWO256) >= |s|
  }

  /** Storing s at slot p, the encoder of the layout. */
  function WriteString(st: Storage, p: Word, keccak: Hashing, s: seq<byte>): Storage
    requires |s| < TWO63
  {
    (w: Word) =>
      var k := (w - keccak(p)) % TWO256;
      if w == p then HeaderSlot(s)
      else if |s| > 31 && 32 * k < |s| then Chunk(s, k)
      else st(w)
  }

  /** The slots that storing s at p writes. */
  predicate StringWrites(keccak: Hashing, p: Word, s: seq<byte>, slot: Word) {
    slot == p || (|s| > 31 && 32 * ((slot - keccak(p)) % TWO256) < |s|)
  }

  lemma WritesElsewhere(st: Storage, keccak: Hashing, p: Word, s: seq<byte>, slot: Word)
    requires |s| < TWO63 && !StringWrites(keccak, p, s, slot)
    ensures WriteString(st, p, keccak, s)(slot) == st(slot)
  {}

  lemma WriteStores(st: Storage, p: Word, keccak: Hashing, s: seq<byte>)
    requires |s| < TWO63 && HeaderOutsideData(p, keccak(p), s)
    ensures Stores(WriteString(st, p, keccak, s), p, keccak, s)
  {
    var st' := WriteString(st, p, keccak, s);
    if |s| > 31 {
      forall i: nat | 32 * i < |s|
        ensures st'(BigToHash(keccak(p) + i)) == Chunk(s, i)
      {
        var w := BigToHash(keccak(p) + i);
        var q := (keccak(p) + i) / TWO256;
        assert w - keccak(p) == (-q) * TWO256 + i;
        DivModUnique(w - keccak(p), TWO256, -q, i);
        assert w != p;
      }
    }
  }

  /** What the decoder makes of a stored string: a final partial chunk loses its leading NULs,
      and a string of exactly 32 bytes comes out twice. */
  function Reading(s: seq<byte>): seq<byte> {
    var whole := |s| - |s| % 32;
    if |s| == 32 then s + s else s[..whole] + StripZeros(s[whole..])
  }

  /** Shifting a right-padded slot down leaves its content. */
  lemma ShiftedContent(content: seq<byte>, tail: seq<byte>)
    requires |content| + |tail| == 32 && |content| > 0
    ensures MinBytes(Shr(SlotWord(content + tail), 8 * |tail|)) == StripZeros(content)
  {
    FromBytesShift(content, tail);
    MinBytesOfFromBytes(content);
    ShrIsDivision(SlotWord(content + tail), 8 * |tail|);
  }

  lemma RshIsShr(v: Word, d: nat)
    requires d < 256
    ensures Rsh(v, d) == Shr(v, d)
  {
    DivModUnique(d, TWO64, 0, d);
  }

  lemma ShiftedDown(content: seq<byte>, tail: seq<byte>)
    requires |content| + |tail| == 32 && |content| > 0
    ensures LastChunk(content + tail, 8 * |content|) == StripZeros(content)
  {
    ShiftedContent(content, tail);
    RshIsShr(SlotWord(content + tail), 8 * |tail|);
  }

  lemma EvenHeader(n: nat)
    ensures 2 * n % 2 == 0 && 2 * n / 2 * 8 == 8 * n
  {
    DivModUnique(2 * n, 2, n, 0);
  }

  lemma OddHeader(n: nat)
    ensures (2 * n + 1) % 2 == 1 && (2 * n + 1 - 1) / 2 * 8 == 8 * n
  {
    DivModUnique(2 * n + 1, 2, n, 1);
    DivModUnique(2 * n, 2, n, 0);
  }

  lemma ModTwo(high: nat, low: nat)
    ensures (high * 256 + low) % 2 == low % 2
  {
    DivModUnique(high * 256 + low, 2, 128 * high + low / 2, low % 2);
  }

  lemma LastByte(bs: Slot)
    ensures SlotWord(bs) % 256 == bs[31]
    ensures SlotWord(bs) % 2 == bs[31] % 2
  {
    DivModUnique(SlotWord(bs), 256, FromBytes(bs[..31]), bs[31]);
    ModTwo(FromBytes(bs[..31]), bs[31]);
  }

  lemma ShortDecoding(st: Storage, p: Word, keccak: Hashing, s: seq<byte>)
    requires |s| <= 31 && Stores(st, p, keccak, s)
    ensures StringAt(st, p, keccak) == if s == [] then [] else LastChunk(st(p), 8 * |s|)
  {
    LastByte(st(p));
    assert st(p)[31] == 2 * |s|;
    EvenHeader(|s|);
    RshAll(SlotWord(st(p)));
  }

  lemma RshAll(v: Word)
    ensures Rsh(v, 256) == 0
  {
    DivModUnique(256, TWO64, 0, 256);
  }

  lemma ShortString(st: Storage, p: Word, keccak: Hashing, s: seq<byte>)
    requires |s| <= 31 && Stores(st, p, keccak, s)
    ensures StringAt(st, p, keccak) == StripZeros(s)
  {
    ShortDecoding(st, p, keccak, s);
    if |s| > 0 {
      ShiftedDown(s, ShortTail(|s|));
    }
  }

  lemma {:induction false} ReadRunStored(st: Storage, p: Word, keccak: Hashing, s: seq<byte>, to: nat)
    requires 31 < |s| < TWO63 && Stores(st, p, keccak, s)
    requires 1 <= to && 32 * to <= |s|
    ensures st(keccak(p)) + ReadRun(st, keccak(p), 1, to) == s[..32 * to]
  {
    if to == 1 {
      assert BigToHash(keccak(p) + 0) == keccak(p);
      assert st(keccak(p)) == Chunk(s, 0);
    } else {
      ReadRunStored(st, p, keccak, s, to - 1);
      assert st(BigToHash(keccak(p) + (to - 1))) == Chunk(s, to - 1);
      assert s[..32 * to] == s[..32 * (to - 1)] + s[32 * (to - 1)..32 * to];
    }
  }

  lemma LongHeaderWord(st: Storage, p: Word, keccak: Hashing, s: seq<byte>)
    requires 31 < |s| < TWO63 && Stores(st, p, keccak, s)
    ensures SlotWord(st(p)) == 2 * |s| + 1
  {
    FromToBytes(2 * |s| + 1, 32);
    Pow2At(256);
    DivModUnique(2 * |s| + 1, TWO256, 0, 2 * |s| + 1);
  }

  /** The slot-count arithmetic, for a last chunk of r bytes. */
  lemma SlotArithmetic(n: nat, k: nat, r: nat)
    requires n == 32 * k + r && 1 <= r <= 32 && n < TWO63
    ensures LastSlot(8 * n) == k
    ensures 8 * n % 256 == if r == 32 then 0 else 8 * r
    ensures n % 32 == if r == 32 then 0 else r
  {
    if r == 32 {
      DivModUnique(8 * n, 256, k + 1, 0);
      DivModUnique(n, 32, k + 1, 0);
    } else {
      DivModUnique(8 * n, 256, k, 8 * r);
      DivModUnique(n, 32, k, r);
    }
  }

  lemma LongForm(st: Storage, p: Word, keccak: Hashing, n: nat, k: nat, bits: nat)
    requires SlotWord(st(p)) == 2 * n + 1
    requires LastSlot(8 * n) == k && 8 * n % 256 == bits
    ensures StringAt(st, p, keccak)
         == st(keccak(p)) + ReadRun(st, keccak(p), 1, k) + LastChunk(st(BigToHash(keccak(p) + k)), bits)
  {
    OddHeader(n);
  }

  /** The decoder on a long string, with its header arithmetic carried out. */
  lemma LongDecoding(st: Storage, p: Word, keccak: Hashing, s: seq<byte>, k: nat, r: nat)
    requires 31 < |s| < TWO63 && Stores(st, p, keccak, s)
    requires |s| == 32 * k + r && 1 <= r <= 32
    ensures StringAt(st, p, keccak)
         == st(keccak(p)) + ReadRun(st, keccak(p), 1, k) + LastChunk(Chunk(s, k), if r == 32 then 0 else 8 * r)
  {
    LongHeaderWord(st, p, keccak, s);
    SlotArithmetic(|s|, k, r);
    LongForm(st, p, keccak, |s|, k, if r == 32 then 0 else 8 * r);
  }

  lemma ExactlyOneSlot(st: Storage, p: Word, keccak: Hashing, s: seq<byte>)
    requires |s| == 32 && Stores(st, p, keccak, s)
    ensures StringAt(st, p, keccak) == s + s
  {
    LongDecoding(st, p, keccak, s, 0, 32);
    ReadRunStored(st, p, keccak, s, 1);
    assert s[..32] == s == Chunk(s, 0);
    assert BigToHash(keccak(p) + 0) == keccak(p);
  }

  lemma PartialChunk(s: seq<byte>, k: nat)
    requires 32 * k < |s| < 32 * k + 32
    ensures LastChunk(Chunk(s, k), 8 * (|s| - 32 * k)) == StripZeros(s[32 * k..])
  {
    ShiftedDown(s[32 * k..], Zeros(32 * k + 32 - |s|));
  }

  lemma ReadingParts(s: seq<byte>, k: nat, r: nat)
    requires |s| == 32 * k + r && 1 <= r <= 32 && 32 < |s|
    ensures Reading(s) == if r == 32 then s else s[..32 * k] + StripZeros(s[32 * k..])
  {
    if r == 32 {
      DivModUnique(|s|, 32, k + 1, 0);
      assert s[..|s|] + StripZeros(s[|s|..]) == s;
    } else {
      DivModUnique(|s|, 32, k, r);
    }
  }

  lemma LongString(st: Storage, p: Word, keccak: Hashing, s: seq<byte>, k: nat, r: nat)
    requires 32 < |s| < TWO63 && Stores(st, p, keccak, s)
    requires |s| == 32 * k + r && 1 <= r <= 32
    ensures StringAt(st, p, keccak) == Reading(s)
  {
    LongDecoding(st, p, keccak, s, k, r);
    ReadRunStored(st, p, keccak, s, k);
    ReadingParts(s, k, r);
    if r == 32 {
      assert s[..32 * k] + s[32 * k..] == s;
    } else {
      PartialChunk(s, k);
    }
  }

  /** Main result on strings: what every stored string decodes to. */
  lemma StringDecoded(st: Storage, p: Word, keccak: Hashing, s: seq<byte>)
    requires |s| < TWO63 && Stores(st, p, keccak, s)
    ensures StringAt(st, p, keccak) == Reading(s)
  {
    if |s| <= 31 {
      ShortString(st, p, keccak, s);
      assert s[0..] == s;
    } else if |s| == 32 {
      ExactlyOneSlot(st, p, keccak, s);
    } else {
      var k, r := (|s| - 1) / 32, (|s| - 1) % 32;
      DivModFacts(|s| - 1, 32);
      LongString(st, p, keccak, s, k, r + 1);
    }
  }

  /** The strings that survive: not 32 bytes long, and no NUL at the head of a partial last chunk. */
  predicate Recoverable(s: seq<byte>) {
    |s| != 32 && (|s| % 32 == 0 || s[|s| - |s| % 32] != 0)
  }

  /** A recoverable string reads as itself. */
  lemma RecoverableReads(s: seq<byte>)
    requires Recoverable(s)
    ensures Reading(s) == s
  {
    var whole := |s| - |s| % 32;
    assert s == s[..whole] + s[whole..];
  }

  lemma StringRoundTrip(st: Storage, p: Word, keccak: Hashing, s: seq<byte>)
    requires |s| < TWO63 && HeaderOutsideData(p, keccak(p), s)
    ensures StringAt(WriteString(st, p, keccak, s), p, keccak) == s <==> Recoverable(s)
  {
    WriteStores(st, p, keccak, s);
    StringDecoded(WriteString(st, p, keccak, s), p, keccak, s);
    var whole := |s| - |s| % 32;
    assert s == s[..whole] + s[whole..];
    var tail := StripZeros(s[whole..]);
    if |s| == 32 {
      assert |s + s| == 64;
    } else if tail != s[whole..] {
      assert (s[..whole] + tail)[whole..] == tail;
    }
  }

  lemma StringRoundTripNulFree(st: Storage, p: Word, keccak: Hashing, s: seq<byte>)
    requires |s| < TWO63 && HeaderOutsideData(p, keccak(p), s)
    requires 0 !in s && |s| != 32
    ensures StringAt(WriteString(st, p, keccak, s), p, keccak) == s
  {
    StringRoundTrip(st, p, keccak, s);
  }

  /** A NUL, and any string of one slot, do not come back. */
  lemma StringsLost(st: Storage, p: Word, keccak: Hashing)
    ensures StringAt(WriteString(st, p, keccak, [0]), p, keccak) != [0]
    ensures HeaderOutsideData(p, keccak(p), Zeros(32)) ==>
      StringAt(WriteString(st, p, keccak, Zeros(32)), p, keccak) != Zeros(32)
  {
    StringRoundTrip(st, p, keccak, [0]);
    if HeaderOutsideData(p, keccak(p), Zeros(32)) { StringRoundTrip(st, p, keccak, Zeros(32)); }
  }

  // ---- integers, booleans, addresses -----------------------------------------

  /** The integer SolidityInt.Value returns. */
  function IntAt(word: Word, width: nat, offset: nat): int
    requires width > 0
  {
    var vb := Field(word, offset, width);
    if vb / Pow2(width - 1) == 0 then vb % TWO64
    else ToInt64(-ToInt64(FromBytes(Complement(MinBytes(vb - 1)))))
  }

  method IntValue(word: Word, width: nat, offset: nat) returns (v: int)
    requires width > 0
    ensures v == IntAt(word, width, offset)
  {
    var vb := Field(word, offset, width);
    if vb / Pow2(width - 1) == 0 {
      v := vb % TWO64;
    } else {
      DivNonNeg(vb, Pow2(width - 1));
      var r := FlipBytes(MinBytes(vb - 1));
      v := ToInt64(-ToInt64(FromBytes(r)));
    }
  }

  /** v as the EVM stores it in an intN of the given width. */
  ghost predicate Fits(v: int, width: nat)
    requires width > 0
  {
    0 <= v + Pow2(width - 1) < 2 * Pow2(width - 1)
  }

  lemma TopByte(k: nat)
    requires k > 0
    ensures Pow2(8 * k - 1) == 128 * Pow2(8 * (k - 1)) && Pow2(8 * k) == 2 * Pow2(8 * k - 1)
  {
    Pow2At(7);
    Pow2Add(8 * (k - 1), 7);
  }

  /** Complementing the bytes of 2^width + v - 1 gives -v, for negative v. */
  lemma ComplementOfPredecessor(v: int, width: nat)
    requires width % 8 == 0 && width > 0 && Fits(v, width) && v < 0
    ensures Pow2(width) + v - 1 >= 0
    ensures FromBytes(Complement(MinBytes(Pow2(width) + v - 1))) == -v
  {
    var n := Pow2(width) + v - 1;
    var k := width / 8;
    TopByte(k);
    MinBytesLength(n, k);
    ComplementValue(MinBytes(n));
  }

  lemma PositiveField(word: Word, width: nat, offset: nat, v: nat)
    requires width > 0 && v < Pow2(width - 1)
    requires Field(word, offset, width) == v % Pow2(width)
    ensures IntAt(word, width, offset) == v % TWO64
  {
    DivModUnique(v, Pow2(width), 0, v);
    DivNonNeg(v, Pow2(width - 1));
  }

  lemma NegativeField(word: Word, width: nat, offset: nat, v: int)
    requires width % 8 == 0 && width > 0 && Fits(v, width) && v < 0
    requires Field(word, offset, width) == v % Pow2(width)
    ensures IntAt(word, width, offset) == ToInt64(-ToInt64(-v))
  {
    var half: int := Pow2(width - 1);
    assert Pow2(width) == 2 * half;
    DivModUnique(v, Pow2(width), -1, v + Pow2(width));
    DivModUnique(v + 2 * half, half, 1, v + half);
    ComplementOfPredecessor(v, width);
  }

  lemma ModExact(v: nat, m: nat)
    requires m > 0
    ensures v % m == v <==> v < m
  {
    if v < m { DivModUnique(v, m, 0, v); }
  }

  lemma NegateExact(v: int)
    requires v < 0
    ensures ToInt64(-ToInt64(-v)) == v <==> -TWO63 <= v
  {}

  /** Main result on integers: a two's complement field of any byte-multiple width decodes to its
      value exactly when that value is in [-2^63, 2^64). */
  lemma IntDecoded(word: Word, width: nat, offset: nat, v: int)
    requires width % 8 == 0 && 8 <= width <= 256 && Fits(v, width)
    requires Field(word, offset, width) == v % Pow2(width)
    ensures IntAt(word, width, offset) == v <==> -TWO63 <= v < TWO64
  {
    if v >= 0 {
      PositiveField(word, width, offset, v);
      ModExact(v, TWO64);
    } else {
      NegativeField(word, width, offset, v);
      NegateExact(v);
    }
  }

  lemma IntRoundTrip(word: Word, width: nat, offset: nat, v: int)
    requires width % 8 == 0 && 8 <= width && offset + width <= 256 && Fits(v, width)
    ensures PutField(word, offset, width, v % Pow2(width)) < TWO256
    ensures IntAt(PutField(word, offset, width, v % Pow2(width)), width, offset) == v
       <==> -TWO63 <= v < TWO64
  {
    var x := v % Pow2(width);
    PutFieldBound(word, offset, width, x);
    FieldOfPut(word, offset, width, x, 0, 0);
    IntDecoded(PutField(word, offset, width, x), width, offset, v);
  }

  /** 2^64 in an int72 comes back as something else. */
  lemma IntLost(word: Word, width: nat)
    requires width == 72
    ensures Fits(TWO64, width)
    ensures PutField(word, 0, width, TWO64 % Pow2(width)) < TWO256
    ensures IntAt(PutField(word, 0, width, TWO64 % Pow2(width)), width, 0) != TWO64
  {
    Pow2At(7);
    Pow2At(64);
    Pow2Add(64, 7);
    IntRoundTrip(word, width, 0, TWO64);
  }

  lemma PutFieldBound(word: Word, offset: nat, width: nat, x: nat)
    requires offset + width <= 256 && x < Pow2(width)
    ensures PutField(word, offset, width, x) < TWO256
  {
    Pow2At(256);
    var n, k := PutField(word, offset, width, x), offset + width;
    PutParts(word, offset, width, x);
    // n and word have the same high part, and word has none above bit 256
    FieldQuotient(n, k);
    FieldQuotient(word, k);
    DivNonNeg(word, Pow2(256));
    DivModFacts(n, Pow2(256));
  }

  lemma FieldQuotient(n: nat, k: nat)
    requires k <= 256
    ensures n / Pow2(256) == n / Pow2(k) / Pow2(256 - k)
  {
    Pow2Add(k, 256 - k);
    ModSplit(n, Pow2(k), Pow2(256 - k));
  }

  /** SolidityUint.Value, as a number (the source prints it when it exceeds 64 bits). */
  function UintAt(word: Word, width: nat, offset: nat): nat {
    Field(word, offset, width)
  }

  /** SolidityAddress.Value. */
  function AddressAt(word: Word, offset: nat): nat {
    Field(word, offset, 160)
  }

  /** SolidityBool.Value. */
  predicate BoolAt(word: Word, offset: nat) {
    Field(word, offset, 8) % TWO64 == 1
  }

  /** common.TrimRightZeroes. */
  function TrimRight(bs: seq<byte>): (r: seq<byte>)
    ensures r <= bs
    ensures r == [] <==> AllZero(bs)
  {
    if |bs| > 0 && bs[|bs| - 1] == 0 then TrimRight(bs[..|bs| - 1]) else bs
  }

  predicate AllZero(bs: seq<byte>) {
    forall i :: 0 <= i < |bs| ==> bs[i] == 0
  }

  /** SolidityBytes.Value. */
  function BytesAt(word: Word, width: nat, offset: nat): seq<byte> {
    TrimRight(MinBytes(Field(word, offset, width)))
  }

  lemma {:induction false} StrippedHead(bs: seq<byte>)
    ensures StripZeros(bs) == [] <==> AllZero(bs)
    ensures StripZeros(bs) != [] ==> StripZeros(bs)[0] != 0
  {
    if |bs| > 0 && bs[0] == 0 {
      StrippedHead(bs[1..]);
      assert forall i :: 1 <= i < |bs| ==> bs[i] == bs[1..][i - 1];
    }
  }

  /** A fixed-size byte value reads as its bytes without trailing NULs exactly when it does not start
      with a NUL, or is all NULs. */
  lemma BytesRoundTrip(word: Word, offset: nat, b: seq<byte>)
    requires |b| > 0 && offset + 8 * |b| <= 256
    ensures PutField(word, offset, 8 * |b|, FromBytes(b)) < TWO256
    ensures BytesAt(PutField(word, offset, 8 * |b|, FromBytes(b)), 8 * |b|, offset) == TrimRight(b)
       <==> b[0] != 0 || AllZero(b)
  {
    FromBytesBound(b);
    PutFieldBound(word, offset, 8 * |b|, FromBytes(b));
    FieldOfPut(word, offset, 8 * |b|, FromBytes(b), 0, 0);
    MinBytesOfFromBytes(b);
    StrippedHead(b);
    TrimmedHeads(b);
  }

  lemma TrimmedHeads(b: seq<byte>)
    requires |b| > 0
    ensures TrimRight(StripZeros(b)) == TrimRight(b) <==> b[0] != 0 || AllZero(b)
  {
    StrippedHead(b);
    if b[0] == 0 && !AllZero(b) {
      var c := StripZeros(b);
      assert !AllZero(c);
      assert TrimRight(b)[0] == b[0] && TrimRight(c)[0] == c[0];
    }
  }

  lemma {:induction false} TrimPadded(s: seq<byte>, k: nat)
    ensures TrimRight(s + Zeros(k)) == TrimRight(s)
  {
    if k == 0 {
      assert s + Zeros(0) == s;
    } else {
      TrimPadded(s, k - 1);
      assert (s + Zeros(k))[..|s| + k - 1] == s + Zeros(k - 1);
    }
  }

  /** The bytes2 value 0x0001 does not come back. */
  lemma BytesLost(word: Word)
    ensures PutField(word, 0, 16, FromBytes([0, 1])) < TWO256
    ensures BytesAt(PutField(word, 0, 16, FromBytes([0, 1])), 16, 0) != [0, 1]
  {
    var b: seq<byte> := [0, 1];
    BytesRoundTrip(word, 0, b);
    assert b[1] != 0 && TrimRight(b) == b;
  }

  /** Fields packed into one slot: writing one leaves what the decoders read in the others. */
  lemma PackedFields(word: Word, offset: nat, width: nat, x: nat, offset2: nat, width2: nat)
    requires offset + width <= 256 && x < Pow2(width) && width2 > 0
    requires offset2 + width2 <= offset || offset + width <= offset2
    ensures PutField(word, offset, width, x) < TWO256
    ensures UintAt(PutField(word, offset, width, x), width, offset) == x
    ensures UintAt(PutField(word, offset, width, x), width2, offset2) == UintAt(word, width2, offset2)
    ensures IntAt(PutField(word, offset, width, x), width2, offset2) == IntAt(word, width2, offset2)
  {
    PutFieldBound(word, offset, width, x);
    FieldOfPut(word, offset, width, x, offset2, width2);
    IntOfField(PutField(word, offset, width, x), word, offset2, width2);
  }

  lemma IntOfField(word: Word, word2: Word, offset: nat, width: nat)
    requires width > 0 && Field(word, offset, width) == Field(word2, offset, width)
    ensures IntAt(word, width, offset) == IntAt(word2, width, offset)
  {}

  lemma BoolRoundTrip(word: Word, offset: nat, b: bool)
    requires offset + 8 <= 256
    ensures PutField(word, offset, 8, if b then 1 else 0) < TWO256
    ensures BoolAt(PutField(word, offset, 8, if b then 1 else 0), offset) <==> b
  {
    Pow2At(8);
    PutFieldBound(word, offset, 8, if b then 1 else 0);
    FieldOfPut(word, offset, 8, if b then 1 else 0, 0, 0);
  }

  lemma AddressRoundTrip(word: Word, offset: nat, a: nat)
    requires offset + 160 <= 256 && a < Pow2(160)
    ensures PutField(word, offset, 160, a) < TWO256
    ensures AddressAt(PutField(word, offset, 160, a), offset) == a
  {
    PutFieldBound(word, offset, 160, a);
    FieldOfPut(word, offset, 160, a, 0, 0);
  }
}
