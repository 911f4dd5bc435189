/** storage/utils: arrays and mappings, against the layout of the sections "Mappings and Dynamic Arrays" and
    "Layout of State Variables in Storage". */
module ArrayLayout {
  import opened Bytes
  import opened SolidityScan
  import opened SliceValues
  import opened StructValues
  import opened StructFields

  // ---- the encoder ----------------------------------------------------------------

  /** The slot of element i of an array whose data starts at base: as many elements a slot as fit. */
  function Place(base: Word, i: nat, w: nat): Word
    requires 0 < w <= 256
  {
    (base + LayoutSlot(i, w)) % TWO256
  }

  /** Storing the elements of one word or less, given as bits. */
  function PutElements(st: Storage, base: Word, w: nat, xs: seq<nat>): Storage
    requires 0 < w <= 256
  {
    if xs == [] then st
    else
      var n := |xs| - 1;
      WriteBits(PutElements(st, base, w, xs[..n]), Place(base, n, w), LayoutOffset(n, w), w, xs[n])
  }

  /** Storing a dynamic array at slot p: its length there, its data from the hash of p on. */
  function StoreDynamic(st: Storage, keccak: Hashing, p: Word, w: nat, xs: seq<nat>): Storage
    requires 0 < w <= 256
  {
    PutElements((q: Word) => if q == p then ToBytes(|xs|, 32) else st(q), keccak(p), w, xs)
  }

  lemma LayoutPosition(i: nat, w: nat)
    requires 0 < w <= 256
    ensures 0 <= LayoutSlot(i, w) <= i
    ensures 0 <= LayoutOffset(i, w) && LayoutOffset(i, w) + w <= 256
  {
    PerSlot(w);
    var c := 256 / w;
    DivModFacts(256, w);
    DivModFacts(i, c);
    DivNonNeg(i, c);
    MulPos(i / c, c);
    MulDist(c, 1, i / c);
    MulPos(c - 1 + 1, i / c + 1);
    QuotientAtMost(i, c);
    MulPos(i % c, w);
    MulDist(c - 1, i % c, w);
    MulPos(c - 1 - i % c, w);
    MulDist(c, 1, w);
  }

  lemma QuotientAtMost(i: nat, c: nat)
    requires c > 0
    ensures i / c <= i
  {
    DivModFacts(i, c);
    MulDist(c, 1, i / c);
    DivNonNeg(i, c);
    if c > 1 { MulPos(c - 1, i / c + 1); NonNegProduct(c - 1, i / c); }
  }

  /** Different elements have different slots, or different bits of one. */
  lemma PlacesApart(base: Word, i: nat, j: nat, w: nat)
    requires 0 < w <= 256 && i < TWO64 && j < TWO64 && i != j
    ensures Place(base, i, w) == Place(base, j, w) ==>
      LayoutOffset(i, w) + w <= LayoutOffset(j, w) || LayoutOffset(j, w) + w <= LayoutOffset(i, w)
  {
    LayoutPosition(i, w);
    LayoutPosition(j, w);
    PerSlot(w);
    var c, b: nat := 256 / w, base;
    DivModFacts(i, c);
    DivModFacts(j, c);
    var a, d := LayoutSlot(i, w), LayoutSlot(j, w);
    if a <= d { ModApart(b + a, d - a); } else { ModApart(b + d, a - d); }
    DisjointRanges(i % c, j % c, w);
  }

  /** Every stored element reads back from its place. */
  lemma {:induction false} ElementsPut(st: Storage, base: Word, w: nat, xs: seq<nat>, i: nat)
    requires 0 < w <= 256 && |xs| <= TWO64 && i < |xs| && forall k :: 0 <= k < |xs| ==> xs[k] < Pow2(w)
    ensures Bytes.Field(SlotWord(PutElements(st, base, w, xs)(Place(base, i, w))), LayoutOffset(i, w), w) == xs[i]
  {
    var n := |xs| - 1;
    LayoutPosition(n, w);
    LayoutPosition(i, w);
    var before := PutElements(st, base, w, xs[..n]);
    if i < n {
      ElementsPut(st, base, w, xs[..n], i);
      PlacesApart(base, i, n, w);
    }
    WriteBitsRead(before, Place(base, n, w), LayoutOffset(n, w), w, xs[n], Place(base, i, w), LayoutOffset(i, w));
  }

  lemma {:induction false} PutElsewhere(st: Storage, base: Word, w: nat, xs: seq<nat>, slot: Word)
    requires 0 < w <= 256 && forall i: nat :: i < |xs| ==> Place(base, i, w) != slot
    ensures PutElements(st, base, w, xs)(slot) == st(slot)
  {
    if xs != [] {
      PutElsewhere(st, base, w, xs[..|xs| - 1], slot);
      assert Place(base, |xs| - 1, w) != slot;
    }
  }

  // ---- stored arrays ----------------------------------------------------------------

  /** Element i of the data that starts at base is v: bits in its place, or a string stored there. */
  ghost predicate ElementStored(st: Storage, keccak: Hashing, elem: ElementUnit, base: Word, i: nat, v: Value) {
    if elem.StringUnit? then
      v.Text? && |v.s| < TWO63 && Recoverable(v.s) && Stores(st, (base + i) % TWO256, keccak, v.s)
    else
      && 0 < Width(elem) <= 256
      && Encodes(elem, v, Bytes.Field(SlotWord(st(Place(base, i, Width(elem)))), LayoutOffset(i, Width(elem)), Width(elem)))
  }

  ghost predicate ArrayStored(st: Storage, keccak: Hashing, elem: ElementUnit, base: Word, values: seq<Value>) {
    forall i :: 0 <= i < |values| ==> ElementStored(st, keccak, elem, base, i, values[i])
  }

  /** A dynamic array at slot p. */
  ghost predicate DynamicStored(st: Storage, keccak: Hashing, elem: ElementUnit, p: Word, values: seq<Value>) {
    SlotWord(st(p)) == |values| && ArrayStored(st, keccak, elem, keccak(p), values)
  }

  lemma LengthWord(n: nat, k: nat)
    requires n < TWO256 && k == 32
    ensures FromBytes(ToBytes(n, k)) == n
  {
    Pow2At(8 * k);
    FromToBytes(n, k);
    ModExact(n, TWO256);
  }

  /** The encoder stores what it should, when the data does not reach around to the length. */
  lemma DynamicEncoded(st: Storage, keccak: Hashing, elem: ElementUnit, p: Word, values: seq<Value>, xs: seq<nat>)
    requires !elem.StringUnit? && 0 < Width(elem) <= 256 && |values| == |xs| <= TWO64
    requires forall i :: 0 <= i < |xs| ==> Encodes(elem, values[i], xs[i])
    requires forall i: nat :: i < |xs| ==> Place(keccak(p), i, Width(elem)) != p
    ensures DynamicStored(StoreDynamic(st, keccak, p, Width(elem), xs), keccak, elem, p, values)
  {
    var w := Width(elem);
    var st0: Storage := (q: Word) => if q == p then ToBytes(|xs|, 32) else st(q);
    PutElsewhere(st0, keccak(p), w, xs, p);
    LengthWord(|xs|, 32);
    ArrayEncoded(st0, keccak, elem, keccak(p), values, xs);
  }

  lemma ArrayEncoded(st: Storage, keccak: Hashing, elem: ElementUnit, base: Word, values: seq<Value>, xs: seq<nat>)
    requires !elem.StringUnit? && 0 < Width(elem) <= 256 && |values| == |xs| <= TWO64
    requires forall i :: 0 <= i < |xs| ==> Encodes(elem, values[i], xs[i])
    ensures ArrayStored(PutElements(st, base, Width(elem), xs), keccak, elem, base, values)
  {
    forall i | 0 <= i < |values|
      ensures ElementStored(PutElements(st, base, Width(elem), xs), keccak, elem, base, i, values[i])
    {
      assert Encodes(elem, values[i], xs[i]);
      ElementsPut(st, base, Width(elem), xs, i);
    }
  }

  // ---- reading them back --------------------------------------------------------------

  /** The arrays that Index reads where they are: a packed width that divides 256 and bit numbers below
      2^64, or a single slot; a signed 64-bit index where an element takes a slot. */
  predicate Readable(elem: ElementUnit, n: nat) {
    if elem.StringUnit? || elem.AddressUnit? then n <= TWO63
    else
      var w := Width(elem);
      0 < w <= 256 && ((256 % w == 0 && n * w <= TWO64) || n <= 256 / w)
  }

  lemma WholeSlots(base: Word, i: nat)
    requires i < TWO63
    ensures Place(base, i, 160) == BigToHash(base + ToInt64(i)) && LayoutOffset(i, 160) == 0
  {
    DivModUnique(i, 1, i, 0);
  }

  /** Index reads a packed element from its place. */
  lemma PackedPlace(base: Word, i: nat, n: nat, w: nat)
    requires 0 < w <= 256 && i < n && ((256 % w == 0 && n * w <= TWO64) || n <= 256 / w)
    ensures SlotOf(base, BeginBit(i, w)) == Place(base, i, w) && BeginBit(i, w) % 256 == LayoutOffset(i, w)
  {
    if n * w <= TWO64 {
      MulDist(n, i, w);
      MulPos(n - i, w);
    } else {
      FirstSlotShort(i, w);
    }
    IndexMeetsLayout(i, w);
    SlotOfBit(base, BeginBit(i, w));
  }

  /** Index of an element of one word or less decodes the bits in its place. */
  lemma IndexDecodes(s: SliceValue, elem: ElementUnit, st: Storage, keccak: Hashing, i: nat)
    requires s.unit == elem && !elem.StringUnit? && Readable(elem, s.length) && i < s.length
    ensures s.Index(st, keccak, i)
         == WordValue(elem, SlotWord(st(Place(s.slotIndex, i, Width(elem)))), LayoutOffset(i, Width(elem)))
  {
    if elem.AddressUnit? {
      WholeSlots(s.slotIndex, i);
    } else {
      PackedPlace(s.slotIndex, i, s.length, Width(elem));
    }
  }

  lemma BitsDecoded(s: SliceValue, elem: ElementUnit, st: Storage, keccak: Hashing, i: nat, v: Value)
    requires s.unit == elem && !elem.StringUnit? && Readable(elem, s.length) && i < s.length
    requires ElementStored(st, keccak, elem, s.slotIndex, i, v)
    ensures s.Index(st, keccak, i) == v
  {
    IndexDecodes(s, elem, st, keccak, i);
    var w := Width(elem);
    var word, o := SlotWord(st(Place(s.slotIndex, i, w))), LayoutOffset(i, w);
    EncodedRead(elem, word, o, v, Bytes.Field(word, o, w));
  }

  lemma TextDecoded(s: SliceValue, st: Storage, keccak: Hashing, i: nat, v: Value)
    requires s.unit == StringUnit && i < s.length <= TWO63
    requires ElementStored(st, keccak, StringUnit, s.slotIndex, i, v)
    ensures s.Index(st, keccak, i) == v
  {
    StringDecoded(st, (s.slotIndex + i) % TWO256, keccak, v.s);
    RecoverableReads(v.s);
  }

  lemma ElementDecoded(s: SliceValue, elem: ElementUnit, st: Storage, keccak: Hashing, i: nat, v: Value)
    requires s.unit == elem && Readable(elem, s.length) && i < s.length
    requires ElementStored(st, keccak, elem, s.slotIndex, i, v)
    ensures s.Index(st, keccak, i) == v
  {
    if elem.StringUnit? { TextDecoded(s, st, keccak, i, v); } else { BitsDecoded(s, elem, st, keccak, i, v); }
  }

  /** Round trip for dynamic arrays of every plain element type: Value and then String's loop give the
      stored elements, and their number. */
  method ReadDynamic(env: Env, ghost layout: Layout, v: Variable, elem: ElementUnit, ghost values: seq<Value>)
    returns (read: seq<Value>)
    requires layout.Apart() && layout.Covers(v.kind) && layout.UnitsAtRest()
    requires v.kind.Slice? && v.kind.unitTyp.kind.Plain? && v.kind.unitTyp.kind.elem == elem
    requires DynamicStored(env.st, env.keccak, elem, v.cell.slotIndex, values)
    requires |values| < TWO64 && Readable(elem, |values|)
    ensures read == values
  {
    var h := ValueOf(env, layout, v);
    read := h.elements.Elements(env.st, env.keccak);
    forall i | 0 <= i < |values|
      ensures h.elements.Index(env.st, env.keccak, i) == values[i]
    {
      assert ElementStored(env.st, env.keccak, elem, env.keccak(v.cell.slotIndex), i, values[i]);
      ElementDecoded(h.elements, elem, env.st, env.keccak, i, values[i]);
    }
  }

  /** And for fixed-size arrays, whose data starts in their own slot. */
  method ReadFixed(env: Env, ghost layout: Layout, v: Variable, elem: ElementUnit, ghost values: seq<Value>)
    returns (read: seq<Value>)
    requires layout.Apart() && layout.Covers(v.kind) && layout.UnitsAtRest()
    requires v.kind.Array? && v.kind.unitTyp.kind.Plain? && v.kind.unitTyp.kind.elem == elem
    requires ArrayStored(env.st, env.keccak, elem, v.cell.slotIndex, values)
    requires v.kind.unitLength == |values| && Readable(elem, |values|)
    ensures read == values
  {
    var h := ValueOf(env, layout, v);
    read := h.elements.Elements(env.st, env.keccak);
    forall i | 0 <= i < |values|
      ensures h.elements.Index(env.st, env.keccak, i) == values[i]
    {
      assert ElementStored(env.st, env.keccak, elem, v.cell.slotIndex, i, values[i]);
      ElementDecoded(h.elements, elem, env.st, env.keccak, i, values[i]);
    }
  }

  // ---- arrays of structs ----------------------------------------------------------------

  /** The slots of one element, as the compiler lays them out. */
  ghost function ElementSize(layout: Layout, fields: map<string, Variable>, size: string -> nat): nat {
    MaxOf(Ends(Slots(layout, fields), size))
  }

  function StructSlot(base: Word, i: nat, elementSize: nat, field: Word): Word {
    NonNegProduct(i, elementSize);
    (base + i * elementSize + field) % TWO256
  }

  /** Field f of element i of the structs that start at base holds v, element after element. */
  ghost predicate StructStored(env: Env, layout: Layout, fields: map<string, Variable>, size: string -> nat, base: Word,
                               i: nat, f: string, v: Value)
  {
    && f in fields && fields[f].kind.Plain? && !fields[f].kind.elem.StringUnit?
    && var slot := StructSlot(base, i, ElementSize(layout, fields, size), layout.Rel(fields[f].cell));
       Encodes(fields[f].kind.elem, v, Bytes.Field(SlotWord(env.st(slot)), fields[f].kind.offset, Width(fields[f].kind.elem)))
  }

  lemma SameSlot(base: Word, i: nat, maxSlot: nat, elementSize: nat, field: Word)
    requires maxSlot + 1 == elementSize
    ensures ElementSlot(base, i, maxSlot, field) == StructSlot(base, i, elementSize, field)
  {}

  /** A struct slice handle on the data at base reads them, for elements whose stride is their size. */
  lemma StructRead(env: Env, layout: Layout, h: Handle, size: string -> nat, i: nat, f: string, v: Value)
    requires h.StructSliceValue? && StructStored(env, layout, h.fields, size, h.slotIndex, i, f, v)
    requires LaidOut(Slots(layout, h.fields), size)
    requires EndsInLastSlot(Slots(layout, h.fields), size, MaxSlot(layout, h.fields))
    requires i < TWO64 && Reaches(h.slotIndex, i, MaxSlot(layout, h.fields))
    ensures ReadField(env, layout, h, i, f) == Read(v)
  {
    var kind := h.fields[f].kind;
    StrideMeetsLayout(layout, h.fields, size);
    SameSlot(h.slotIndex, i, MaxSlot(layout, h.fields), ElementSize(layout, h.fields, size), layout.Rel(h.fields[f].cell));
    ElementField(env, layout, h, i, f);
    var word := SlotWord(env.st(FieldSlot(layout, h, i, f)));
    EncodedRead(kind.elem, word, kind.offset, v, Bytes.Field(word, kind.offset, Width(kind.elem)));
  }

  /** Slices of structs: the length is in the slot and the elements start at its hash. */
  lemma StructSliceRead(env: Env, layout: Layout, elem: Variable, p: Word, n: nat, size: string -> nat,
                        i: nat, f: string, v: Value)
    requires elem.kind.Struct? && SlotWord(env.st(p)) == n < TWO64
    requires StructStored(env, layout, elem.kind.fields, size, env.keccak(p), i, f, v)
    requires LaidOut(Slots(layout, elem.kind.fields), size)
    requires EndsInLastSlot(Slots(layout, elem.kind.fields), size, MaxSlot(layout, elem.kind.fields))
    requires i < TWO64 && Reaches(env.keccak(p), i, MaxSlot(layout, elem.kind.fields))
    ensures var h := ValueAt(env, layout, Slice(elem), p);
      h.StructSliceValue? && h.length == n && ReadField(env, layout, h, i, f) == Read(v)
  {
    ModExact(n, TWO64);
    StructRead(env, layout, ValueAt(env, layout, Slice(elem), p), size, i, f, v);
  }

  /** Fixed-size arrays of structs start in their own slot. */
  lemma StructArrayRead(env: Env, layout: Layout, elem: Variable, p: Word, n: nat, size: string -> nat,
                        i: nat, f: string, v: Value)
    requires elem.kind.Struct? && StructStored(env, layout, elem.kind.fields, size, p, i, f, v)
    requires LaidOut(Slots(layout, elem.kind.fields), size)
    requires EndsInLastSlot(Slots(layout, elem.kind.fields), size, MaxSlot(layout, elem.kind.fields))
    requires i < TWO64 && Reaches(p, i, MaxSlot(layout, elem.kind.fields))
    ensures var h := ValueAt(env, layout, Array(n, elem), p);
      h.StructSliceValue? && h.length == n && ReadField(env, layout, h, i, f) == Read(v)
  {
    StructRead(env, layout, ValueAt(env, layout, Array(n, elem), p), size, i, f, v);
  }

  // ---- mappings -----------------------------------------------------------------------

  /** The entry of a key is at the hash of the key's bytes followed by the 32 bytes of the mapping's slot. */
  lemma MappingEntry(env: Env, layout: Layout, h: Handle, key: string, k: seq<byte>, p: seq<byte>)
    requires h.MappingValue? && env.encode(h.keyTyp, key) == Encoded.Bytes(k)
    requires |p| == 32 && FromBytes(p) == h.base
    ensures KeyAt(env, layout, h, key) == ValueAt(env, layout, h.valueTyp.kind, env.hash(k + p))
  {
    ToFromBytes(p);
  }

  /** A plain value stored there reads back. */
  lemma MappingRead(env: Env, layout: Layout, h: Handle, key: string, k: seq<byte>, p: seq<byte>, v: Value)
    requires h.MappingValue? && env.encode(h.keyTyp, key) == Encoded.Bytes(k)
    requires |p| == 32 && FromBytes(p) == h.base
    requires h.valueTyp.kind.Plain? && !h.valueTyp.kind.elem.StringUnit?
    requires var elem, o := h.valueTyp.kind.elem, h.valueTyp.kind.offset;
      Encodes(elem, v, Bytes.Field(SlotWord(env.st(env.hash(k + p))), o, Width(elem)))
    ensures KeyAt(env, layout, h, key) == Read(v)
  {
    MappingEntry(env, layout, h, key, k, p);
    var elem, o, word := h.valueTyp.kind.elem, h.valueTyp.kind.offset, SlotWord(env.st(env.hash(k + p)));
    EncodedRead(elem, word, o, v, Bytes.Field(word, o, Width(elem)));
  }

  // ---- nested arrays --------------------------------------------------------------------

  /** An element of a slice of slices is not looked for: the value is that of the inner variable at the
      slot the layout gave it, whatever the outer slot. */
  lemma NestedSliceIgnoresSlot(env: Env, layout: Layout, elem: Variable, p: Word, q: Word)
    requires elem.kind.Slice?
    ensures ValueAt(env, layout, Slice(elem), p) == ValueAt(env, layout, Slice(elem), q)
         == ValueAt(env, layout, elem.kind, layout.Rel(elem.cell))
  {}
}
