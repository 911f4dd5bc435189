/** storage/utils: where Index and Field of struct slices read, and what they read back. */
module StructFields {
  import opened Bytes
  import opened SolidityScan
  import opened SliceValues
  import opened StructValues

  // ---- the slot ----------------------------------------------------------------

  function Span(i: nat, maxSlot: nat): (n: nat)
  {
    MulPos(i, maxSlot + 1);
    i * (maxSlot + 1)
  }

  /** The slot of a field of element i with this stride; slot numbers are modulo 2^256. */
  function ElementSlot(base: Word, i: nat, maxSlot: nat, field: Word): Word {
    (base + Span(i, maxSlot) + field) % TWO256
  }

  /** Where Field of Index looks. */
  function FoundSlot(base: Word, i: nat, maxSlot: nat, field: Word): Word {
    BigToHash(BigToHash(base + Stride(i, maxSlot)) + field)
  }

  /** The 64-bit product does not wrap, or wraps to -2^63 on a base of 0. */
  predicate Reaches(base: Word, i: nat, maxSlot: nat) {
    Span(i, maxSlot) < TWO63 || (base == 0 && Span(i, maxSlot) == TWO63)
  }

  lemma SameLow(x: int, k: int)
    ensures ToInt64(x + k * TWO64) == ToInt64(x)
  {
    DivModFacts(x, TWO64);
    DivModUnique(x + k * TWO64, TWO64, x / TWO64 + k, x % TWO64);
  }

  /** x is its signed 64-bit reading plus a multiple of 2^64. */
  lemma LowPart(x: int) returns (k: int)
    ensures x == ToInt64(x) + k * TWO64
  {
    DivModFacts(x, TWO64);
    k := if x % TWO64 >= TWO63 then x / TWO64 + 1 else x / TWO64;
  }

  lemma ProductLow(a: int, b: int)
    ensures ToInt64(ToInt64(a) * ToInt64(b)) == ToInt64(a * b)
  {
    var k := LowPart(a);
    var l := LowPart(b);
    var x, y := ToInt64(a), ToInt64(b);
    ProductSplit(x, y, k, l);
    SameLow(x * y, x * l + k * b);
  }

  lemma ProductSplit(x: int, y: int, k: int, l: int)
    ensures (x + k * TWO64) * (y + l * TWO64) == x * y + (x * l + k * (y + l * TWO64)) * TWO64
  {
    var b := y + l * TWO64;
    MulDist(x, -(k * TWO64), b);
    MulAssoc(k, TWO64, b);
    MulAssoc(k, b, TWO64);
    MulDist(x * l, -(k * b), TWO64);
    MulAssoc(x, l, TWO64);
    SplitRight(x, y, l * TWO64);
  }

  lemma SplitRight(x: int, y: int, z: int)
    ensures x * (y + z) == x * y + x * z
  {}

  lemma StrideIsLow(i: nat, maxSlot: nat)
    ensures Stride(i, maxSlot) == ToInt64(Span(i, maxSlot))
  {
    var n := maxSlot + 1;
    DivModFacts(n, TWO64);
    SameLow(n % TWO64, n / TWO64);
    ProductLow(i, n);
  }

  lemma SpanBound(i: nat, maxSlot: nat)
    requires i < TWO64 && maxSlot < TWO64
    ensures Span(i, maxSlot) <= TWO64 * TWO64
  {
    var n := maxSlot + 1;
    MulDist(TWO64, i, n);
    MulPos(TWO64 - i, n);
    MulDist(TWO64, n, TWO64);
    MulPos(TWO64 - n, TWO64);
  }

  lemma ModApart(x: nat, d: nat)
    requires d < TWO256
    ensures (x + d) % TWO256 == x % TWO256 <==> d == 0
  {
    if d > 0 && (x + d) % TWO256 == x % TWO256 {
      DivModFacts(x, TWO256);
      DivModFacts(x + d, TWO256);
      MulDist((x + d) / TWO256, x / TWO256, TWO256);
      MulPos((x + d) / TWO256 - x / TWO256, TWO256);
      assert false;
    }
  }

  lemma ModTwice(x: nat, y: nat)
    ensures (x % TWO256 + y) % TWO256 == (x + y) % TWO256
  {
    DivModFacts(x, TWO256);
    DivModFacts(x + y, TWO256);
    DivModUnique(x % TWO256 + y, TWO256, (x + y) / TWO256 - x / TWO256, (x + y) % TWO256);
  }

  /** The signed reading of a number below 2^128, and when it is the number or its negative. */
  lemma LowFacts(p: nat)
    requires p <= TWO64 * TWO64
    ensures ToInt64(p) <= p && (ToInt64(p) == p <==> p < TWO63)
    ensures ToInt64(p) < 0 ==> p >= TWO63 && (p == -ToInt64(p) <==> p == TWO63)
  {
    var k := LowPart(p);
  }

  lemma FoundForward(b: nat, f: nat, p: nat, s: int)
    requires b + s >= 0 && -TWO63 <= s <= p <= TWO64 * TWO64
    ensures BigToHash(BigToHash(b + s) + f) == (b + p + f) % TWO256 <==> p == s
  {
    ModTwice(b + s, f);
    ModApart(b + s + f, p - s);
  }

  /** A negative sum is read as its magnitude. */
  lemma FoundBackward(b: nat, f: nat, p: nat, s: int)
    requires b + s < 0 && -TWO63 <= s && TWO63 <= p <= TWO64 * TWO64
    ensures BigToHash(BigToHash(b + s) + f) == (b + p + f) % TWO256 <==> b == 0 && p == -s
  {
    ModTwice(-(b + s), f);
    ModApart(-(b + s) + f, 2 * b + p + s);
  }

  /** Index and Field look at the layout's slot exactly when the product does not wrap, or wraps to
      -2^63 on a base of 0. */
  lemma FoundIsLayout(base: Word, i: nat, maxSlot: nat, field: Word)
    requires i < TWO64 && maxSlot < TWO64
    ensures FoundSlot(base, i, maxSlot, field) == ElementSlot(base, i, maxSlot, field) <==> Reaches(base, i, maxSlot)
  {
    var p := Span(i, maxSlot);
    StrideIsLow(i, maxSlot);
    SpanBound(i, maxSlot);
    LowFacts(p);
    if base + ToInt64(p) >= 0 {
      FoundForward(base, field, p, ToInt64(p));
    } else {
      FoundBackward(base, field, p, ToInt64(p));
    }
  }

  /** Element 2^62 of two-slot elements at base 1 is looked for elsewhere. */
  lemma IndexWraps()
    ensures FoundSlot(1, 0x4000_0000_0000_0000, 1, 0) != ElementSlot(1, 0x4000_0000_0000_0000, 1, 0)
  {
    FoundIsLayout(1, 0x4000_0000_0000_0000, 1, 0);
  }

  /** Fields with different slots, or of different elements, lie in different slots. */
  lemma ElementsApart(base: Word, i: nat, j: nat, maxSlot: nat, f: Word, g: Word)
    requires f <= maxSlot < TWO64 && g <= maxSlot && Reaches(base, i, maxSlot) && Reaches(base, j, maxSlot)
    ensures ElementSlot(base, i, maxSlot, f) == ElementSlot(base, j, maxSlot, g) <==> i == j && f == g
  {
    var stride := maxSlot + 1;
    var a, b := Span(i, maxSlot) + f, Span(j, maxSlot) + g;
    DivModUnique(a, stride, i, f);
    DivModUnique(b, stride, j, g);
    if a <= b { ModApart(base + a, b - a); } else { ModApart(base + b, a - b); }
  }

  // ---- fields of struct slices --------------------------------------------------

  ghost function ReadField(env: Env, layout: Layout, h: Handle, i: nat, name: string): Handle
    requires h.StructSliceValue?
  {
    FieldAt(env, layout, IndexAt(env, layout, h, i), name)
  }

  ghost function FieldSlot(layout: Layout, h: Handle, i: nat, name: string): Word
    requires h.StructSliceValue? && name in h.fields
  {
    ElementSlot(h.slotIndex, i, MaxSlot(layout, h.fields), layout.Rel(h.fields[name].cell))
  }

  lemma FieldFound(env: Env, layout: Layout, h: Handle, i: nat, name: string)
    requires h.StructSliceValue? && name in h.fields
    ensures ReadField(env, layout, h, i, name)
         == ValueAt(env, layout, h.fields[name].kind,
              FoundSlot(h.slotIndex, i, MaxSlot(layout, h.fields), layout.Rel(h.fields[name].cell)))
  {}

  lemma MaxSlotBound(layout: Layout, fields: map<string, Variable>)
    ensures MaxSlot(layout, fields) < TWO64
  {}

  /** Field f of element i is read at base + i * (max + 1) + slot of f, modulo 2^256, wherever Index
      reaches. */
  lemma ElementField(env: Env, layout: Layout, h: Handle, i: nat, name: string)
    requires h.StructSliceValue? && name in h.fields
    requires i < TWO64 && Reaches(h.slotIndex, i, MaxSlot(layout, h.fields))
    ensures ReadField(env, layout, h, i, name)
         == ValueAt(env, layout, h.fields[name].kind, FieldSlot(layout, h, i, name))
  {
    FieldFound(env, layout, h, i, name);
    MaxSlotBound(layout, h.fields);
    FoundIsLayout(h.slotIndex, i, MaxSlot(layout, h.fields), layout.Rel(h.fields[name].cell));
  }

  // ---- values and their bits -----------------------------------------------------

  function Width(elem: ElementUnit): nat {
    match elem
    case UintUnit(w) => w
    case IntUnit(w) => w
    case BytesUnit(w) => w
    case BoolUnit => 8
    case AddressUnit => 160
    case StringUnit => 256
  }

  /** x is how the compiler stores v in a field of this type, and v is a value the decoder can give. */
  ghost predicate Encodes(elem: ElementUnit, v: Value, x: nat) {
    && x < Pow2(Width(elem))
    && match elem
       case UintUnit(_) => v == Number(x)
       case IntUnit(w) =>
         && v.Number? && w % 8 == 0 && w <= 256 && SolidityScan.Fits(v.n, w)
         && -TWO63 <= v.n < TWO64 && x == v.n % Pow2(w)
       case BytesUnit(w) =>
         && v.Text? && 8 * |v.s| <= w && w % 8 == 0 && TrimRight(v.s) == v.s && (v.s == [] || v.s[0] != 0)
         && x == FromBytes(v.s + Zeros(w / 8 - |v.s|))
       case BoolUnit => v.Flag? && x == if v.b then 1 else 0
       case AddressUnit => v == Account(x)
       case StringUnit => false
  }

  lemma EncodedBytes(word: Word, w: nat, o: nat, s: seq<byte>)
    requires w % 8 == 0 && 8 * |s| <= w && TrimRight(s) == s && (s == [] || s[0] != 0)
    requires Bytes.Field(word, o, w) == FromBytes(s + Zeros(w / 8 - |s|))
    ensures BytesAt(word, w, o) == s
  {
    var b := s + Zeros(w / 8 - |s|);
    MinBytesOfFromBytes(b);
    TrimPadded(s, w / 8 - |s|);
    if |b| > 0 { TrimmedHeads(b); }
  }

  /** Decoding a field that holds an encoded value gives the value. */
  lemma EncodedRead(elem: ElementUnit, word: Word, o: nat, v: Value, x: nat)
    requires Encodes(elem, v, x) && Bytes.Field(word, o, Width(elem)) == x
    ensures WordValue(elem, word, o) == v
  {
    match elem {
      case IntUnit(w) => IntDecoded(word, w, o, v.n);
      case BytesUnit(w) => EncodedBytes(word, w, o, v.s);
      case BoolUnit => ByteField(word, o, 8);
      case _ =>
    }
  }

  /** Decoding depends on the bits of the field only. */
  lemma SameField(elem: ElementUnit, word: Word, word': Word, o: nat)
    requires !elem.StringUnit? && Bytes.Field(word, o, Width(elem)) == Bytes.Field(word', o, Width(elem))
    ensures WordValue(elem, word, o) == WordValue(elem, word', o)
  {
    match elem {
      case IntUnit(w) => IntOfField(word, word', o, w);
      case _ =>
    }
  }

  // ---- round trips through the handles --------------------------------------------

  /** A plain field, where Index reaches. */
  ghost predicate PlainField(layout: Layout, h: Handle, i: nat, name: string) {
    && h.StructSliceValue? && name in h.fields && h.fields[name].kind.Plain?
    && (!Elem(h, name).StringUnit? ==> Offset(h, name) + Width(Elem(h, name)) <= 256)
    && layout.Rel(h.fields[name].cell) <= MaxSlot(layout, h.fields)
    && i < TWO64 && Reaches(h.slotIndex, i, MaxSlot(layout, h.fields))
  }

  function Elem(h: Handle, name: string): ElementUnit
    requires h.StructSliceValue? && name in h.fields && h.fields[name].kind.Plain?
  {
    h.fields[name].kind.elem
  }

  function Offset(h: Handle, name: string): nat
    requires h.StructSliceValue? && name in h.fields && h.fields[name].kind.Plain?
  {
    h.fields[name].kind.offset
  }

  lemma PlainRead(env: Env, layout: Layout, h: Handle, i: nat, name: string)
    requires PlainField(layout, h, i, name)
    ensures ReadField(env, layout, h, i, name)
         == Read(ReadPlain(env, Elem(h, name), Offset(h, name), FieldSlot(layout, h, i, name)))
  {
    ElementField(env, layout, h, i, name);
  }

  /** The field of the other name or element does not depend on the bits written: it is a string that
      is read from other slots, or it lies in another element, slot or range of bits. */
  ghost predicate Untouched(env: Env, layout: Layout, h: Handle, i: nat, f: string, j: nat, g: string)
    requires PlainField(layout, h, i, f) && PlainField(layout, h, j, g)
  {
    if Elem(h, g).StringUnit? then
      !StringReads(env.st, env.keccak, FieldSlot(layout, h, j, g), FieldSlot(layout, h, i, f))
    else
      || i != j || layout.Rel(h.fields[f].cell) != layout.Rel(h.fields[g].cell)
      || Offset(h, f) + Width(Elem(h, f)) <= Offset(h, g) || Offset(h, g) + Width(Elem(h, g)) <= Offset(h, f)
  }

  lemma BitsUntouched(env: Env, env': Env, elem: ElementUnit, slot: Word, o: nat, w: nat, x: nat, slot2: Word, o2: nat)
    requires o + w <= 256 && x < Pow2(w) && env' == env.(st := WriteBits(env.st, slot, o, w, x))
    requires if elem.StringUnit? then !StringReads(env.st, env.keccak, slot2, slot)
             else slot != slot2 || o + w <= o2 || o2 + Width(elem) <= o
    ensures ReadPlain(env', elem, o2, slot2) == ReadPlain(env, elem, o2, slot2)
  {
    if elem.StringUnit? {
      StringLocal(env.st, env'.st, env.keccak, slot2);
    } else if slot == slot2 {
      WriteBitsWord(env.st, slot, o, w, x);
      FieldOfPut(SlotWord(env.st(slot)), o, w, x, o2, Width(elem));
      SameField(elem, SlotWord(env'.st(slot)), SlotWord(env.st(slot)), o2);
    }
  }

  /** Round trip through the handles: after writing a value into one field of one element, that field
      of that element reads the value, and every field it does not touch reads as before. */
  lemma FieldRoundTrip(env: Env, layout: Layout, h: Handle, i: nat, f: string, v: Value, x: nat, j: nat, g: string)
    requires PlainField(layout, h, i, f) && PlainField(layout, h, j, g)
    requires !Elem(h, f).StringUnit? && Encodes(Elem(h, f), v, x)
    ensures var env' := env.(st := WriteBits(env.st, FieldSlot(layout, h, i, f), Offset(h, f), Width(Elem(h, f)), x));
      && ReadField(env', layout, h, i, f) == Read(v)
      && (Untouched(env, layout, h, i, f, j, g) ==> ReadField(env', layout, h, j, g) == ReadField(env, layout, h, j, g))
  {
    var slot, slot2 := FieldSlot(layout, h, i, f), FieldSlot(layout, h, j, g);
    var o, w := Offset(h, f), Width(Elem(h, f));
    var env' := env.(st := WriteBits(env.st, slot, o, w, x));
    PlainRead(env', layout, h, i, f);
    PlainRead(env', layout, h, j, g);
    PlainRead(env, layout, h, j, g);
    WriteBitsWord(env.st, slot, o, w, x);
    FieldOfPut(SlotWord(env.st(slot)), o, w, x, 0, 0);
    EncodedRead(Elem(h, f), SlotWord(env'.st(slot)), o, v, x);
    if Untouched(env, layout, h, i, f, j, g) {
      MaxSlotBound(layout, h.fields);
      ElementsApart(h.slotIndex, i, j, MaxSlot(layout, h.fields), layout.Rel(h.fields[f].cell), layout.Rel(h.fields[g].cell));
      BitsUntouched(env, env', Elem(h, g), slot, o, w, x, slot2, Offset(h, g));
    }
  }

  /** The slots a plain field is read from. */
  ghost predicate ReadsSlot(env: Env, layout: Layout, h: Handle, i: nat, name: string, slot: Word)
    requires PlainField(layout, h, i, name)
  {
    if Elem(h, name).StringUnit? then StringReads(env.st, env.keccak, FieldSlot(layout, h, i, name), slot)
    else slot == FieldSlot(layout, h, i, name)
  }

  lemma ReadLocal(env: Env, env': Env, layout: Layout, h: Handle, i: nat, name: string)
    requires PlainField(layout, h, i, name) && env' == env.(st := env'.st)
    requires forall slot :: ReadsSlot(env, layout, h, i, name, slot) ==> env.st(slot) == env'.st(slot)
    ensures ReadField(env', layout, h, i, name) == ReadField(env, layout, h, i, name)
  {
    PlainRead(env, layout, h, i, name);
    PlainRead(env', layout, h, i, name);
    var p := FieldSlot(layout, h, i, name);
    if Elem(h, name).StringUnit? {
      forall slot | StringReads(env.st, env.keccak, p, slot)
        ensures env.st(slot) == env'.st(slot)
      {
        assert ReadsSlot(env, layout, h, i, name, slot);
      }
      StringLocal(env.st, env'.st, env.keccak, p);
    } else {
      assert ReadsSlot(env, layout, h, i, name, p);
    }
  }

  /** The same for a string field: it reads back exactly when it is recoverable, and a field that is
      not read from a slot the string was written to reads as before. */
  lemma StringFieldRoundTrip(env: Env, layout: Layout, h: Handle, i: nat, f: string, s: seq<byte>, j: nat, g: string)
    requires PlainField(layout, h, i, f) && PlainField(layout, h, j, g) && Elem(h, f).StringUnit?
    requires |s| < TWO63 && HeaderOutsideData(FieldSlot(layout, h, i, f), env.keccak(FieldSlot(layout, h, i, f)), s)
    ensures var p := FieldSlot(layout, h, i, f);
      var env' := env.(st := WriteString(env.st, p, env.keccak, s));
      && (ReadField(env', layout, h, i, f) == Read(Text(s)) <==> Recoverable(s))
      && ((forall slot :: ReadsSlot(env, layout, h, j, g, slot) ==> !StringWrites(env.keccak, p, s, slot)) ==>
            ReadField(env', layout, h, j, g) == ReadField(env, layout, h, j, g))
  {
    var p := FieldSlot(layout, h, i, f);
    var env' := env.(st := WriteString(env.st, p, env.keccak, s));
    PlainRead(env', layout, h, i, f);
    StringRoundTrip(env.st, p, env.keccak, s);
    if forall slot :: ReadsSlot(env, layout, h, j, g, slot) ==> !StringWrites(env.keccak, p, s, slot) {
      forall slot | ReadsSlot(env, layout, h, j, g, slot)
        ensures env.st(slot) == env'.st(slot)
      {
        WritesElsewhere(env.st, env.keccak, p, s, slot);
      }
      ReadLocal(env, env', layout, h, j, g);
    }
  }
}
