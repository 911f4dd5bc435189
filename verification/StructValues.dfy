/** storage/utils: struct_value.go, the struct slices of slice_value.go, mapping_value.go and the
    dispatch of scan.go, over variables whose slot is shared by every handle that refers to them. */
module StructValues {
  import opened Bytes
  import opened SolidityScan
  import opened SliceValues

  /** The field of a Solidity variable that the handles overwrite. */
  class Cell {
    var slotIndex: Word

    constructor (slot: Word)
      ensures slotIndex == slot
    {
      slotIndex := slot;
    }
  }

  type ElementUnit = u: Unit | u.IntUnit? ==> u.width > 0 witness BoolUnit

  type ElementSlice = s: SliceValue | s.unit.IntUnit? ==> s.unit.width > 0 witness SliceValue(0, BoolUnit, 0)

  datatype KeyTyp = IntKey | UintKey | BytesKey | StringKey | AddressKey | OtherKey

  /** A pointer to a Solidity variable: the cell of its slot index, and what never changes. */
  datatype Variable = Variable(cell: Cell, kind: Kind)

  datatype Kind =
    | Plain(elem: ElementUnit, offset: nat)
    | Struct(fields: map<string, Variable>)
    | Mapping(keyTyp: KeyTyp, valueTyp: Variable)
    | Slice(unitTyp: Variable)
    | Array(unitLength: nat, unitTyp: Variable)

  /** What Value, Field, Index and Key return. */
  datatype Handle =
    | Nil
    | Panicked
    | Read(value: Value)
    | StructValue(base: Word, fields: map<string, Variable>)
    | MappingValue(base: Word, keyTyp: KeyTyp, valueTyp: Variable)
    | StructSliceValue(slotIndex: Word, fields: map<string, Variable>, length: nat)
    | PlainSlice(elements: ElementSlice)

  /** Storage, keccak-256 of a slot and of bytes, and the key encodings, which may panic. */
  datatype Env = Env(st: Storage, keccak: Hashing, hash: seq<byte> -> Word,
                     encode: (KeyTyp, string) -> Encoded)

  datatype Encoded = Bytes(bytes: seq<byte>) | NoEncoding

  /** Value of the types that are fields of one word. */
  function WordValue(elem: ElementUnit, word: Word, offset: nat): Value
    requires !elem.StringUnit?
  {
    match elem
    case UintUnit(w) => Number(UintAt(word, w, offset))
    case IntUnit(w) => Number(IntAt(word, w, offset))
    case BytesUnit(w) => Text(BytesAt(word, w, offset))
    case BoolUnit => Flag(BoolAt(word, offset))
    case AddressUnit => Account(AddressAt(word, offset))
  }

  function ReadPlain(env: Env, elem: ElementUnit, offset: nat, slot: Word): Value {
    if elem.StringUnit? then Text(StringAt(env.st, slot, env.keccak))
    else WordValue(elem, SlotWord(env.st(slot)), offset)
  }

  // ---- the shared cells ------------------------------------------------------

  /** The type tree built from a storage layout: the slots of struct fields (relative to the struct) and
      of array elements, and the cells of mapping values, which have no slot of their own. */
  datatype Layout = Layout(rel: map<Cell, Word>, units: set<Cell>, values: set<Cell>) {
    function Rel(c: Cell): Word {
      if c in rel then rel[c] else 0
    }

    ghost predicate Apart() {
      units <= rel.Keys && rel.Keys !! values
    }

    /** Every variable below one of this kind belongs to the tree. */
    ghost predicate Covers(kind: Kind) {
      match kind
      case Plain(_, _) => true
      case Struct(fields) => CoversFields(fields) && forall f :: f in fields ==> Covers(fields[f].kind)
      case Mapping(_, value) => value.cell in values && Covers(value.kind)
      case Slice(elem) => elem.cell in units && Covers(elem.kind)
      case Array(_, elem) => elem.cell in units && Covers(elem.kind)
    }

    ghost predicate CoversFields(fields: map<string, Variable>) {
      forall f :: f in fields ==> fields[f].cell in rel && fields[f].cell !in units
    }

    ghost predicate CoversHandle(h: Handle) {
      match h
      case StructValue(_, fields) => Covers(Struct(fields))
      case StructSliceValue(_, fields, _) => Covers(Struct(fields))
      case MappingValue(_, keyTyp, value) => Covers(Mapping(keyTyp, value))
      case _ => true
    }

    ghost predicate UnitsAtRest()
      reads units
    {
      forall c :: c in units ==> c.slotIndex == Rel(c)
    }

    /** Every cell of a field or an element holds the slot that the layout gave it. */
    ghost predicate AtRest()
      reads rel.Keys
    {
      forall c :: c in rel ==> c.slotIndex == rel[c]
    }
  }

  // ---- Value, Field, Index and Key as functions of the handle ----------------

  /** Value of a variable of this kind that lies at the slot. */
  function ValueAt(env: Env, layout: Layout, kind: Kind, slot: Word): Handle {
    match kind
    case Plain(elem, offset) => Read(ReadPlain(env, elem, offset, slot))
    case Struct(fields) => StructValue(slot, fields)
    case Mapping(keyTyp, value) => MappingValue(slot, keyTyp, value)
    case Slice(elem) =>
      (match elem.kind
       case Plain(u, _) => PlainSlice(SliceAt(env.st, slot, env.keccak, u))
       case Struct(fields) => StructSliceValue(env.keccak(slot), fields, SlotWord(env.st(slot)) % TWO64)
       case Slice(_) => ValueAt(env, layout, elem.kind, layout.Rel(elem.cell))
       case _ => Nil)
    case Array(n, elem) =>
      (match elem.kind
       case Plain(u, _) => PlainSlice(ArrayAt(slot, u, n))
       case Struct(fields) => StructSliceValue(slot, fields, n)
       case _ => Nil)
  }

  function FieldAt(env: Env, layout: Layout, h: Handle, name: string): Handle
    requires h.StructValue?
  {
    if name !in h.fields then Nil
    else ValueAt(env, layout, h.fields[name].kind, BigToHash(h.base + layout.Rel(h.fields[name].cell)))
  }

  function KeyAt(env: Env, layout: Layout, h: Handle, key: string): Handle
    requires h.MappingValue?
  {
    match env.encode(h.keyTyp, key)
    case NoEncoding => Panicked
    case Bytes(bs) => ValueAt(env, layout, h.valueTyp.kind, env.hash(bs + ToBytes(h.base, 32)))
  }

  /** The largest of the numbers, and 0 for none. */
  ghost function MaxOf(s: set<nat>): (m: nat)
    ensures m == 0 || m in s
    ensures forall x :: x in s ==> x <= m
  {
    if s == {} then 0 else
      var x :| x in s;
      var rest := MaxOf(s - {x});
      assert s == s - {x} + {x};
      if x > rest then x else rest
  }

  /** Slot().Big().Uint64() of every field. */
  function FieldSlots(layout: Layout, fields: map<string, Variable>): set<nat> {
    set f | f in fields :: layout.Rel(fields[f].cell) % TWO64
  }

  ghost function MaxSlot(layout: Layout, fields: map<string, Variable>): nat {
    MaxOf(FieldSlots(layout, fields))
  }

  /** int64(i) * int64(max + 1), in 64-bit arithmetic. */
  function Stride(i: nat, maxSlot: nat): int {
    ToInt64(ToInt64(i) * ToInt64((maxSlot + 1) % TWO64))
  }

  ghost function IndexAt(env: Env, layout: Layout, h: Handle, i: nat): Handle
    requires h.StructSliceValue? || h.PlainSlice?
  {
    match h
    case StructSliceValue(slot, fields, _) =>
      StructValue(BigToHash(slot + Stride(i, MaxSlot(layout, fields))), fields)
    case PlainSlice(s) => Read(s.Index(env.st, env.keccak, i))
  }

  lemma {:induction false} ValueCovered(env: Env, layout: Layout, kind: Kind, slot: Word)
    requires layout.Covers(kind)
    ensures layout.CoversHandle(ValueAt(env, layout, kind, slot))
    decreases kind
  {
    match kind
    case Slice(elem) => ValueCovered(env, layout, elem.kind, layout.Rel(elem.cell));
    case _ =>
  }

  // ---- the same on the shared cells ------------------------------------------

  /** The dispatch of Value, on the slot that the cell holds now. */
  method ValueOf(env: Env, ghost layout: Layout, v: Variable) returns (h: Handle)
    requires layout.Apart() && layout.Covers(v.kind) && layout.UnitsAtRest()
    ensures h == ValueAt(env, layout, v.kind, v.cell.slotIndex)
    decreases v
  {
    var slot := v.cell.slotIndex;
    match v.kind {
      case Plain(elem, offset) => h := Read(ReadPlain(env, elem, offset, slot));
      case Struct(fields) => h := StructValue(slot, fields);
      case Mapping(keyTyp, value) => h := MappingValue(slot, keyTyp, value);
      case Slice(elem) =>
        match elem.kind {
          case Plain(u, _) => h := PlainSlice(SliceAt(env.st, slot, env.keccak, u));
          case Struct(fields) => h := StructSliceValue(env.keccak(slot), fields, SlotWord(env.st(slot)) % TWO64);
          case Slice(_) => h := ValueOf(env, layout, elem);
          case _ => h := Nil;
        }
      case Array(n, elem) =>
        match elem.kind {
          case Plain(u, _) => h := PlainSlice(ArrayAt(slot, u, n));
          case Struct(fields) => h := StructSliceValue(slot, fields, n);
          case _ => h := Nil;
        }
    }
  }

  /** StructValue.Field: point the shared variable at the field, read, and point it back. */
  method Field(env: Env, ghost layout: Layout, h: Handle, name: string) returns (r: Handle)
    requires h.StructValue? && layout.CoversHandle(h) && layout.Apart() && layout.AtRest()
    modifies layout.rel.Keys
    ensures r == FieldAt(env, layout, h, name)
    ensures layout.AtRest()
  {
    if name !in h.fields { return Nil; }
    var v := h.fields[name];
    var oldSlot := v.cell.slotIndex;
    v.cell.slotIndex := BigToHash(h.base + v.cell.slotIndex);
    r := ValueOf(env, layout, v);
    v.cell.slotIndex := oldSlot;
  }

  /** MappingValue.Key: point the shared value variable at the entry and leave it there. */
  method Key(env: Env, ghost layout: Layout, h: Handle, key: string) returns (r: Handle)
    requires h.MappingValue? && layout.CoversHandle(h) && layout.Apart() && layout.AtRest()
    modifies layout.values
    ensures r == KeyAt(env, layout, h, key)
    ensures layout.AtRest()
  {
    match env.encode(h.keyTyp, key) {
      case NoEncoding => r := Panicked;
      case Bytes(bs) =>
        h.valueTyp.cell.slotIndex := env.hash(bs + ToBytes(h.base, 32));
        r := ValueOf(env, layout, h.valueTyp);
    }
  }

  /** StructSliceValue.maxSlotCount; the count it stores in its receiver is lost, as the receiver is a copy. */
  method MaxSlotCount(ghost layout: Layout, fields: map<string, Variable>) returns (max: nat)
    requires layout.Covers(Struct(fields)) && layout.AtRest()
    ensures max == MaxSlot(layout, fields)
  {
    max := 0;
    var remaining := fields.Keys;
    while remaining != {}
      invariant remaining <= fields.Keys
      invariant max == 0 || max in FieldSlots(layout, fields)
      invariant forall f :: f in fields && f !in remaining ==> layout.Rel(fields[f].cell) % TWO64 <= max
      decreases |remaining|
    {
      var f :| f in remaining;
      var slot := fields[f].cell.slotIndex % TWO64;
      assert slot == layout.Rel(fields[f].cell) % TWO64;
      if slot > max { max := slot; }
      remaining := remaining - {f};
    }
  }

  /** Index of a struct slice or of a slice of plain elements. */
  method Index(env: Env, ghost layout: Layout, h: Handle, i: nat) returns (r: Handle)
    requires h.StructSliceValue? || h.PlainSlice?
    requires layout.CoversHandle(h) && layout.AtRest()
    ensures r == IndexAt(env, layout, h, i)
  {
    match h {
      case StructSliceValue(slot, fields, _) =>
        var max := MaxSlotCount(layout, fields);
        r := StructValue(BigToHash(slot + Stride(i, max)), fields);
      case PlainSlice(s) =>
        r := Read(s.Index(env.st, env.keccak, i));
    }
  }

  // ---- sessions --------------------------------------------------------------

  /** A call on one of the handles obtained so far. */
  datatype Call = FieldCall(target: nat, name: string) | IndexCall(target: nat, i: nat) | KeyCall(target: nat, key: string)

  /** What the call returns, as a function of its own handle; Nil for a call that the handle does not have. */
  ghost function Answer(env: Env, layout: Layout, h: Handle, call: Call): Handle {
    match call
    case FieldCall(_, name) => if h.StructValue? then FieldAt(env, layout, h, name) else Nil
    case IndexCall(_, i) => if h.StructSliceValue? || h.PlainSlice? then IndexAt(env, layout, h, i) else Nil
    case KeyCall(_, key) => if h.MappingValue? then KeyAt(env, layout, h, key) else Nil
  }

  lemma AnswerCovered(env: Env, layout: Layout, h: Handle, call: Call)
    requires layout.CoversHandle(h)
    ensures layout.CoversHandle(Answer(env, layout, h, call))
  {
    match call {
      case FieldCall(_, name) =>
        if h.StructValue? && name in h.fields {
          ValueCovered(env, layout, h.fields[name].kind, BigToHash(h.base + layout.Rel(h.fields[name].cell)));
        }
      case IndexCall(_, i) =>
      case KeyCall(_, key) =>
        if h.MappingValue? && env.encode(h.keyTyp, key).Bytes? {
          ValueCovered(env, layout, h.valueTyp.kind, env.hash(env.encode(h.keyTyp, key).bytes + ToBytes(h.base, 32)));
        }
    }
  }

  method Perform(env: Env, ghost layout: Layout, h: Handle, call: Call) returns (r: Handle)
    requires layout.Apart() && layout.AtRest() && layout.CoversHandle(h)
    modifies layout.rel.Keys, layout.values
    ensures r == Answer(env, layout, h, call) && layout.AtRest()
  {
    r := Nil;
    match call {
      case FieldCall(_, name) => if h.StructValue? { r := Field(env, layout, h, name); }
      case IndexCall(_, i) => if h.StructSliceValue? || h.PlainSlice? { r := Index(env, layout, h, i); }
      case KeyCall(_, key) => if h.MappingValue? { r := Key(env, layout, h, key); }
    }
  }

  /** Any sequence of calls, each on a handle obtained before: every answer is a function of that handle
      alone, whatever was called in between, and every field is back at its slot. */
  method Session(env: Env, ghost layout: Layout, start: seq<Handle>, calls: seq<Call>) returns (handles: seq<Handle>)
    requires layout.Apart() && layout.AtRest()
    requires forall h :: h in start ==> layout.CoversHandle(h)
    requires forall j :: 0 <= j < |calls| ==> calls[j].target < |start| + j
    modifies layout.rel.Keys, layout.values
    ensures layout.AtRest()
    ensures |handles| == |start| + |calls| && handles[..|start|] == start
    ensures forall j :: 0 <= j < |calls| ==>
      handles[|start| + j] == Answer(env, layout, handles[calls[j].target], calls[j])
  {
    handles := start;
    var j := 0;
    while j < |calls|
      invariant 0 <= j <= |calls| && |handles| == |start| + j && handles[..|start|] == start
      invariant layout.AtRest()
      invariant forall h :: h in handles ==> layout.CoversHandle(h)
      invariant forall k :: 0 <= k < j ==>
        handles[|start| + k] == Answer(env, layout, handles[calls[k].target], calls[k])
    {
      var h := handles[calls[j].target];
      var r := Perform(env, layout, h, calls[j]);
      AnswerCovered(env, layout, h, calls[j]);
      handles := handles + [r];
      j := j + 1;
    }
  }

  // ---- the stride --------------------------------------------------------------

  /** The slots of the fields as the storage layout numbers them, which fit 64 bits. */
  function Slots(layout: Layout, fields: map<string, Variable>): map<string, nat> {
    map f | f in fields :: layout.Rel(fields[f].cell)
  }

  /** The compiler lays fields out in order: a later slot is past the slots of every earlier field. */
  predicate LaidOut(slots: map<string, nat>, size: string -> nat) {
    && (forall f :: f in slots ==> size(f) >= 1 && slots[f] < TWO64)
    && forall f, g :: f in slots && g in slots && slots[f] < slots[g] ==> slots[f] + size(f) <= slots[g]
  }

  function Ends(slots: map<string, nat>, size: string -> nat): set<nat> {
    set f | f in slots :: slots[f] + size(f)
  }

  predicate EndsInLastSlot(slots: map<string, nat>, size: string -> nat, max: nat) {
    forall f :: f in slots && slots[f] == max ==> size(f) == 1
  }

  /** The stride max + 1 is the number of slots of an element exactly when no field in the last used
      slot continues past it (as a fixed-size array or a struct of several slots does). */
  lemma StrideMeetsLayout(layout: Layout, fields: map<string, Variable>, size: string -> nat)
    requires fields != map[] && LaidOut(Slots(layout, fields), size)
    ensures MaxSlot(layout, fields) + 1 == MaxOf(Ends(Slots(layout, fields), size))
       <==> EndsInLastSlot(Slots(layout, fields), size, MaxSlot(layout, fields))
  {
    var last := LastField(layout, fields);
    StrideOfSlots(Slots(layout, fields), size, MaxSlot(layout, fields), last);
  }

  /** A struct whose only field is an array of two words takes two slots, but its elements are read one
      slot apart. */
  lemma StrideTooShort(cell: Cell, elem: Variable, layout: Layout)
    requires layout.Rel(cell) == 0 && elem.kind == Plain(UintUnit(256), 0)
    ensures var fields := map["pair" := Variable(cell, Array(2, elem))];
      MaxSlot(layout, fields) + 1 == 1 && MaxOf(Ends(Slots(layout, fields), (f: string) => 2)) == 2
  {
    var fields := map["pair" := Variable(cell, Array(2, elem))];
    var slots, ends := FieldSlots(layout, fields), Ends(Slots(layout, fields), (f: string) => 2);
    assert "pair" in fields && layout.Rel(fields["pair"].cell) % TWO64 == 0;
    assert slots == {0};
    assert "pair" in Slots(layout, fields);
    assert ends == {2};
  }

  lemma StrideOfSlots(slots: map<string, nat>, size: string -> nat, max: nat, last: string)
    requires LaidOut(slots, size) && last in slots && slots[last] == max
    requires forall f :: f in slots ==> slots[f] <= max
    ensures max + 1 == MaxOf(Ends(slots, size)) <==> EndsInLastSlot(slots, size, max)
  {
    if EndsInLastSlot(slots, size, max) {
      EndsAtLast(slots, size, max, last);
    } else {
      var f :| f in slots && slots[f] == max && size(f) != 1;
      assert slots[f] + size(f) in Ends(slots, size);
    }
  }

  lemma EndsAtLast(slots: map<string, nat>, size: string -> nat, max: nat, last: string)
    requires LaidOut(slots, size) && last in slots && slots[last] == max
    requires forall f :: f in slots ==> slots[f] <= max
    requires EndsInLastSlot(slots, size, max)
    ensures MaxOf(Ends(slots, size)) == max + 1
  {
    assert slots[last] + size(last) in Ends(slots, size);
    forall e | e in Ends(slots, size)
      ensures e <= max + 1
    {
      var f :| f in slots && e == slots[f] + size(f);
      assert slots[f] < slots[last] || slots[f] == max;
    }
  }

  lemma LastField(layout: Layout, fields: map<string, Variable>) returns (last: string)
    requires fields != map[] && forall f :: f in Slots(layout, fields) ==> Slots(layout, fields)[f] < TWO64
    ensures last in fields && Slots(layout, fields)[last] == MaxSlot(layout, fields)
    ensures forall f :: f in fields ==> Slots(layout, fields)[f] <= MaxSlot(layout, fields)
  {
    var slots, taken, max := Slots(layout, fields), FieldSlots(layout, fields), MaxSlot(layout, fields);
    forall f | f in slots
      ensures slots[f] in taken && slots[f] <= max
    {
      ModExact(slots[f], TWO64);
      assert layout.Rel(fields[f].cell) % TWO64 in taken;
    }
    var any :| any in slots;
    assert max in taken;
    last :| last in fields && layout.Rel(fields[last].cell) % TWO64 == max;
    ModExact(slots[last], TWO64);
  }
}
