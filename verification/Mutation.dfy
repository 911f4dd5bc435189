/** tracing/mutation/mutation_manager.go: step mutations of storage values and of input bytes. */
module Mutation {
  import opened Common
  import opened Bytes
  import opened Buffers

  datatype MutationConfig = MutationConfig(
    inputSteps: seq<int>, storageSteps: seq<int>, byteSteps: seq<int>, maxMutations: nat)
  {
    /** What the indexing and the remainders of the source need: no empty step list, no zero limit. */
    predicate Usable() {
      && |inputSteps| > 0 && |storageSteps| > 0 && |byteSteps| > 0 && maxMutations > 0
      && (forall i :: 0 <= i < |inputSteps| ==> -TWO63 <= inputSteps[i] < TWO63)
      && (forall i :: 0 <= i < |storageSteps| ==> -TWO63 <= storageSteps[i] < TWO63)
    }

    function StorageStep(variant: nat): int
      requires Usable()
    {
      storageSteps[variant % |storageSteps|]
    }

    function InputStep(variant: nat): int
      requires Usable()
    {
      inputSteps[variant % |inputSteps|]
    }

    function ByteStep(variant: nat): int
      requires Usable()
    {
      byteSteps[variant % |byteSteps|]
    }
  }

  const DEFAULT_CONFIG := MutationConfig(
    [10, 100, 1000, -10, -100, -1000, 1, -1, 50, -50],
    [1, 10, 100, 1000, -1, -10, -100, -1000, 5, -5],
    [1, 2, 5, 10, -1, -2, -5, -10], 3)

  predicate StepsNonZero(cfg: MutationConfig) {
    forall i :: 0 <= i < |cfg.storageSteps| ==> cfg.storageSteps[i] != 0
  }

  lemma DefaultUsable()
    ensures DEFAULT_CONFIG.Usable() && StepsNonZero(DEFAULT_CONFIG)
  {}

  lemma RemainderInTurn(i: nat, round: nat, n: nat)
    requires i < n
    ensures (i + round * n) % n == i
  {
    DivModUnique(i + round * n, n, round, i);
  }

  /** Each kind of step goes through its list in order, round after round of variants. */
  lemma StepsInTurn(cfg: MutationConfig, i: nat, round: nat)
    requires cfg.Usable()
    ensures i < |cfg.inputSteps| ==> cfg.InputStep(i + round * |cfg.inputSteps|) == cfg.inputSteps[i]
    ensures i < |cfg.storageSteps| ==> cfg.StorageStep(i + round * |cfg.storageSteps|) == cfg.storageSteps[i]
    ensures i < |cfg.byteSteps| ==> cfg.ByteStep(i + round * |cfg.byteSteps|) == cfg.byteSteps[i]
  {
    if i < |cfg.inputSteps| { RemainderInTurn(i, round, |cfg.inputSteps|); }
    if i < |cfg.storageSteps| { RemainderInTurn(i, round, |cfg.storageSteps|); }
    if i < |cfg.byteSteps| { RemainderInTurn(i, round, |cfg.byteSteps|); }
  }

  /** The default steps, round after round: powers of ten with their opposites, and smaller steps for bytes. */
  lemma DefaultSteps(k: nat, i: nat)
    requires i < 10
    ensures DEFAULT_CONFIG.Usable() && DEFAULT_CONFIG.maxMutations == 3
    ensures DEFAULT_CONFIG.InputStep(10 * k + i) == match i
      case 0 => 10 case 1 => 100 case 2 => 1000 case 3 => -10 case 4 => -100 case 5 => -1000
      case 6 => 1 case 7 => -1 case 8 => 50 case _ => -50
    ensures DEFAULT_CONFIG.StorageStep(10 * k + i) == match i
      case 0 => 1 case 1 => 10 case 2 => 100 case 3 => 1000 case 4 => -1 case 5 => -10 case 6 => -100 case 7 => -1000
      case 8 => 5 case _ => -5
    ensures i < 8 ==> DEFAULT_CONFIG.ByteStep(8 * k + i) == match i
      case 0 => 1 case 1 => 2 case 2 => 5 case 3 => 10 case 4 => -1 case 5 => -2 case 6 => -5 case _ => -10
  {
    DefaultUsable();
    StepsInTurn(DEFAULT_CONFIG, i, k);
  }

  // ---- storage values --------------------------------------------------------

  const MODULUS: int := TWO256 - 1

  function Delta(step: int, variant: nat): int {
    if variant % 3 == 0 then step * (variant + 1) else step
  }

  /** GenerateStepBasedStorageValue: uint256.FromBig(2^256) is 0, so the maximum is 2^256 - 1. */
  function StorageValue(original: Word, step: int, variant: nat): Word {
    var sum := original + Delta(step, variant);
    var raised := if sum < 0 then sum + MODULUS else sum;
    var reduced := if Magnitude(raised) >= TWO256 then raised % MODULUS else raised;
    Magnitude(reduced) % TWO256
  }

  lemma DeltaBound(step: int, variant: nat)
    requires -TWO63 <= step < TWO63 && variant < TWO63 - 1
    ensures Magnitude(Delta(step, variant)) < MODULUS
    ensures Delta(step, variant) == 0 <==> step == 0
  {
    if variant % 3 == 0 {
      var n := variant + 1;
      MulPos(step, n);
      MulDist(TWO63, step, n);
      MulPos(TWO63 - step, n);
      MulDist(step, -TWO63, n);
      MulPos(step + TWO63, n);
      MulDist(TWO63, n, TWO63);
      MulPos(TWO63 - n, TWO63);
    }
  }

  /** The mutated value is the sum, taken modulo 2^256 - 1, and differs from the original exactly when
      the step is not zero. */
  lemma StorageValueMeaning(original: Word, step: int, variant: nat)
    requires -TWO63 <= step < TWO63 && variant < TWO63 - 1
    ensures (StorageValue(original, step, variant) - (original + Delta(step, variant))) % MODULUS == 0
    ensures StorageValue(original, step, variant) != original <==> step != 0
  {
    DeltaBound(step, variant);
    ReducedSum(original, Delta(step, variant));
  }

  function Reduced(original: Word, delta: int): int {
    var sum := original + delta;
    var raised := if sum < 0 then sum + MODULUS else sum;
    if Magnitude(raised) >= TWO256 then raised % MODULUS else raised
  }

  lemma ReducedSum(original: Word, delta: int)
    requires Magnitude(delta) < MODULUS
    ensures 0 <= Reduced(original, delta) < TWO256
    ensures Magnitude(Reduced(original, delta)) % TWO256 == Reduced(original, delta)
    ensures (Reduced(original, delta) - (original + delta)) % MODULUS == 0
    ensures Reduced(original, delta) == original <==> delta == 0
  {}

  function ChangedSlots(before: map<Word, Word>, after: map<Word, Word>): set<Word> {
    set k | k in before && k in after && after[k] != before[k]
  }

  function MutatedSlot(value: Word, step: int, variant: nat, limit: nat, j: nat): Word {
    if j < limit then StorageValue(value, step, variant + j) else value
  }

  /** The slots come in an arbitrary order; the first limit of them are mutated, each with its own variant. */
  predicate MutatedInOrder(storage: map<Word, Word>, changes: map<Word, Word>, order: seq<Word>, step: int,
                           variant: nat, limit: nat)
  {
    && Distinct(order) && Elements(order) == changes.Keys && changes.Keys <= storage.Keys
    && forall j :: 0 <= j < |order| ==>
         changes[order[j]] == MutatedSlot(storage[order[j]], step, variant, limit, j)
  }

  lemma MutatedNext(storage: map<Word, Word>, changes: map<Word, Word>, order: seq<Word>, step: int,
                    variant: nat, limit: nat, key: Word)
    requires MutatedInOrder(storage, changes, order, step, variant, limit)
    requires key in storage && key !in changes
    ensures MutatedInOrder(storage, changes[key := MutatedSlot(storage[key], step, variant, limit, |order|)],
              order + [key], step, variant, limit)
  {
    var order' := order + [key];
    assert Elements(order') == Elements(order) + {key};
    forall j | 0 <= j < |order|
      ensures order'[j] == order[j] && order[j] in changes && order[j] != key
    {
      assert order[j] in Elements(order);
    }
  }

  /** GenerateStepBasedStorageChanges, for any iteration order of the map. */
  method GenerateStorageChanges(cfg: MutationConfig, storage: map<Word, Word>, variant: nat)
    returns (changes: map<Word, Word>, ghost order: seq<Word>)
    requires cfg.Usable()
    ensures changes.Keys == storage.Keys
    ensures MutatedInOrder(storage, changes, order, cfg.StorageStep(variant), variant, variant % cfg.maxMutations + 1)
  {
    changes := map[];
    order := [];
    var step := cfg.StorageStep(variant);
    var keyIndex: nat := 0;
    var maxModifications: nat := variant % cfg.maxMutations + 1;
    var remaining := storage.Keys;
    while remaining != {}
      invariant remaining <= storage.Keys && changes.Keys == storage.Keys - remaining
      invariant |order| == keyIndex
      invariant MutatedInOrder(storage, changes, order, step, variant, maxModifications)
      decreases |remaining|
    {
      var key :| key in remaining;
      MutatedNext(storage, changes, order, step, variant, maxModifications, key);
      if keyIndex >= maxModifications {
        changes := changes[key := storage[key]];
      } else {
        changes := changes[key := StorageValue(storage[key], step, variant + keyIndex)];
      }
      order := order + [key];
      keyIndex := keyIndex + 1;
      remaining := remaining - {key};
    }
  }

  /** Exactly min(n, limit) slots change, unless the step is zero and none does. */
  lemma ChangedCount(storage: map<Word, Word>, changes: map<Word, Word>, order: seq<Word>, step: int,
                     variant: nat, limit: nat)
    requires MutatedInOrder(storage, changes, order, step, variant, limit)
    requires changes.Keys == storage.Keys
    requires -TWO63 <= step < TWO63 && variant + |order| < TWO63
    ensures |order| == |storage|
    ensures |ChangedSlots(storage, changes)| == if step == 0 then 0 else Min(|storage|, limit)
  {
    DistinctCount(order);
    assert |storage.Keys| == |storage|;
    var n := if step == 0 then 0 else Min(|order|, limit);
    DistinctCount(order[..n]);
    forall j | 0 <= j < |order|
      ensures order[j] in ChangedSlots(storage, changes) <==> j < n
    {
      if j < limit { StorageValueMeaning(storage[order[j]], step, variant + j); }
    }
    assert ChangedSlots(storage, changes) == Elements(order[..n]) by {
      forall k | k in ChangedSlots(storage, changes)
        ensures k in Elements(order[..n])
      {
        assert k in Elements(order);
        var j :| 0 <= j < |order| && order[j] == k;
        assert order[..n][j] == k;
      }
    }
  }

  // ---- input bytes -----------------------------------------------------------

  function Stepped(data: seq<byte>, offset: nat, byteStep: int): (r: seq<byte>)
    requires offset < |data|
    ensures |r| == |data|
  {
    data[offset := (data[offset] + byteStep) % 256]
  }

  /** The big-endian window of eight bytes moved by delta and cut to its low 64 bits. */
  function Moved(data: seq<byte>, offset: nat, delta: int): (r: seq<byte>)
    requires offset + 8 <= |data|
    ensures |r| == |data|
  {
    Overwrite(data, offset, ToBytes(Magnitude(FromBytes(data[offset..offset + 8]) + delta), 8))
  }

  /** One iteration: the byte step at the offset, then the window there, if it fits. */
  function MutateAt(data: seq<byte>, offset: nat, byteStep: int, delta: int): (r: seq<byte>)
    requires offset < |data|
    ensures |r| == |data|
  {
    var stepped := Stepped(data, offset, byteStep);
    if offset + 8 <= |data| then Moved(stepped, offset, delta) else stepped
  }

  function Offset(variant: nat, i: nat, n: nat): (r: nat)
    requires n > 0
    ensures r < n
  {
    (variant + i * 17) % n
  }

  function WindowDelta(step: int, variant: nat, i: nat): int {
    var d := ToInt64(step * (i + 1));
    if variant % 2 == 1 then -d else d
  }

  /** The first k iterations. */
  function MutateBytes(cfg: MutationConfig, data: seq<byte>, step: int, variant: nat, k: nat): (r: seq<byte>)
    requires cfg.Usable() && |data| > 0
    ensures |r| == |data|
  {
    if k == 0 then data
    else MutateAt(MutateBytes(cfg, data, step, variant, k - 1), Offset(variant, k - 1, |data|), cfg.ByteStep(variant),
           WindowDelta(step, variant, k - 1))
  }

  function Rounds(cfg: MutationConfig, variant: nat, n: nat): nat
    requires cfg.Usable()
  {
    Min(variant % cfg.maxMutations + 1, n)
  }

  /** From round to round of variants there are one, two and so on up to the limit many iterations, but
      not more than bytes. */
  lemma RoundsInTurn(cfg: MutationConfig, i: nat, k: nat, n: nat)
    requires cfg.Usable() && i < cfg.maxMutations
    ensures Rounds(cfg, i + k * cfg.maxMutations, n) == if i < n then i + 1 else n
  {
    RemainderInTurn(i, k, cfg.maxMutations);
  }

  /** The window after an iteration holds |W + delta| mod 2^64, with W read after the byte step. */
  lemma WindowValue(data: seq<byte>, offset: nat, byteStep: int, delta: int)
    requires offset + 8 <= |data|
    ensures var r := MutateAt(data, offset, byteStep, delta);
      var stepped := Stepped(data, offset, byteStep);
      && FromBytes(r[offset..offset + 8]) == Magnitude(FromBytes(stepped[offset..offset + 8]) + delta) % TWO64
      && r[..offset] == data[..offset] && r[offset + 8..] == data[offset + 8..]
  {
    var stepped := Stepped(data, offset, byteStep);
    var n := Magnitude(FromBytes(stepped[offset..offset + 8]) + delta);
    FromToBytes(n, 8);
    Pow2At(64);
    assert MutateAt(data, offset, byteStep, delta)[offset..offset + 8] == ToBytes(n, 8);
  }

  /** Round k, with its position and its step written out: the position is 17k after the variant, modulo
      the length; the window there moves by step * (k + 1), up for even variants and down for odd ones. */
  lemma RoundMeaning(cfg: MutationConfig, data: seq<byte>, step: int, variant: nat, k: nat, o: nat, d: int)
    requires cfg.Usable() && o < |data| && (variant + 17 * k - o) % |data| == 0
    requires d == step * (k + 1) && -TWO63 <= d < TWO63
    ensures var before, after := MutateBytes(cfg, data, step, variant, k), MutateBytes(cfg, data, step, variant, k + 1);
      var stepped := before[o := (before[o] + cfg.byteSteps[variant % |cfg.byteSteps|]) % 256];
      if o + 8 <= |data| then
        && FromBytes(after[o..o + 8])
           == Magnitude(FromBytes(stepped[o..o + 8]) + if variant % 2 == 0 then d else -d) % TWO64
        && after[..o] == before[..o] && after[o + 8..] == before[o + 8..]
      else after == stepped
  {
    SameRemainder(variant + 17 * k, o, |data|);
    if o + 8 <= |data| {
      WindowValue(MutateBytes(cfg, data, step, variant, k), o, cfg.ByteStep(variant), WindowDelta(step, variant, k));
    }
  }

  /** The storage delta is the step, or for every third variant the step times variant + 1. */
  lemma DeltaMeaning(step: int, k: nat)
    ensures Delta(step, 3 * k) == step * (3 * k) + step
    ensures Delta(step, 3 * k + 1) == step && Delta(step, 3 * k + 2) == step
  {
    MulDist(3 * k, 1, step);
  }

  lemma StorageExamples()
    ensures StorageValue(100, 10, 3) == 140 && StorageValue(100, 10, 4) == 110
    ensures StorageValue(0, -1, 1) == TWO256 - 2 && StorageValue(TWO256 - 1, 1, 1) == 1
  {}

  /** Iteration i on n bytes writes position j. */
  predicate Touches(variant: nat, i: nat, n: nat, j: nat)
    requires n > 0
  {
    var o := Offset(variant, i, n);
    j == o || (o < j < o + 8 <= n)
  }

  lemma {:induction false} UntouchedBytes(cfg: MutationConfig, data: seq<byte>, step: int, variant: nat, k: nat, j: nat)
    requires cfg.Usable() && j < |data|
    requires forall i: nat :: i < k ==> !Touches(variant, i, |data|, j)
    ensures MutateBytes(cfg, data, step, variant, k)[j] == data[j]
  {
    if k > 0 {
      UntouchedBytes(cfg, data, step, variant, k - 1, j);
      assert !Touches(variant, k - 1, |data|, j);
    }
  }

  /** Go's remainder, which truncates toward zero. */
  function Rem(a: int, b: int): int
    requires b > 0
  {
    if a >= 0 then a % b else -((-a) % b)
  }

  method StepByte(buf: array<byte>, at: nat, byteStep: int)
    requires at < buf.Length
    modifies buf
    ensures buf[..] == Stepped(old(buf[..]), at, byteStep)
  {
    var newByte := buf[at] + byteStep;
    if newByte < 0 {
      newByte := 256 + Rem(newByte, 256);
    } else if newByte > 255 {
      newByte := Rem(newByte, 256);
    }
    buf[at] := newByte % 256;
  }

  /** Go's SetBytes, Add and 64-bit write-back on the eight bytes at the position. */
  method MoveWindow(buf: array<byte>, at: nat, delta: int)
    requires at + 8 <= buf.Length
    modifies buf
    ensures buf[..] == Moved(old(buf[..]), at, delta)
  {
    assert buf[at..at + 8] == buf[..][at..at + 8];
    PutNumber(buf, at, 8, Magnitude(FromBytes(buf[at..at + 8]) + delta));
  }

  method MutateInPlace(buf: array<byte>, at: nat, byteStep: int, delta: int)
    requires at < buf.Length
    modifies buf
    ensures buf[..] == MutateAt(old(buf[..]), at, byteStep, delta)
  {
    StepByte(buf, at, byteStep);
    if at + 8 <= buf.Length {
      MoveWindow(buf, at, delta);
    }
  }

  lemma SteppedShift(prefix: seq<byte>, data: seq<byte>, offset: nat, byteStep: int)
    requires offset < |data|
    ensures Stepped(prefix + data, |prefix| + offset, byteStep) == prefix + Stepped(data, offset, byteStep)
  {}

  lemma MovedShift(prefix: seq<byte>, data: seq<byte>, offset: nat, delta: int)
    requires offset + 8 <= |data|
    ensures Moved(prefix + data, |prefix| + offset, delta) == prefix + Moved(data, offset, delta)
  {
    var lo := |prefix| + offset;
    assert (prefix + data)[lo..lo + 8] == data[offset..offset + 8];
    OverwriteShift(prefix, data, offset, ToBytes(Magnitude(FromBytes(data[offset..offset + 8]) + delta), 8));
  }

  /** An iteration on a part of a buffer is the same iteration on the whole buffer. */
  lemma MutateShift(prefix: seq<byte>, data: seq<byte>, offset: nat, byteStep: int, delta: int)
    requires offset < |data|
    ensures MutateAt(prefix + data, |prefix| + offset, byteStep, delta)
         == prefix + MutateAt(data, offset, byteStep, delta)
  {
    SteppedShift(prefix, data, offset, byteStep);
    if offset + 8 <= |data| {
      MovedShift(prefix, Stepped(data, offset, byteStep), offset, delta);
    }
  }

  /** One iteration on the part of the buffer after the prefix. */
  method IterateAfter(buf: array<byte>, ghost prefix: seq<byte>, ghost part: seq<byte>, lo: nat, offset: nat,
                      byteStep: int, delta: int)
    requires buf[..] == prefix + part && |prefix| == lo && offset < |part|
    modifies buf
    ensures buf[..] == prefix + MutateAt(part, offset, byteStep, delta)
  {
    assert |buf[..]| == buf.Length;
    MutateShift(prefix, part, offset, byteStep, delta);
    MutateInPlace(buf, lo + offset, byteStep, delta);
  }

  /** ApplyStepMutationToBytes on the part of a buffer from lo on. */
  method ApplyStepMutation(cfg: MutationConfig, buf: array<byte>, lo: nat, step: int, variant: nat)
    requires cfg.Usable() && lo <= buf.Length
    modifies buf
    ensures buf[..] == if lo == buf.Length then old(buf[..]) else
      old(buf[..lo]) + MutateBytes(cfg, old(buf[lo..]), step, variant, Rounds(cfg, variant, buf.Length - lo))
  {
    var n := buf.Length - lo;
    if n == 0 { return; }
    ghost var prefix, part := buf[..lo], buf[lo..];
    var mutationCount := variant % cfg.maxMutations + 1;
    assert buf[..] == prefix + part;
    var i := 0;
    while i < mutationCount && i < n
      invariant 0 <= i <= mutationCount && i <= n
      invariant |part| == n && part == MutateBytes(cfg, old(buf[lo..]), step, variant, i)
      invariant buf[..] == prefix + part
    {
      var offset, delta := Offset(variant, i, n), WindowDelta(step, variant, i);
      IterateAfter(buf, prefix, part, lo, offset, cfg.ByteStep(variant), delta);
      part := MutateAt(part, offset, cfg.ByteStep(variant), delta);
      i := i + 1;
    }
  }

  /** GenerateStepBasedInputData: the selector stays, the rest goes through the byte mutation. */
  function StepInput(cfg: MutationConfig, original: seq<byte>, variant: nat): (r: seq<byte>)
    requires cfg.Usable()
    ensures |r| == |original|
    ensures |original| <= 4 ==> r == original
    ensures |original| > 4 ==> r[..4] == original[..4]
  {
    if |original| <= 4 then original
    else original[..4] + MutateBytes(cfg, original[4..], cfg.InputStep(variant), variant, Rounds(cfg, variant, |original| - 4))
  }

  method GenerateInputData(cfg: MutationConfig, original: seq<byte>, variant: nat) returns (modified: seq<byte>)
    requires cfg.Usable()
    ensures modified == StepInput(cfg, original, variant)
  {
    if |original| < 4 { return original; }
    var buf := Clone(original);
    ApplyStepMutation(cfg, buf, 4, cfg.InputStep(variant), variant);
    modified := buf[..];
  }
}
