/** tracing/replay/txReplayer.go: the modification candidates. */
module Candidates {
  import opened Common
  import opened Bytes
  import opened Buffers
  import opened Mutation

  datatype ModType = InputStep | StorageStep | BothStep | ForcedInput | ForcedStorage | ForcedVirtualStorage

  datatype Impact = Unpredicted | InputBehaviorChange | StateManipulation | ComprehensiveVector | UnknownImpact

  datatype Candidate = Candidate(id: int, input: Option<seq<byte>>, storageChanges: map<Word, Word>,
                                 modType: ModType, priority: int, expectedImpact: Impact)

  /** predictModificationImpact. */
  function PredictImpact(modType: ModType): Impact {
    match modType
    case InputStep => InputBehaviorChange
    case StorageStep => StateManipulation
    case BothStep => ComprehensiveVector
    case _ => UnknownImpact
  }

  /** A slot that is absent from the original storage holds zero. */
  function SlotValue(storage: map<Word, Word>, slot: Word): Word {
    if slot in storage then storage[slot] else 0
  }

  predicate InputChange(original: seq<byte>, modified: seq<byte>) {
    |modified| == |original| > 4 && modified[..4] == original[..4] && modified != original
  }

  predicate StorageChange(storage: map<Word, Word>, changes: map<Word, Word>) {
    exists slot :: slot in changes && changes[slot] != SlotValue(storage, slot)
  }

  predicate Genuine(c: Candidate, original: seq<byte>, storage: map<Word, Word>) {
    || (c.input.Some? && InputChange(original, c.input.value))
    || StorageChange(storage, c.storageChanges)
  }

  // ---- forced input ----------------------------------------------------------

  predicate OneByteChanged(a: seq<byte>, b: seq<byte>, at: nat) {
    && |a| == |b| && at < |a| && a[at] != b[at]
    && forall j :: 0 <= j < |a| && j != at ==> a[j] == b[j]
  }

  function ForcedInputData(original: seq<byte>, variant: nat): seq<byte>
    requires |original| > 4
  {
    if (variant + 1) % 256 != 0 then original[4 := Bump(original[4], variant + 1)]
    else
      var i := 4 + variant % (|original| - 4);
      original[i := Bump(original[i], 1)]
  }

  lemma ForcedExamples()
    ensures ForcedInputData([0, 0, 0, 0, 250, 9], 7) == [0, 0, 0, 0, 2, 9]
    ensures ForcedInputData([0, 0, 0, 0, 250, 9], 255) == [0, 0, 0, 0, 250, 10]
  {}

  /** forceModifyInputData: of the three strategies exactly one takes effect, on exactly one byte. */
  method ForceModifyInputData(original: seq<byte>, variant: nat) returns (modified: seq<byte>, ghost at: nat)
    ensures |original| <= 4 ==> modified == original
    ensures |original| > 4 ==> at >= 4 && OneByteChanged(original, modified, at)
    ensures |original| > 4 ==> modified == ForcedInputData(original, variant)
  {
    at := 4;
    if |original| < 4 { return original, at; }
    var buf := Clone(original);
    if buf.Length > 4 {
      var n := buf.Length - 4;
      var modificationMade := false;
      buf[4] := Bump(buf[4], variant + 1);
      if buf[4] != original[4] { modificationMade := true; }
      if n >= 32 && !modificationMade {
        buf[35] := Bump(buf[35], variant + 1);
        if buf[35] != original[35] { modificationMade := true; }
      }
      if !modificationMade {
        assert buf[..] == original;
        var index := variant % n;
        buf[4 + index] := Bump(buf[4 + index], 1);
        at := 4 + index;
      }
    }
    modified := buf[..];
  }

  // ---- forced storage --------------------------------------------------------

  function Xor(a: nat, b: nat): nat {
    if a == 0 && b == 0 then 0 else 2 * Xor(a / 2, b / 2) + (a + b) % 2
  }

  /** The four strategies, as BigToHash of their result. */
  function Strategy(k: nat, original: Word, variant: nat): Word {
    var n := variant + 1;
    if k == 0 then (original + n) % TWO256
    else if k == 1 then (if original - n < 0 then n else original - n) % TWO256
    else if k == 2 then Xor(original, n) % TWO256
    else (variant + 100) % TWO256
  }

  /** What the strategies from the k-th on leave: the first different value, or the last resort. */
  function FirstDifferent(k: nat, original: Word, variant: nat): Word
    decreases 4 - k
  {
    if k >= 4 then (if original == 0 then (variant + 1) % TWO256 else 0)
    else if Strategy(k, original, variant) != original then Strategy(k, original, variant)
    else FirstDifferent(k + 1, original, variant)
  }

  method ForcedValue(original: Word, variant: nat) returns (newValue: Word)
    ensures newValue == FirstDifferent(0, original, variant)
  {
    newValue := 0;
    var k, found := 0, false;
    while k < 4 && !found
      invariant 0 <= k <= 4
      invariant if found then newValue == FirstDifferent(0, original, variant)
                else FirstDifferent(0, original, variant) == FirstDifferent(k, original, variant)
    {
      newValue := Strategy(k, original, variant);
      if newValue != original { found := true; }
      k := k + 1;
    }
    if !found {
      newValue := if original == 0 then (variant + 1) % TWO256 else 0;
    }
  }

  /** The first strategy is always enough. */
  lemma ForcedValueMeaning(original: Word, variant: nat)
    requires variant < TWO63 - 1
    ensures FirstDifferent(0, original, variant) == (original + variant + 1) % TWO256 != original
  {}

  predicate ForcedFrom(storage: map<Word, Word>, changes: map<Word, Word>, variant: nat) {
    forall slot :: slot in changes ==> slot in storage && changes[slot] == FirstDifferent(0, storage[slot], variant)
  }

  /** forceModifyStorageData: up to two slots, whichever the map yields first. */
  method ForceModifyStorageData(storage: map<Word, Word>, variant: nat) returns (changes: map<Word, Word>)
    ensures ForcedFrom(storage, changes, variant)
    ensures |changes| == Min(|storage|, 2)
  {
    changes := map[];
    var count: nat := 0;
    var remaining := storage.Keys;
    while remaining != {} && count < 2
      invariant remaining <= storage.Keys && changes.Keys == storage.Keys - remaining
      invariant |changes| == count <= 2 && count + |remaining| == |storage.Keys|
      invariant ForcedFrom(storage, changes, variant)
      decreases |remaining|
    {
      var slot :| slot in remaining;
      var newValue := ForcedValue(storage[slot], variant);
      changes := changes[slot := newValue];
      count := count + 1;
      remaining := remaining - {slot};
    }
    assert |storage.Keys| == |storage|;
  }

  function VirtualStorage(variant: nat): map<Word, Word>
    requires variant < TWO63
  {
    map[variant * 10 + 1 := variant * 100 + 42, variant * 10 + 2 := variant * 100 + 43]
  }

  lemma VirtualExamples()
    ensures VirtualStorage(0) == map[1 := 42, 2 := 43] && VirtualStorage(7) == map[71 := 742, 72 := 743]
  {}

  /** createVirtualStorageModification. */
  method CreateVirtualStorage(variant: nat) returns (changes: map<Word, Word>)
    requires variant < TWO63
    ensures changes == VirtualStorage(variant)
  {
    changes := map[];
    var i := 0;
    while i < 2
      invariant 0 <= i <= 2
      invariant changes == if i == 0 then map[] else if i == 1 then map[variant * 10 + 1 := variant * 100 + 42]
                           else VirtualStorage(variant)
    {
      changes := changes[variant * 10 + i + 1 := variant * 100 + i + 42];
      i := i + 1;
    }
  }

  // ---- candidates ------------------------------------------------------------

  /** What forcing changes: one byte of the input, or up to two slots, or the two slots of the last resort. */
  predicate Forced(c: Candidate, original: seq<byte>, storage: map<Word, Word>, variant: nat)
    requires variant < TWO63
  {
    if |original| > 4 then
      && c.modType == ForcedInput && c.priority == 1 && c.storageChanges == map[]
      && c.input == Some(ForcedInputData(original, variant))
    else if |storage| > 0 then
      && c.modType == ForcedStorage && c.priority == 2 && c.input == None
      && ForcedFrom(storage, c.storageChanges, variant) && |c.storageChanges| == Min(|storage|, 2)
    else
      && c.modType == ForcedVirtualStorage && c.priority == 3 && c.input == None
      && c.storageChanges == VirtualStorage(variant)
  }

  /** forceValidModification: there is always a modification, and it is a genuine one. */
  method ForceValid(id: int, original: seq<byte>, storage: map<Word, Word>, variant: nat) returns (c: Candidate)
    requires variant < TWO63 - 1
    ensures Genuine(c, original, storage) && c.id == id
    ensures Forced(c, original, storage, variant)
  {
    if |original| > 4 {
      var modified, at := ForceModifyInputData(original, variant);
      assert modified[at] != original[at];
      if modified != original {
        assert InputChange(original, modified);
        return Candidate(id, Some(modified), map[], ForcedInput, 1, Unpredicted);
      }
    }
    if |storage| > 0 {
      var changes := ForceModifyStorageData(storage, variant);
      if |changes| > 0 {
        ForcedGenuine(storage, changes, variant);
        return Candidate(id, None, changes, ForcedStorage, 2, Unpredicted);
      }
    }
    var changes := CreateVirtualStorage(variant);
    assert variant * 10 + 1 in changes;
    c := Candidate(id, None, changes, ForcedVirtualStorage, 3, Unpredicted);
  }

  lemma ForcedGenuine(storage: map<Word, Word>, changes: map<Word, Word>, variant: nat)
    requires ForcedFrom(storage, changes, variant) && |changes| > 0 && variant < TWO63 - 1
    ensures StorageChange(storage, changes)
  {
    var slot :| slot in changes;
    ForcedValueMeaning(storage[slot], variant);
  }

  /** The step-based storage mutation is genuine exactly when the step is not zero. */
  lemma StepGenuine(cfg: MutationConfig, storage: map<Word, Word>, changes: map<Word, Word>, order: seq<Word>, variant: nat)
    requires cfg.Usable() && |storage| > 0 && variant + |storage| < TWO63
    requires changes.Keys == storage.Keys
    requires MutatedInOrder(storage, changes, order, cfg.StorageStep(variant), variant, variant % cfg.maxMutations + 1)
    ensures |ChangedSlots(storage, changes)|
         == if cfg.StorageStep(variant) == 0 then 0 else Min(|storage|, variant % cfg.maxMutations + 1)
    ensures StorageChange(storage, changes) <==> cfg.StorageStep(variant) != 0
  {
    DistinctCount(order);
    assert |changes.Keys| == |storage.Keys| == |storage|;
    ChangedCount(storage, changes, order, cfg.StorageStep(variant), variant, variant % cfg.maxMutations + 1);
    var changed := ChangedSlots(storage, changes);
    if cfg.StorageStep(variant) == 0 {
      forall slot | slot in changes
        ensures changes[slot] == SlotValue(storage, slot)
      {
        assert slot !in changed;
      }
    } else {
      var slot :| slot in changed;
      assert slot in changes && changes[slot] != SlotValue(storage, slot);
    }
  }

  /** The storage is mutated in some order of its slots. */
  ghost predicate MutatedSomehow(storage: map<Word, Word>, changes: map<Word, Word>, step: int, variant: nat, limit: nat) {
    exists order: seq<Word> :: MutatedInOrder(storage, changes, order, step, variant, limit)
  }

  /** The step mutations a candidate carries, by the kind its position gives it. */
  ghost predicate StepChanges(cfg: MutationConfig, c: Candidate, i: nat, original: seq<byte>, storage: map<Word, Word>)
    requires cfg.Usable()
  {
    && (c.input == if i % 3 == 1 || StepInput(cfg, original, i) == original then None else Some(StepInput(cfg, original, i)))
    && (i % 3 == 0 ==> c.storageChanges == map[])
    && (i % 3 != 0 ==>
          && c.storageChanges.Keys == storage.Keys
          && |ChangedSlots(storage, c.storageChanges)|
             == (if cfg.StorageStep(i) == 0 then 0 else Min(|storage|, i % cfg.maxMutations + 1))
          && MutatedSomehow(storage, c.storageChanges, cfg.StorageStep(i), i, i % cfg.maxMutations + 1))
  }

  /** A step mutation has something to work on: changed bytes, or a slot to change. */
  predicate Applies(cfg: MutationConfig, i: nat, original: seq<byte>, storage: map<Word, Word>)
    requires cfg.Usable()
  {
    || (i % 3 != 1 && StepInput(cfg, original, i) != original)
    || (i % 3 != 0 && |storage| > 0)
  }

  /** The i-th candidate: the step mutation of its kind when it applies, else a forced one. */
  ghost predicate Expected(cfg: MutationConfig, c: Candidate, i: nat, original: seq<byte>, storage: map<Word, Word>)
    requires cfg.Usable() && i < TWO63
  {
    if Applies(cfg, i, original, storage) then
      && StepChanges(cfg, c, i, original, storage)
      && c.modType == (if i % 3 == 0 then InputStep else if i % 3 == 1 then StorageStep else BothStep)
      && c.priority == i % 3 + 1
      && c.expectedImpact == (if i % 3 == 0 then InputBehaviorChange
                              else if i % 3 == 1 then StateManipulation
                              else ComprehensiveVector)
      && (Genuine(c, original, storage) <==> c.input.Some? || cfg.StorageStep(i) != 0)
    else
      && Forced(c, original, storage, i)
      && c.expectedImpact == UnknownImpact
      && Genuine(c, original, storage)
  }

  /** Every third candidate mutates the input, the storage or both, while those can be mutated. */
  lemma KindsInTurn(cfg: MutationConfig, c: Candidate, i: nat, original: seq<byte>, storage: map<Word, Word>)
    requires cfg.Usable() && |storage| > 0 && i < TWO63 && Expected(cfg, c, i, original, storage)
    ensures i % 3 == 1 ==>
      c.modType == StorageStep && c.priority == 2 && c.input.None? && c.storageChanges.Keys == storage.Keys
    ensures i % 3 == 2 ==>
      c.modType == BothStep && c.priority == 3 && c.storageChanges.Keys == storage.Keys
    ensures i % 3 == 0 && c.modType == InputStep ==>
      c.priority == 1 && c.input.Some? && c.input.value != original && c.storageChanges == map[]
  {}

  /** One round of the candidate loop. */
  method GenerateOne(cfg: MutationConfig, id: int, i: nat, original: seq<byte>, storage: map<Word, Word>)
    returns (c: Candidate)
    requires cfg.Usable() && i + |storage| < TWO63 - 1
    ensures c.id == id && Expected(cfg, c, i, original, storage)
  {
    var input, changes := None, map[];
    if i % 3 != 1 {
      var modifiedInput := GenerateInputData(cfg, original, i);
      if modifiedInput != original { input := Some(modifiedInput); }
    }
    if i % 3 != 0 {
      ghost var order;
      changes, order := GenerateStorageChanges(cfg, storage, i);
      if |storage| > 0 { StepGenuine(cfg, storage, changes, order, i); }
    }
    assert |changes| == |changes.Keys|;
    if input.Some? || |changes| > 0 {
      c := Candidate(id, input, changes, if i % 3 == 0 then InputStep else if i % 3 == 1 then StorageStep else BothStep,
                     i % 3 + 1, Unpredicted);
    } else {
      c := ForceValid(id, original, storage, i);
    }
    c := c.(expectedImpact := PredictImpact(c.modType));
  }

  /** generateStepBasedModificationCandidates: one candidate a round, none skipped. */
  method GenerateCandidates(cfg: MutationConfig, startID: int, count: nat, original: seq<byte>, storage: map<Word, Word>)
    returns (candidates: seq<Candidate>)
    requires cfg.Usable() && count + |storage| < TWO63
    ensures |candidates| == count
    ensures forall i :: 0 <= i < count ==>
      candidates[i].id == startID + i && Expected(cfg, candidates[i], i, original, storage)
  {
    candidates := [];
    var i := 0;
    while i < count
      invariant 0 <= i <= count && |candidates| == i
      invariant forall j :: 0 <= j < i ==>
        candidates[j].id == startID + j && Expected(cfg, candidates[j], j, original, storage)
    {
      var c := GenerateOne(cfg, startID + i, i, original, storage);
      candidates := candidates + [c];
      i := i + 1;
    }
  }

  /** With no zero storage step every candidate is a genuine change. */
  method GenerateGenuine(cfg: MutationConfig, startID: int, count: nat, original: seq<byte>, storage: map<Word, Word>)
    returns (candidates: seq<Candidate>)
    requires cfg.Usable() && StepsNonZero(cfg) && count + |storage| < TWO63
    ensures |candidates| == count
    ensures forall i :: 0 <= i < count ==> candidates[i].id == startID + i && Genuine(candidates[i], original, storage)
  {
    candidates := GenerateCandidates(cfg, startID, count, original, storage);
    forall i | 0 <= i < count
      ensures Genuine(candidates[i], original, storage)
    {
      assert Expected(cfg, candidates[i], i, original, storage);
    }
  }

  /** So with the configuration that the replayer uses. */
  method GenerateDefault(startID: int, count: nat, original: seq<byte>, storage: map<Word, Word>)
    returns (candidates: seq<Candidate>)
    requires count + |storage| < TWO63
    ensures |candidates| == count
    ensures forall i :: 0 <= i < count ==> candidates[i].id == startID + i && Genuine(candidates[i], original, storage)
  {
    DefaultUsable();
    candidates := GenerateGenuine(DEFAULT_CONFIG, startID, count, original, storage);
  }

  const ZERO_STEP := MutationConfig([1], [0], [1], 3)

  /** With a zero storage step, the second candidate for a single slot changes nothing. */
  method GenerateWithZeroStep(original: seq<byte>) returns (candidates: seq<Candidate>)
    ensures |candidates| == 2 && candidates[1].modType == StorageStep
    ensures !Genuine(candidates[1], original, map[7 := 42])
  {
    candidates := GenerateCandidates(ZERO_STEP, 0, 2, original, map[7 := 42]);
    assert Expected(ZERO_STEP, candidates[1], 1, original, map[7 := 42]);
  }
}
