/** tracing/mutation/smart_mutation_strategy.go: the storage slots that a strategy works on. */
module TargetSlots {
  import opened Common

  /** The mutation types that have statistics, and any other name a result may carry. */
  datatype Name =
    | AddressKnownSubstitution | AddressNearbyMutation | Uint256BoundaryValues | Uint256StepIncrement
    | Uint256Multiplier | BoolFlip | BytesPatternFill | StringLengthMutation
    | StorageAddressMutation | StorageBalanceScaling | StorageBoolFlip | StorageCounterIncrement
    | StorageMappingKeyMutation | StorageArrayLengthMutation
    | MultiSlotCoordinated | DependencyAwareMutation | ExecutionPathGuided
    | Other(name: string)
  {
    /** isStorageStrategy. */
    predicate IsStorage() {
      match this
      case StorageAddressMutation | StorageBalanceScaling | StorageBoolFlip | StorageCounterIncrement
         | StorageMappingKeyMutation | StorageArrayLengthMutation | MultiSlotCoordinated
         | DependencyAwareMutation => true
      case _ => false
    }

    /** The strategies that take a part of the slots, in their order. */
    predicate Filters() {
      match this
      case StorageAddressMutation | StorageBalanceScaling | StorageBoolFlip | StorageCounterIncrement
         | StorageMappingKeyMutation | StorageArrayLengthMutation => true
      case _ => false
    }

    predicate Accepts(slot: SlotInfo) {
      match this
      case StorageAddressMutation => slot.slotType == AddressSlot
      case StorageBalanceScaling => slot.slotType == Uint256Slot && 1_000_000_000_000_000 <= slot.value <= MAX_BALANCE
      case StorageBoolFlip => slot.slotType == BoolSlot
      case StorageCounterIncrement => slot.slotType == Uint256Slot && slot.value <= 1_000_000
      case StorageMappingKeyMutation => slot.slotType == MappingSlot
      case StorageArrayLengthMutation => slot.slotType == ArraySlot
      case _ => true
    }
  }

  const MAX_BALANCE: nat := 1_000_000_000_000_000_000_000_000_000

  datatype SlotType = AddressSlot | BoolSlot | MappingSlot | ArraySlot | Uint256Slot | OtherSlot(name: string)

  datatype SlotInfo = SlotInfo(slot: nat, slotType: SlotType, value: nat, importance: real)

  /** The accepted slots, in their order. */
  function Filtered(name: Name, slots: seq<SlotInfo>): seq<SlotInfo> {
    if slots == [] then [] else
      var last := slots[|slots| - 1];
      Filtered(name, slots[..|slots| - 1]) + if name.Accepts(last) then [last] else []
  }

  predicate ByImportance(slots: seq<SlotInfo>) {
    forall i, j :: 0 <= i < j < |slots| ==> slots[i].importance >= slots[j].importance
  }

  /** What selectTargetSlots may return: the accepted slots in order, or all slots sorted by
      importance, ties in any order. */
  predicate Selected(name: Name, slots: seq<SlotInfo>, targets: seq<SlotInfo>) {
    if name.Filters() then targets == Filtered(name, slots)
    else multiset(targets) == multiset(slots) && ByImportance(targets)
  }

  /** What each strategy takes: a type, and for balances 10^15 to 10^27 and for counters up to 10^6. */
  lemma AcceptsMeaning(slot: SlotInfo)
    ensures StorageAddressMutation.Accepts(slot) <==> slot.slotType.AddressSlot?
    ensures StorageBoolFlip.Accepts(slot) <==> slot.slotType.BoolSlot?
    ensures StorageMappingKeyMutation.Accepts(slot) <==> slot.slotType.MappingSlot?
    ensures StorageArrayLengthMutation.Accepts(slot) <==> slot.slotType.ArraySlot?
    ensures StorageCounterIncrement.Accepts(slot) <==> slot.slotType.Uint256Slot? && slot.value <= 1000 * 1000
    ensures StorageBalanceScaling.Accepts(slot)
       <==> slot.slotType.Uint256Slot? && 1000 * 1_000_000 * 1_000_000 <= slot.value <= 1000 * 1_000_000 * 1_000_000 * 1_000_000 * 1_000_000
    ensures MultiSlotCoordinated.Accepts(slot) && DependencyAwareMutation.Accepts(slot)
  {}

  /** The strategies that work on storage. */
  lemma StorageStrategies(name: Name)
    ensures name.IsStorage() <==> name in {
      StorageAddressMutation, StorageBalanceScaling, StorageBoolFlip, StorageCounterIncrement,
      StorageMappingKeyMutation, StorageArrayLengthMutation, MultiSlotCoordinated, DependencyAwareMutation}
    ensures name.Filters() <==> name.IsStorage() && name != MultiSlotCoordinated && name != DependencyAwareMutation
  {}

  lemma {:induction false} FilteredAccepted(name: Name, slots: seq<SlotInfo>, slot: SlotInfo)
    ensures slot in Filtered(name, slots) <==> slot in slots && name.Accepts(slot)
  {
    if slots != [] {
      FilteredAccepted(name, slots[..|slots| - 1], slot);
      assert slots == slots[..|slots| - 1] + [slots[|slots| - 1]];
    }
  }

  /** Whatever the order, the targets are exactly the slots the strategy accepts. */
  lemma SelectedAccepted(name: Name, slots: seq<SlotInfo>, targets: seq<SlotInfo>, slot: SlotInfo)
    requires Selected(name, slots, targets)
    ensures slot in targets <==> slot in slots && name.Accepts(slot)
  {
    if name.Filters() {
      FilteredAccepted(name, slots, slot);
    } else {
      assert slot in targets <==> slot in multiset(targets);
      assert slot in slots <==> slot in multiset(slots);
    }
  }

  /** Where all slots are taken, a slot left out of the first k is no more important than those. */
  lemma FirstMostImportant(name: Name, slots: seq<SlotInfo>, targets: seq<SlotInfo>, k: nat, slot: SlotInfo, i: nat)
    requires Selected(name, slots, targets) && !name.Filters()
    requires i < k <= |targets| && slot in slots && slot !in targets[..k]
    ensures slot.importance <= targets[i].importance
  {
    SelectedAccepted(name, slots, targets, slot);
    var j :| 0 <= j < |targets| && targets[j] == slot;
    assert forall m :: 0 <= m < k ==> targets[m] == targets[..k][m] && targets[m] in targets[..k];
  }

  method FilterSlots(name: Name, slots: seq<SlotInfo>) returns (filtered: seq<SlotInfo>)
    ensures filtered == Filtered(name, slots)
  {
    filtered := [];
    var i := 0;
    while i < |slots|
      invariant 0 <= i <= |slots| && filtered == Filtered(name, slots[..i])
    {
      assert slots[..i + 1][..i] == slots[..i];
      if name.Accepts(slots[i]) { filtered := filtered + [slots[i]]; }
      i := i + 1;
    }
    assert slots[..i] == slots;
  }

  lemma {:induction false} MostImportant(slots: seq<SlotInfo>) returns (best: nat)
    requires slots != []
    ensures best < |slots| && forall j :: 0 <= j < |slots| ==> slots[j].importance <= slots[best].importance
  {
    var n := |slots| - 1;
    best := n;
    if n > 0 {
      var rest := MostImportant(slots[..n]);
      if slots[rest].importance > slots[n].importance { best := rest; }
      assert forall j :: 0 <= j < n ==> slots[j] == slots[..n][j];
    }
  }

  /** Everything sorted so far is at least as important as anything left. */
  predicate Outranks(sorted: seq<SlotInfo>, rest: seq<SlotInfo>) {
    forall i, j :: 0 <= i < |sorted| && 0 <= j < |rest| ==> sorted[i].importance >= rest[j].importance
  }

  method TakeMostImportant(rest: seq<SlotInfo>) returns (best: SlotInfo, less: seq<SlotInfo>)
    requires rest != []
    ensures multiset(rest) == multiset(less) + multiset{best} && |less| == |rest| - 1
    ensures best in rest && forall j :: 0 <= j < |less| ==> less[j].importance <= best.importance && less[j] in rest
  {
    ghost var some := MostImportant(rest);
    var i :| 0 <= i < |rest| && forall j :: 0 <= j < |rest| ==> rest[j].importance <= rest[i].importance;
    best, less := rest[i], rest[..i] + rest[i + 1..];
    assert rest == rest[..i] + [rest[i]] + rest[i + 1..];
  }

  /** sort.Slice by importance; ties come in any order. */
  method SortByImportance(slots: seq<SlotInfo>) returns (sorted: seq<SlotInfo>)
    ensures multiset(sorted) == multiset(slots) && ByImportance(sorted)
  {
    sorted := [];
    var rest := slots;
    while rest != []
      invariant multiset(sorted) + multiset(rest) == multiset(slots)
      invariant ByImportance(sorted) && Outranks(sorted, rest)
      decreases |rest|
    {
      var best, less := TakeMostImportant(rest);
      assert multiset(sorted + [best]) == multiset(sorted) + multiset{best};
      sorted, rest := sorted + [best], less;
    }
  }

  /** selectTargetSlots. */
  method SelectTargetSlots(name: Name, slots: seq<SlotInfo>) returns (targets: seq<SlotInfo>)
    ensures Selected(name, slots, targets)
  {
    if name.Filters() {
      targets := FilterSlots(name, slots);
    } else {
      targets := SortByImportance(slots);
    }
  }
}
