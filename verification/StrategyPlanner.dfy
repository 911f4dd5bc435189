/** tracing/mutation/smart_mutation_strategy.go: the adaptive planner, with exact rationals for floats. */
module StrategyPlanner {
  import opened Common
  import opened TargetSlots

  const BASE: seq<Name> := [
    AddressKnownSubstitution, AddressNearbyMutation, Uint256BoundaryValues, Uint256StepIncrement,
    Uint256Multiplier, BoolFlip, BytesPatternFill, StringLengthMutation,
    StorageAddressMutation, StorageBalanceScaling, StorageBoolFlip, StorageCounterIncrement,
    StorageMappingKeyMutation, StorageArrayLengthMutation,
    MultiSlotCoordinated, DependencyAwareMutation, ExecutionPathGuided]

  const MAX_RECENT := 1000
  const MIN_BATCH := 10
  const MAX_BATCH := 200

  datatype MutationResult = MutationResult(mutationType: Name, success: bool, similarity: real)

  predicate Rate(x: real) {
    0.0 <= x <= 1.0
  }

  /** A recorded result, and the threshold at that time. */
  datatype Entry = Entry(result: MutationResult, threshold: real)

  datatype Stats = Stats(successRate: real, averageSimilarity: real, attempts: nat, successes: nat)

  const FRESH := Stats(0.5, 0.3, 0, 0)

  // ---- the statistics as functions of the results since the last reset -------

  function Ratio(part: nat, whole: nat): real
    requires whole > 0
  {
    part as real / whole as real
  }

  lemma RatioBounds(part: nat, whole: nat)
    requires part <= whole && whole > 0
    ensures Rate(Ratio(part, whole))
  {}

  function Updated(s: Stats, result: MutationResult): Stats {
    var attempts := s.attempts + 1;
    if !result.success then s.(attempts := attempts)
    else
      var successes := s.successes + 1;
      Stats(s.successRate * 0.9 + Ratio(successes, attempts) * 0.1,
            s.averageSimilarity * 0.9 + result.similarity * 0.1, attempts, successes)
  }

  function StatsAfter(name: Name, log: seq<Entry>): Stats {
    if log == [] then FRESH else
      var before, last := StatsAfter(name, log[..|log| - 1]), log[|log| - 1].result;
      if last.mutationType == name then Updated(before, last) else before
  }

  function HighCount(log: seq<Entry>): nat {
    if log == [] then 0 else
      var last := log[|log| - 1];
      HighCount(log[..|log| - 1]) + if last.result.similarity >= last.threshold then 1 else 0
  }

  function Clamped(batch: int): int {
    if batch < MIN_BATCH then MIN_BATCH else if batch > MAX_BATCH then MAX_BATCH else batch
  }

  /** adaptBatchSize. */
  function Adapted(batch: int, high: nat, total: nat): int {
    if total < 10 then batch
    else if Ratio(high, total) > 0.3 then Clamped((batch as real * 1.1).Floor)
    else if Ratio(high, total) < 0.1 then Clamped((batch as real * 0.9).Floor)
    else Clamped(batch)
  }

  function BatchAfter(log: seq<Entry>): int {
    if log == [] then 50 else Adapted(BatchAfter(log[..|log| - 1]), HighCount(log), |log|)
  }

  function Recent(log: seq<Entry>): (r: seq<MutationResult>)
    ensures |r| == if |log| < MAX_RECENT then |log| else MAX_RECENT
  {
    var from := if |log| < MAX_RECENT then 0 else |log| - MAX_RECENT;
    seq(|log| - from, i requires 0 <= i < |log| - from => log[from + i].result)
  }

  lemma Recorded(log: seq<Entry>, e: Entry)
    ensures var log' := log + [e];
      && Recent(log') == (if |log| < MAX_RECENT then Recent(log) + [e.result] else (Recent(log) + [e.result])[1..])
      && HighCount(log') == HighCount(log) + (if e.result.similarity >= e.threshold then 1 else 0)
      && BatchAfter(log') == Adapted(BatchAfter(log), HighCount(log'), |log'|)
  {
    var log' := log + [e];
    assert log'[..|log|] == log;
  }

  predicate StatsOf(strategies: map<Name, Stats>, log: seq<Entry>) {
    forall n :: n in strategies ==> strategies[n] == StatsAfter(n, log)
  }

  function Counted(strategies: map<Name, Stats>, result: MutationResult): map<Name, Stats> {
    if result.mutationType in strategies then
      strategies[result.mutationType := Updated(strategies[result.mutationType], result)]
    else strategies
  }

  lemma StatsRecorded(strategies: map<Name, Stats>, log: seq<Entry>, e: Entry)
    requires StatsOf(strategies, log)
    ensures Counted(strategies, e.result).Keys == strategies.Keys
    ensures StatsOf(Counted(strategies, e.result), log + [e])
  {
    assert (log + [e])[..|log|] == log;
  }

  /** The similarity scores and thresholds that path comparison produces. */
  predicate Scored(log: seq<Entry>) {
    forall i :: 0 <= i < |log| ==> Rate(log[i].result.similarity)
  }

  lemma {:induction false} StatsBounds(name: Name, log: seq<Entry>)
    requires Scored(log)
    ensures var s := StatsAfter(name, log);
      Rate(s.successRate) && Rate(s.averageSimilarity) && s.successes <= s.attempts <= |log|
  {
    if log != [] {
      StatsBounds(name, log[..|log| - 1]);
      var before := StatsAfter(name, log[..|log| - 1]);
      RatioBounds(before.successes + 1, before.attempts + 1);
    }
  }

  lemma {:induction false} HighBound(log: seq<Entry>)
    ensures HighCount(log) <= |log|
  {
    if log != [] { HighBound(log[..|log| - 1]); }
  }

  /** From ten results on, the batch grows while more than three in ten are similar, until 200, and
      shrinks while fewer than one in ten are, until 10. */
  lemma BatchMoves(batch: int, high: nat, total: nat)
    requires MIN_BATCH <= batch <= MAX_BATCH && total > 0
    ensures MIN_BATCH <= Adapted(batch, high, total) <= MAX_BATCH
    ensures total >= 10 && Ratio(high, total) > 0.3 && batch < MAX_BATCH ==> Adapted(batch, high, total) > batch
    ensures total >= 10 && Ratio(high, total) < 0.1 && batch > MIN_BATCH ==> Adapted(batch, high, total) < batch
    ensures total < 10 || 0.1 <= Ratio(high, total) <= 0.3 ==> Adapted(batch, high, total) == batch
  {}

  /** The new batch size in whole numbers: eleven tenths of the old one, but at most 200, when more than
      three in ten results are similar; nine tenths, but at least 10, when fewer than one in ten are. */
  lemma BatchExact(batch: int, high: nat, total: nat)
    requires MIN_BATCH <= batch <= MAX_BATCH && total >= 10
    ensures 10 * high > 3 * total ==> Adapted(batch, high, total) == if 11 * batch / 10 > 200 then 200 else 11 * batch / 10
    ensures 10 * high < total ==> Adapted(batch, high, total) == if 9 * batch / 10 < 10 then 10 else 9 * batch / 10
    ensures total <= 10 * high <= 3 * total ==> Adapted(batch, high, total) == batch
  {
    RatioCompare(high, total);
    Tenths(batch);
  }

  lemma RatioTimes(part: nat, whole: nat)
    requires whole > 0
    ensures Ratio(part, whole) * whole as real == part as real
  {}

  lemma RatioCompare(part: nat, whole: nat)
    requires whole > 0
    ensures Ratio(part, whole) > 0.3 <==> 10 * part > 3 * whole
    ensures Ratio(part, whole) < 0.1 <==> 10 * part < whole
  {
    RatioTimes(part, whole);
    TenTimes(part, whole);
    CompareQuotient(Ratio(part, whole), part as real, whole as real);
  }

  lemma CompareQuotient(r: real, p: real, w: real)
    requires w > 0.0 && r * w == p
    ensures r > 0.3 <==> p > 0.3 * w
    ensures r < 0.1 <==> p < 0.1 * w
  {
    ScaleCompare(r, 0.3, w);
    ScaleCompare(0.1, r, w);
  }

  lemma TenTimes(part: nat, whole: nat)
    ensures part as real > 0.3 * whole as real <==> 10 * part > 3 * whole
    ensures (part as real) < 0.1 * whole as real <==> 10 * part < whole
  {
    assert 10.0 * part as real == (10 * part) as real && 3.0 * whole as real == (3 * whole) as real;
  }

  lemma ScaleCompare(x: real, y: real, d: real)
    requires d > 0.0
    ensures x > y <==> x * d > y * d
  {
    if x > y { assert (x - y) * d > 0.0; }
    if x <= y { assert (y - x) * d >= 0.0; }
  }

  lemma Tenths(batch: int)
    ensures (batch as real * 1.1).Floor == 11 * batch / 10
    ensures (batch as real * 0.9).Floor == 9 * batch / 10
  {
    assert batch as real * 1.1 == (11 * batch) as real / 10.0;
    assert batch as real * 0.9 == (9 * batch) as real / 10.0;
    FloorTenth(11 * batch);
    FloorTenth(9 * batch);
  }

  lemma FloorTenth(n: int)
    ensures (n as real / 10.0).Floor == n / 10
  {
    var q, r := n / 10, n % 10;
    assert n as real / 10.0 == q as real + r as real / 10.0;
  }

  lemma {:induction false} BatchBounds(log: seq<Entry>)
    ensures MIN_BATCH <= BatchAfter(log) <= MAX_BATCH
  {
    if log != [] {
      BatchBounds(log[..|log| - 1]);
      BatchMoves(BatchAfter(log[..|log| - 1]), HighCount(log), |log|);
    }
  }

  // ---- the statistics in plain terms -------------------------------------------

  /** The results that count as similar. */
  function Similar(log: seq<Entry>): set<nat> {
    set i: nat | i < |log| && log[i].result.similarity >= log[i].threshold
  }

  lemma {:induction false} HighCountMeaning(log: seq<Entry>)
    ensures HighCount(log) == |Similar(log)|
  {
    if log != [] {
      var init, n := log[..|log| - 1], |log| - 1;
      HighCountMeaning(init);
      assert forall i: nat :: i < n ==> init[i] == log[i];
      assert Similar(log) == Similar(init) + if log[n].result.similarity >= log[n].threshold then {n} else {};
    }
  }

  /** A strategy's results, and those of them that succeeded. */
  function Tried(name: Name, log: seq<Entry>): set<nat> {
    set i: nat | i < |log| && log[i].result.mutationType == name
  }

  function Succeeded(name: Name, log: seq<Entry>): set<nat> {
    set i: nat | i < |log| && log[i].result.mutationType == name && log[i].result.success
  }

  lemma TriedNext(name: Name, init: seq<Entry>, e: Entry)
    ensures Tried(name, init + [e]) == Tried(name, init) + (if e.result.mutationType == name then {|init|} else {})
    ensures Succeeded(name, init + [e])
         == Succeeded(name, init) + if e.result.mutationType == name && e.result.success then {|init|} else {}
  {}

  lemma {:induction false} CountsMeaning(name: Name, log: seq<Entry>)
    ensures StatsAfter(name, log).attempts == |Tried(name, log)|
    ensures StatsAfter(name, log).successes == |Succeeded(name, log)|
  {
    if log != [] {
      var init, e := log[..|log| - 1], log[|log| - 1];
      CountsMeaning(name, init);
      assert log == init + [e];
      TriedNext(name, init, e);
      assert |init| !in Tried(name, init) && |init| !in Succeeded(name, init);
    }
  }

  /** The kept results are the last ones, in order. */
  lemma RecentMeaning(log: seq<Entry>, i: nat)
    requires i < |Recent(log)|
    ensures |Recent(log)| == Min(|log|, 1000) && Recent(log)[i] == log[|log| - |Recent(log)| + i].result
  {}

  /** What every strategy and the batch start with. */
  lemma Initially(name: Name)
    ensures StatsAfter(name, []) == Stats(0.5, 0.3, 0, 0) && BatchAfter([]) == 50
  {}

  // ---- attempts over all strategies ------------------------------------------

  function TotalAttempts(names: seq<Name>, log: seq<Entry>): nat {
    if names == [] then 0 else TotalAttempts(names[1..], log) + StatsAfter(names[0], log).attempts
  }

  function KnownCount(names: seq<Name>, log: seq<Entry>): nat {
    if log == [] then 0 else
      KnownCount(names, log[..|log| - 1]) + if log[|log| - 1].result.mutationType in names then 1 else 0
  }

  lemma {:induction false} OneMore(names: seq<Name>, log: seq<Entry>)
    requires Distinct(names) && log != []
    ensures TotalAttempts(names, log)
         == TotalAttempts(names, log[..|log| - 1]) + if log[|log| - 1].result.mutationType in names then 1 else 0
  {
    if names != [] {
      OneMore(names[1..], log);
      assert names == [names[0]] + names[1..];
      assert forall i :: 0 <= i < |names[1..]| ==> names[1..][i] == names[i + 1] != names[0];
    }
  }

  lemma {:induction false} NoAttempts(names: seq<Name>)
    ensures TotalAttempts(names, []) == 0
  {
    if names != [] { NoAttempts(names[1..]); }
  }

  /** The attempts of all strategies together are the results whose type is a strategy, so they never
      exceed the number of mutations, and reach it exactly when every result has a known type. */
  lemma {:induction false} AttemptsAddUp(names: seq<Name>, log: seq<Entry>)
    requires Distinct(names)
    ensures TotalAttempts(names, log) == KnownCount(names, log) <= |log|
    ensures TotalAttempts(names, log) == |log|
       <==> forall i :: 0 <= i < |log| ==> log[i].result.mutationType in names
  {
    if log == [] {
      NoAttempts(names);
    } else {
      var init := log[..|log| - 1];
      AttemptsAddUp(names, init);
      OneMore(names, log);
      assert forall i :: 0 <= i < |init| ==> init[i] == log[i];
      assert log == init + [log[|log| - 1]];
    }
  }

  // ---- ranking ---------------------------------------------------------------

  datatype Ranked = Ranked(name: Name, priority: int)

  /** calculateStrategyScore, with the time decay as an outcome. */
  function Score(s: Stats, decay: real): real {
    var baseScore := s.successRate * 0.4 + s.averageSimilarity * 0.4;
    var explorationBonus := if s.attempts < 10 then 0.2 else 0.0;
    var score := baseScore * 0.6 + decay * 0.2 + explorationBonus * 0.2;
    if score > 1.0 then 1.0 else if score < 0.0 then 0.0 else score
  }

  function Priority(s: Stats, decay: real): int {
    (Score(s, decay) * 10.0).Floor
  }

  /** The score of rates in [0,1], with its weights multiplied out; the clamps never act. */
  lemma ScoreExact(s: Stats, decay: real)
    requires Rate(s.successRate) && Rate(s.averageSimilarity) && Rate(decay)
    ensures Score(s, decay)
         == 0.24 * s.successRate + 0.24 * s.averageSimilarity + 0.2 * decay + if s.attempts < 10 then 0.04 else 0.0
  {}

  /** A strategy never tried, and used just now, has priority 4. */
  lemma FirstPriority()
    ensures Score(FRESH, 1.0) == 0.432 && Priority(FRESH, 1.0) == 4
  {}

  /** The share of the way to 1 that a rate has still to go after k updates towards 1. */
  function Remaining(k: nat): real {
    if k == 0 then 1.0 else 0.9 * Remaining(k - 1)
  }

  lemma {:induction false} RemainingFalls(k: nat, n: nat)
    requires k <= n
    ensures Remaining(k) >= Remaining(n) > 0.0
    decreases n
  {
    if k < n { RemainingFalls(k, n - 1); } else if k > 0 { RemainingFalls(k - 1, k - 1); }
  }

  lemma RemainingNine()
    ensures 0.38 < Remaining(9) < 0.39
  {
    assert Remaining(3) == 0.729;
    assert Remaining(6) == 0.9 * 0.9 * 0.9 * Remaining(3);
    assert Remaining(9) == 0.9 * 0.9 * 0.9 * Remaining(6);
  }

  /** Both rates together stay this far from their bound. */
  lemma {:induction false} RatesLag(name: Name, log: seq<Entry>)
    requires Scored(log)
    ensures var s := StatsAfter(name, log); 2.0 - s.successRate - s.averageSimilarity >= 1.2 * Remaining(s.successes)
  {
    if log != [] {
      var init := log[..|log| - 1];
      RatesLag(name, init);
      StatsBounds(name, init);
      var before := StatsAfter(name, init);
      RatioBounds(before.successes + 1, before.attempts + 1);
    }
  }

  /** Over every run of scored results no strategy is ranked above 6, and it is ranked at least 1 exactly
      when its score is at least a tenth. */
  lemma PriorityRange(name: Name, log: seq<Entry>, decay: real)
    requires Scored(log) && Rate(decay)
    ensures 0 <= Priority(StatsAfter(name, log), decay) <= 6
    ensures Priority(StatsAfter(name, log), decay) >= 1 <==> Score(StatsAfter(name, log), decay) >= 0.1
  {
    var s := StatsAfter(name, log);
    StatsBounds(name, log);
    RatesLag(name, log);
    if s.attempts < 10 {
      RemainingFalls(s.successes, 9);
      RemainingNine();
    }
  }

  // ---- runs at both ends of the range ------------------------------------------

  /** n results of this type, all alike. */
  function Repeated(name: Name, success: bool, similarity: real, n: nat): (log: seq<Entry>)
    ensures |log| == n
    ensures n > 0 ==> log[..n - 1] == Repeated(name, success, similarity, n - 1)
  {
    if n == 0 then [] else Repeated(name, success, similarity, n - 1) + [Entry(MutationResult(name, success, similarity), 0.8)]
  }

  lemma {:induction false} RepeatedScored(name: Name, success: bool, similarity: real, n: nat)
    requires Rate(similarity)
    ensures Scored(Repeated(name, success, similarity, n))
  {
    if n > 0 {
      RepeatedScored(name, success, similarity, n - 1);
      ScoredAppend(Repeated(name, success, similarity, n - 1), Entry(MutationResult(name, success, similarity), 0.8));
    }
  }

  lemma ScoredAppend(log: seq<Entry>, e: Entry)
    requires Scored(log) && Rate(e.result.similarity)
    ensures Scored(log + [e])
  {}

  lemma StatsAppend(name: Name, log: seq<Entry>, e: Entry)
    requires e.result.mutationType == name
    ensures StatsAfter(name, log + [e]) == Updated(StatsAfter(name, log), e.result)
  {
    assert (log + [e])[..|log|] == log;
  }

  lemma {:induction false} AllSucceed(name: Name, n: nat)
    ensures StatsAfter(name, Repeated(name, true, 1.0, n))
         == Stats(1.0 - 0.5 * Remaining(n), 1.0 - 0.7 * Remaining(n), n, n)
  {
    if n > 0 {
      AllSucceed(name, n - 1);
      StatsAppend(name, Repeated(name, true, 1.0, n - 1), Entry(MutationResult(name, true, 1.0), 0.8));
      PerfectStep(MutationResult(name, true, 1.0), n);
    }
  }

  lemma WholeRatio(n: nat)
    requires n > 0
    ensures Ratio(n, n) == 1.0
  {}

  lemma PerfectStep(result: MutationResult, n: nat)
    requires n > 0 && result.success && result.similarity == 1.0
    ensures Updated(Stats(1.0 - 0.5 * Remaining(n - 1), 1.0 - 0.7 * Remaining(n - 1), n - 1, n - 1), result)
         == Stats(1.0 - 0.5 * Remaining(n), 1.0 - 0.7 * Remaining(n), n, n)
  {
    WholeRatio(n);
  }

  /** Nine perfect results rank a strategy used just now at 6. */
  lemma TopPriority(name: Name)
    ensures Scored(Repeated(name, true, 1.0, 9))
    ensures Priority(StatsAfter(name, Repeated(name, true, 1.0, 9)), 1.0) == 6
  {
    RepeatedScored(name, true, 1.0, 9);
    AllSucceed(name, 9);
    RemainingNine();
  }

  lemma {:induction false} AllFail(name: Name, n: nat)
    ensures StatsAfter(name, Repeated(name, false, 0.0, n)) == Stats(0.5, 0.3, n, 0)
  {
    if n > 0 {
      AllFail(name, n - 1);
      StatsAppend(name, Repeated(name, false, 0.0, n - 1), Entry(MutationResult(name, false, 0.0), 0.8));
    }
  }

  /** A hundred failures and then n successes of similarity 0. */
  function LateSuccesses(name: Name, n: nat): seq<Entry> {
    Repeated(name, false, 0.0, 100) + Repeated(name, true, 0.0, n)
  }

  lemma {:induction false} LateRates(name: Name, n: nat)
    requires n <= 8
    ensures var s := StatsAfter(name, LateSuccesses(name, n));
      && s.attempts == 100 + n && s.successes == n
      && s.averageSimilarity == 0.3 * Remaining(n) && s.successRate <= 0.08 + 0.42 * Remaining(n)
  {
    if n == 0 {
      AllFail(name, 100);
      assert LateSuccesses(name, 0) == Repeated(name, false, 0.0, 100);
    } else {
      LateRates(name, n - 1);
      var e := Entry(MutationResult(name, true, 0.0), 0.8);
      assert LateSuccesses(name, n) == LateSuccesses(name, n - 1) + [e];
      StatsAppend(name, LateSuccesses(name, n - 1), e);
      LateStep(StatsAfter(name, LateSuccesses(name, n - 1)), e.result, n);
    }
  }

  lemma LateStep(s: Stats, result: MutationResult, n: nat)
    requires 0 < n <= 8 && s.attempts == 99 + n && s.successes == n - 1
    requires s.averageSimilarity == 0.3 * Remaining(n - 1) && s.successRate <= 0.08 + 0.42 * Remaining(n - 1)
    requires result.success && result.similarity == 0.0
    ensures var t := Updated(s, result);
      && t.attempts == 100 + n && t.successes == n
      && t.averageSimilarity == 0.3 * Remaining(n) && t.successRate <= 0.08 + 0.42 * Remaining(n)
  {
    SmallRatio(n, 100 + n);
  }

  lemma SmallRatio(part: nat, whole: nat)
    requires part <= 8 && whole >= 100
    ensures Ratio(part, whole) <= 0.08
  {}

  lemma LateScored(name: Name)
    ensures Scored(LateSuccesses(name, 8))
  {
    RepeatedScored(name, false, 0.0, 100);
    RepeatedScored(name, true, 0.0, 8);
  }

  /** Eight late successes rank a strategy that has not been used for long at 0. */
  lemma NoPriority(name: Name)
    ensures Scored(LateSuccesses(name, 8))
    ensures Priority(StatsAfter(name, LateSuccesses(name, 8)), 0.0) == 0
  {
    LateScored(name);
    LateRates(name, 8);
    StatsBounds(name, LateSuccesses(name, 8));
    assert Remaining(8) * 0.9 == Remaining(9);
    RemainingNine();
  }

  function Names(ranked: seq<Ranked>): (names: seq<Name>)
    ensures |names| == |ranked|
    ensures forall i :: 0 <= i < |ranked| ==> names[i] == ranked[i].name
  {
    seq(|ranked|, i requires 0 <= i < |ranked| => ranked[i].name)
  }

  function BasePosition(n: Name): int {
    match n
    case AddressKnownSubstitution => 0
    case AddressNearbyMutation => 1
    case Uint256BoundaryValues => 2
    case Uint256StepIncrement => 3
    case Uint256Multiplier => 4
    case BoolFlip => 5
    case BytesPatternFill => 6
    case StringLengthMutation => 7
    case StorageAddressMutation => 8
    case StorageBalanceScaling => 9
    case StorageBoolFlip => 10
    case StorageCounterIncrement => 11
    case StorageMappingKeyMutation => 12
    case StorageArrayLengthMutation => 13
    case MultiSlotCoordinated => 14
    case DependencyAwareMutation => 15
    case ExecutionPathGuided => 16
    case Other(_) => -1
  }

  lemma BaseDistinct()
    ensures Distinct(BASE) && |BASE| == 17
  {
    assert forall i :: 0 <= i < 17 ==> BasePosition(BASE[i]) == i;
  }

  function PriorityOf(strategies: map<Name, Stats>, decay: Name -> real, n: Name): int {
    if n in strategies then Priority(strategies[n], decay(n)) else 0
  }

  /** The named strategies once each, by non-increasing priority. */
  predicate RankedPart(ranked: seq<Ranked>, names: set<Name>, strategies: map<Name, Stats>, decay: Name -> real) {
    && Distinct(Names(ranked)) && Elements(Names(ranked)) == names
    && (forall r :: r in ranked ==> r.priority == PriorityOf(strategies, decay, r.name))
    && forall i, j :: 0 <= i < j < |ranked| ==> ranked[i].priority >= ranked[j].priority
  }

  /** What getRankedStrategies may return. */
  predicate IsRanking(ranked: seq<Ranked>, strategies: map<Name, Stats>, decay: Name -> real) {
    RankedPart(ranked, strategies.Keys, strategies, decay)
  }

  /** A strategy that is not among the first k of a ranking has no higher priority than those. */
  lemma FirstRankHighest(ranked: seq<Ranked>, strategies: map<Name, Stats>, decay: Name -> real, k: nat, n: Name, i: nat)
    requires IsRanking(ranked, strategies, decay)
    requires i < k <= |ranked| && n in strategies && n !in Names(ranked[..k])
    ensures PriorityOf(strategies, decay, n) <= PriorityOf(strategies, decay, ranked[i].name)
  {
    assert n in Elements(Names(ranked));
    var j :| 0 <= j < |ranked| && Names(ranked)[j] == n;
    assert forall m :: 0 <= m < k ==> ranked[m].name == Names(ranked[..k])[m] && ranked[m].name in Names(ranked[..k]);
    assert ranked[i] in ranked && ranked[j] in ranked;
  }

  /** No strategy left over ranks above one of these. */
  predicate Above(ranked: seq<Ranked>, pending: set<Name>, strategies: map<Name, Stats>, decay: Name -> real) {
    forall r, n :: r in ranked && n in pending ==> r.priority >= PriorityOf(strategies, decay, n)
  }

  predicate IsBest(best: Name, pending: set<Name>, strategies: map<Name, Stats>, decay: Name -> real) {
    best in pending
    && forall n :: n in pending ==> PriorityOf(strategies, decay, n) <= PriorityOf(strategies, decay, best)
  }

  lemma AboveNext(ranked: seq<Ranked>, pending: set<Name>, strategies: map<Name, Stats>, decay: Name -> real, best: Name)
    requires Above(ranked, pending, strategies, decay) && IsBest(best, pending, strategies, decay)
    ensures Above(ranked + [Ranked(best, PriorityOf(strategies, decay, best))], pending - {best}, strategies, decay)
  {}

  lemma RankNext(ranked: seq<Ranked>, names: set<Name>, strategies: map<Name, Stats>, decay: Name -> real, best: Name)
    requires RankedPart(ranked, names, strategies, decay) && best !in names
    requires forall r :: r in ranked ==> r.priority >= PriorityOf(strategies, decay, best)
    ensures RankedPart(ranked + [Ranked(best, PriorityOf(strategies, decay, best))], names + {best}, strategies, decay)
  {
    var next := Ranked(best, PriorityOf(strategies, decay, best));
    var names', names0 := Names(ranked + [next]), Names(ranked);
    assert names' == names0 + [best];
    assert Elements(names') == Elements(names0) + {best};
    forall i | 0 <= i < |names0|
      ensures names0[i] != best
    {
      assert names0[i] in Elements(names0);
    }
  }

  lemma {:induction false} BestExists(names: set<Name>, f: Name -> int) returns (best: Name)
    requires names != {}
    ensures best in names && forall n :: n in names ==> f(n) <= f(best)
    decreases names
  {
    var any :| any in names;
    if names == {any} {
      best := any;
    } else {
      var rest := BestExists(names - {any}, f);
      best := if f(any) > f(rest) then any else rest;
      assert names == names - {any} + {any};
    }
  }

  method PickBest(pending: set<Name>, strategies: map<Name, Stats>, decay: Name -> real) returns (best: Name)
    requires pending != {}
    ensures IsBest(best, pending, strategies, decay)
  {
    ghost var some := BestExists(pending, n => PriorityOf(strategies, decay, n));
    assert IsBest(some, pending, strategies, decay);
    best :| best in pending && IsBest(best, pending, strategies, decay);
  }

  /** The part ranked so far: what is pending does not rank above it. */
  ghost predicate Ranking(ranked: seq<Ranked>, pending: set<Name>, strategies: map<Name, Stats>, decay: Name -> real) {
    && pending <= strategies.Keys
    && RankedPart(ranked, strategies.Keys - pending, strategies, decay)
    && Above(ranked, pending, strategies, decay)
  }

  method RankOne(ranked: seq<Ranked>, pending: set<Name>, strategies: map<Name, Stats>, decay: Name -> real)
    returns (best: Name, more: seq<Ranked>)
    requires Ranking(ranked, pending, strategies, decay) && pending != {}
    ensures best in pending && Ranking(more, pending - {best}, strategies, decay)
  {
    best := PickBest(pending, strategies, decay);
    more := ranked + [Ranked(best, PriorityOf(strategies, decay, best))];
    RankNext(ranked, strategies.Keys - pending, strategies, decay, best);
    AboveNext(ranked, pending, strategies, decay, best);
    assert strategies.Keys - (pending - {best}) == strategies.Keys - pending + {best};
  }

  /** Copying and sorting; ties come in any order. */
  method Rank(strategies: map<Name, Stats>, decay: Name -> real) returns (ranked: seq<Ranked>)
    ensures IsRanking(ranked, strategies, decay)
  {
    ranked := [];
    var pending := strategies.Keys;
    assert strategies.Keys - pending == Elements(Names(ranked));
    while pending != {}
      invariant Ranking(ranked, pending, strategies, decay)
      decreases |pending|
    {
      var best;
      best, ranked := RankOne(ranked, pending, strategies, decay);
      pending := pending - {best};
    }
    assert strategies.Keys - pending == strategies.Keys;
  }

  // ---- plans -----------------------------------------------------------------

  datatype StoragePlan = StoragePlan(strategy: Name, targetSlot: nat, slotType: SlotType, variant: nat, priority: int)
  datatype InputPlan = InputPlan(strategy: Name, targetArgIndex: nat, variant: nat, priority: int)
  datatype Plan = Plan(totalVariants: int, storageMutations: seq<StoragePlan>, inputMutations: seq<InputPlan>,
                       priorityOrder: seq<Name>)

  function ParamCount(inputLength: nat): nat {
    if inputLength <= 4 then 0 else (inputLength - 4) / 32
  }

  /** selectTargetPositions: every strategy gets all parameter positions. */
  method SelectTargetPositions(inputLength: nat) returns (positions: seq<nat>)
    ensures |positions| == ParamCount(inputLength)
    ensures forall i :: 0 <= i < |positions| ==> positions[i] == i
  {
    positions := [];
    var i := 0;
    while i < ParamCount(inputLength)
      invariant 0 <= i <= ParamCount(inputLength) && |positions| == i
      invariant forall j :: 0 <= j < i ==> positions[j] == j
    {
      positions := positions + [i];
      i := i + 1;
    }
  }

  function StoragePart(r: Ranked, targets: seq<SlotInfo>, variants: nat): (plans: seq<StoragePlan>)
    ensures |plans| == Min(variants, |targets|)
  {
    seq(Min(variants, |targets|), i requires 0 <= i < Min(variants, |targets|) =>
      StoragePlan(r.name, targets[i].slot, targets[i].slotType, i, r.priority))
  }

  function InputPart(r: Ranked, inputLength: nat, variants: nat): (plans: seq<InputPlan>)
    ensures |plans| == Min(variants, ParamCount(inputLength))
  {
    seq(Min(variants, ParamCount(inputLength)), i requires i >= 0 => InputPlan(r.name, i, i, r.priority))
  }

  method GenerateStorageMutationPlans(r: Ranked, targetSlots: seq<SlotInfo>, variants: nat) returns (plans: seq<StoragePlan>)
    ensures plans == StoragePart(r, targetSlots, variants)
  {
    plans := [];
    var i := 0;
    while i < variants && i < |targetSlots|
      invariant 0 <= i <= Min(variants, |targetSlots|) && |plans| == i
      invariant forall j :: 0 <= j < i ==>
        plans[j] == StoragePlan(r.name, targetSlots[j].slot, targetSlots[j].slotType, j, r.priority)
    {
      plans := plans + [StoragePlan(r.name, targetSlots[i].slot, targetSlots[i].slotType, i, r.priority)];
      i := i + 1;
    }
  }

  method GenerateInputMutationPlans(r: Ranked, inputLength: nat, variants: nat) returns (plans: seq<InputPlan>)
    ensures plans == InputPart(r, inputLength, variants)
  {
    var targetPositions := SelectTargetPositions(inputLength);
    plans := [];
    var i := 0;
    while i < variants && i < |targetPositions|
      invariant 0 <= i <= Min(variants, |targetPositions|) && |plans| == i
      invariant forall j :: 0 <= j < i ==> plans[j] == InputPlan(r.name, j, j, r.priority)
    {
      plans := plans + [InputPlan(r.name, targetPositions[i], i, r.priority)];
      i := i + 1;
    }
  }

  /** A planned strategy with the slots selected for it, none for an input strategy. */
  datatype Share = Share(ranked: Ranked, targets: seq<SlotInfo>)

  /** What the storage strategies contribute, m variants each. */
  function StoragePlans(shares: seq<Share>, m: nat): seq<StoragePlan> {
    if shares == [] then [] else
      var last := shares[|shares| - 1];
      StoragePlans(shares[..|shares| - 1], m)
      + if last.ranked.name.IsStorage() then StoragePart(last.ranked, last.targets, m) else []
  }

  function InputPlans(shares: seq<Share>, inputLength: nat, m: nat): seq<InputPlan> {
    if shares == [] then [] else
      var last := shares[|shares| - 1];
      InputPlans(shares[..|shares| - 1], inputLength, m)
      + if last.ranked.name.IsStorage() then [] else InputPart(last.ranked, inputLength, m)
  }

  /** Variants for each strategy, when there are n strategies. */
  function PerStrategy(batch: nat, n: nat): (m: nat)
    requires n > 0
    ensures m >= 1
  {
    if batch / n < 1 then 1 else batch / n
  }

  /** The share is one variant until there are two for each strategy, and then an even part. */
  lemma ShareMeaning(batch: nat, n: nat)
    requires n > 0
    ensures batch < 2 * n ==> PerStrategy(batch, n) == 1
    ensures batch >= n ==> PerStrategy(batch, n) * n <= batch < (PerStrategy(batch, n) + 1) * n
  {
    DivBound(batch, n);
    if batch / n >= 2 { MulMonotone(2, batch / n, n); }
  }

  /** k strategies of m variants each. */
  function Used(k: nat, m: nat): nat {
    if k == 0 then 0 else Used(k - 1, m) + m
  }

  lemma {:induction false} UsedIsProduct(k: nat, m: nat)
    ensures Used(k, m) == k * m
  {
    if k > 0 {
      UsedIsProduct(k - 1, m);
      assert k * m == (k - 1) * m + m;
    }
  }

  lemma {:induction false} PlanSize(shares: seq<Share>, inputLength: nat, m: nat)
    ensures |StoragePlans(shares, m)| + |InputPlans(shares, inputLength, m)| <= Used(|shares|, m)
  {
    if shares != [] {
      PlanSize(shares[..|shares| - 1], inputLength, m);
    }
  }

  /** Every planned argument is a whole 32-byte word of the input, and its variant is its index. */
  lemma {:induction false} PlannedArguments(shares: seq<Share>, inputLength: nat, m: nat)
    ensures forall p :: p in InputPlans(shares, inputLength, m) ==>
      4 + 32 * (p.targetArgIndex + 1) <= inputLength && p.variant == p.targetArgIndex < m
  {
    if shares != [] {
      PlannedArguments(shares[..|shares| - 1], inputLength, m);
    }
  }

  predicate ShareFits(share: Share, slots: seq<SlotInfo>) {
    share.ranked.name.IsStorage() ==> Selected(share.ranked.name, slots, share.targets)
  }

  predicate PlansSlot(p: StoragePlan, slot: SlotInfo) {
    p.targetSlot == slot.slot && p.slotType == slot.slotType
  }

  /** Every planned slot is one of the given slots, of a kind that its strategy accepts. */
  lemma {:induction false} PlannedSlots(shares: seq<Share>, slots: seq<SlotInfo>, m: nat, p: StoragePlan)
    returns (slot: SlotInfo)
    requires forall i :: 0 <= i < |shares| ==> ShareFits(shares[i], slots)
    requires p in StoragePlans(shares, m)
    ensures slot in slots && p.strategy.IsStorage() && p.strategy.Accepts(slot)
    ensures PlansSlot(p, slot) && p.variant < m
  {
    var last := shares[|shares| - 1];
    if p in StoragePlans(shares[..|shares| - 1], m) {
      slot := PlannedSlots(shares[..|shares| - 1], slots, m, p);
    } else {
      assert ShareFits(last, slots);
      var i :| 0 <= i < Min(m, |last.targets|) && p == StoragePart(last.ranked, last.targets, m)[i];
      slot := last.targets[i];
      SelectedAccepted(last.ranked.name, slots, last.targets, slot);
    }
  }

  /** An input strategy plans every whole word of the input, up to its share, and nothing else is planned. */
  lemma {:induction false} InputPlansExactly(shares: seq<Share>, inputLength: nat, m: nat, p: InputPlan)
    ensures p in InputPlans(shares, inputLength, m)
       <==> p.targetArgIndex == p.variant < m && 4 + 32 * (p.variant + 1) <= inputLength
            && exists s :: s in shares && !s.ranked.name.IsStorage() && s.ranked == Ranked(p.strategy, p.priority)
  {
    if shares != [] {
      var init, last := shares[..|shares| - 1], shares[|shares| - 1];
      InputPlansExactly(init, inputLength, m, p);
      assert shares == init + [last];
      if p.targetArgIndex == p.variant < Min(m, ParamCount(inputLength)) && last.ranked == Ranked(p.strategy, p.priority) {
        assert InputPart(last.ranked, inputLength, m)[p.variant] == p;
      }
    }
  }

  predicate PlansTarget(p: StoragePlan, s: Share) {
    && s.ranked.name.IsStorage() && s.ranked == Ranked(p.strategy, p.priority)
    && p.variant < |s.targets| && PlansSlot(p, s.targets[p.variant])
  }

  /** A storage strategy plans the first of its slots, up to its share, the i-th with variant i. */
  lemma {:induction false} StoragePlansExactly(shares: seq<Share>, m: nat, p: StoragePlan)
    ensures p in StoragePlans(shares, m)
       <==> p.variant < m && exists s :: s in shares && PlansTarget(p, s)
  {
    if shares != [] {
      var init, last := shares[..|shares| - 1], shares[|shares| - 1];
      StoragePlansExactly(init, m, p);
      assert shares == init + [last];
      if last.ranked.name.IsStorage() { StoragePartExactly(last, m, p); }
    }
  }

  lemma StoragePartExactly(s: Share, m: nat, p: StoragePlan)
    requires s.ranked.name.IsStorage()
    ensures p in StoragePart(s.ranked, s.targets, m) <==> p.variant < m && PlansTarget(p, s)
  {
    if p.variant < m && PlansTarget(p, s) {
      assert StoragePart(s.ranked, s.targets, m)[p.variant] == p;
    }
  }

  method AddStrategy(plan: Plan, r: Ranked, slots: seq<SlotInfo>, inputLength: nat, variants: nat)
    returns (more: Plan, ghost share: Share)
    ensures share.ranked == r && ShareFits(share, slots)
    ensures more.totalVariants == plan.totalVariants && more.priorityOrder == plan.priorityOrder + [r.name]
    ensures more.storageMutations == plan.storageMutations
                                     + if r.name.IsStorage() then StoragePart(r, share.targets, variants) else []
    ensures more.inputMutations == plan.inputMutations
                                   + if r.name.IsStorage() then [] else InputPart(r, inputLength, variants)
  {
    more := plan.(priorityOrder := plan.priorityOrder + [r.name]);
    share := Share(r, []);
    if r.name.IsStorage() {
      var targets := SelectTargetSlots(r.name, slots);
      share := Share(r, targets);
      var plans := GenerateStorageMutationPlans(r, targets, variants);
      more := more.(storageMutations := plan.storageMutations + plans);
    } else {
      var plans := GenerateInputMutationPlans(r, inputLength, variants);
      more := more.(inputMutations := plan.inputMutations + plans);
    }
  }

  /** The plan's contents, by the shares of its strategies. */
  predicate Planned(plan: Plan, shares: seq<Share>, inputLength: nat, m: nat) {
    && plan.storageMutations == StoragePlans(shares, m)
    && plan.inputMutations == InputPlans(shares, inputLength, m)
  }

  /** The shares are those of the first strategies of the ranking. */
  predicate SharesOf(shares: seq<Share>, ranked: seq<Ranked>, slots: seq<SlotInfo>) {
    && |shares| <= |ranked|
    && forall i :: 0 <= i < |shares| ==> shares[i].ranked == ranked[i] && ShareFits(shares[i], slots)
  }

  method PlanNext(plan: Plan, ranked: seq<Ranked>, ghost shares: seq<Share>, slots: seq<SlotInfo>, k: nat,
                  inputLength: nat, m: nat)
    returns (more: Plan, ghost shares': seq<Share>)
    requires k == |shares| < |ranked| && SharesOf(shares, ranked, slots) && Planned(plan, shares, inputLength, m)
    requires plan.priorityOrder == Names(ranked[..k])
    ensures |shares'| == k + 1 && SharesOf(shares', ranked, slots) && Planned(more, shares', inputLength, m)
    ensures more.priorityOrder == Names(ranked[..k + 1]) && more.totalVariants == plan.totalVariants
  {
    ghost var share;
    more, share := AddStrategy(plan, ranked[k], slots, inputLength, m);
    shares' := shares + [share];
    assert shares'[..k] == shares;
  }

  /** While fewer than all n strategies, and fewer variants than the batch, are planned, there is room
      for the full share of one more. */
  lemma Room(batch: nat, n: nat, k: nat)
    requires n > 0 && k < n && Used(k, PerStrategy(batch, n)) < batch
    ensures Used(k, PerStrategy(batch, n)) + PerStrategy(batch, n) <= batch
  {
    var m := PerStrategy(batch, n);
    DivBound(batch, n);
    if batch >= n {
      UsedIsProduct(k + 1, m);
      MulMonotone(k + 1, n, m);
    }
  }

  lemma DivBound(a: nat, n: nat)
    requires n > 0
    ensures n * (a / n) <= a < n * (a / n) + n
    ensures a >= n ==> a / n >= 1
    ensures a < n ==> a / n == 0
  {}

  lemma MulMonotone(a: nat, b: nat, m: nat)
    requires a <= b
    ensures a * m <= b * m
    ensures a < b && m > 0 ==> a * m < b * m
  {}

  /** The planning loop stops after min(n, batch) strategies. */
  lemma Stops(batch: nat, n: nat, k: nat)
    requires n > 0 && k <= n && Used(k, PerStrategy(batch, n)) <= batch
    requires k == n || Used(k, PerStrategy(batch, n)) >= batch
    ensures k == Min(n, batch)
  {
    DivBound(batch, n);
    UsedIsProduct(k, PerStrategy(batch, n));
    if batch >= n {
      MulMonotone(k, n, PerStrategy(batch, n));
    }
  }

  /** The planning loop. */
  method BuildPlan(sorted: seq<Ranked>, batch: nat, slots: seq<SlotInfo>, inputLength: nat)
    returns (plan: Plan, ghost shares: seq<Share>)
    requires |sorted| > 0
    ensures plan.totalVariants == batch
    ensures |shares| == Min(|sorted|, batch) && SharesOf(shares, sorted, slots)
    ensures plan.priorityOrder == Names(sorted[..|shares|])
    ensures Planned(plan, shares, inputLength, PerStrategy(batch, |sorted|))
    ensures |plan.storageMutations| + |plan.inputMutations| <= batch
  {
    var maxVariantsPerStrategy := batch / |sorted|;
    if maxVariantsPerStrategy < 1 { maxVariantsPerStrategy := 1; }
    plan := Plan(batch, [], [], []);
    shares := [];
    var variantCount := 0;
    var k := 0;
    while k < |sorted| && variantCount < batch
      invariant 0 <= k == |shares| <= |sorted| && variantCount == Used(k, maxVariantsPerStrategy) <= batch
      invariant plan.totalVariants == batch && plan.priorityOrder == Names(sorted[..k])
      invariant SharesOf(shares, sorted, slots) && Planned(plan, shares, inputLength, maxVariantsPerStrategy)
    {
      var strategyVariants := maxVariantsPerStrategy;
      if variantCount + strategyVariants > batch {
        strategyVariants := batch - variantCount;
      }
      Room(batch, |sorted|, k);
      plan, shares := PlanNext(plan, sorted, shares, slots, k, inputLength, strategyVariants);
      variantCount := variantCount + strategyVariants;
      k := k + 1;
    }
    Stops(batch, |sorted|, k);
    PlanSize(shares, inputLength, maxVariantsPerStrategy);
  }

  // ---- the manager -----------------------------------------------------------

  class SmartMutationStrategy {
    var strategies: map<Name, Stats>
    var recentResults: seq<MutationResult>
    var similarityThreshold: real
    var adaptiveBatchSize: int
    var totalMutations: nat
    var highSimilarityCount: nat
    /** The strategies, and the results recorded since the last reset. */
    ghost const names: set<Name>
    ghost var log: seq<Entry>

    ghost predicate Valid()
      reads this
    {
      && strategies.Keys == names && |names| == 17
      && StatsOf(strategies, log)
      && recentResults == Recent(log)
      && totalMutations == |log|
      && highSimilarityCount == HighCount(log)
      && adaptiveBatchSize == BatchAfter(log)
    }

    constructor (threshold: real)
      ensures Valid() && names == Elements(BASE) && log == [] && similarityThreshold == threshold
    {
      BaseDistinct();
      DistinctCount(BASE);
      names := Elements(BASE);
      strategies := map n | n in Elements(BASE) :: FRESH;
      recentResults, similarityThreshold, adaptiveBatchSize := [], threshold, 50;
      totalMutations, highSimilarityCount, log := 0, 0, [];
    }

    method RecordMutationResult(result: MutationResult)
      requires Valid()
      modifies this
      ensures Valid() && log == old(log) + [Entry(result, old(similarityThreshold))]
      ensures similarityThreshold == old(similarityThreshold)
    {
      Recorded(log, Entry(result, similarityThreshold));
      StatsRecorded(strategies, log, Entry(result, similarityThreshold));
      log := log + [Entry(result, similarityThreshold)];
      recentResults := recentResults + [result];
      if |recentResults| > MAX_RECENT { recentResults := recentResults[1..]; }
      CountAttempt(result);
      totalMutations := totalMutations + 1;
      if result.similarity >= similarityThreshold {
        highSimilarityCount := highSimilarityCount + 1;
      }
      AdaptBatchSize();
    }

    method CountAttempt(result: MutationResult)
      modifies this`strategies
      ensures strategies == Counted(old(strategies), result)
    {
      if result.mutationType in strategies {
        strategies := strategies[result.mutationType := Updated(strategies[result.mutationType], result)];
      }
    }

    method AdaptBatchSize()
      modifies this`adaptiveBatchSize
      ensures adaptiveBatchSize == Adapted(old(adaptiveBatchSize), highSimilarityCount, totalMutations)
    {
      if totalMutations < 10 { return; }
      var recentSuccessRate := Ratio(highSimilarityCount, totalMutations);
      if recentSuccessRate > 0.3 {
        adaptiveBatchSize := (adaptiveBatchSize as real * 1.1).Floor;
      } else if recentSuccessRate < 0.1 {
        adaptiveBatchSize := (adaptiveBatchSize as real * 0.9).Floor;
      }
      if adaptiveBatchSize < MIN_BATCH { adaptiveBatchSize := MIN_BATCH; }
      if adaptiveBatchSize > MAX_BATCH { adaptiveBatchSize := MAX_BATCH; }
    }

    method UpdateSimilarityThreshold(threshold: real)
      requires Valid()
      modifies this`similarityThreshold
      ensures Valid() && similarityThreshold == threshold
    {
      similarityThreshold := threshold;
    }

    method ResetStrategies()
      requires Valid()
      modifies this
      ensures Valid() && log == [] && similarityThreshold == old(similarityThreshold)
    {
      strategies := map n | n in strategies :: FRESH;
      recentResults := [];
      totalMutations, highSimilarityCount, adaptiveBatchSize, log := 0, 0, 50, [];
    }

    /** GetOptimalMutationPlan: the first min(17, batch) strategies of a ranking, each with the same
        number of variants on the slots or arguments selected for it. */
    method GetOptimalMutationPlan(decay: Name -> real, slots: seq<SlotInfo>, inputLength: nat)
      returns (plan: Plan, ghost ranked: seq<Ranked>, ghost shares: seq<Share>)
      requires Valid()
      ensures IsRanking(ranked, strategies, decay) && |ranked| == 17
      ensures plan.totalVariants == adaptiveBatchSize >= 10
      ensures |shares| == Min(17, adaptiveBatchSize) && SharesOf(shares, ranked, slots)
      ensures plan.priorityOrder == Names(ranked[..|shares|])
      ensures Planned(plan, shares, inputLength, PerStrategy(adaptiveBatchSize, 17))
      ensures |plan.storageMutations| + |plan.inputMutations| <= plan.totalVariants
    {
      BatchBounds(log);
      var sorted := Rank(strategies, decay);
      DistinctCount(Names(sorted));
      ranked := sorted;
      plan, shares := BuildPlan(sorted, adaptiveBatchSize, slots, inputLength);
    }
  }
}
