/** txmgr/send_state.go: what the transaction manager remembers of its submissions. */
module SendStates {
  type Hash = nat

  /** The outcome of publishing; the two flags are the substring tests on the error text. */
  datatype SendResult = Ok | Failure(nonceTooLow: bool, canceled: bool)

  datatype SendEvent = Sent(result: SendResult) | Mined(hash: Hash) | NotMined(hash: Hash)

  predicate TooLow(e: SendEvent) {
    e.Sent? && e.result.Failure? && e.result.nonceTooLow
  }

  function MinedSet(log: seq<SendEvent>): set<Hash> {
    if log == [] then {}
    else
      var before, e := MinedSet(log[..|log| - 1]), log[|log| - 1];
      match e
      case Sent(_) => before
      case Mined(h) => before + {h}
      case NotMined(h) => before - {h}
  }

  function NonceCount(log: seq<SendEvent>): nat {
    if log == [] then 0
    else
      var init, e := log[..|log| - 1], log[|log| - 1];
      if TooLow(e) then NonceCount(init) + 1
      else if e.NotMined? && e.hash in MinedSet(init) && MinedSet(init) - {e.hash} == {} then 0
      else NonceCount(init)
  }

  // ---- the history in plain terms --------------------------------------------

  /** The last report about h says that it is mined. */
  ghost predicate LastReportedMined(log: seq<SendEvent>, h: Hash) {
    exists k :: 0 <= k < |log| && log[k] == Mined(h) && forall j :: k < j < |log| ==> log[j] != NotMined(h)
  }

  lemma {:induction false} MinedSetMeaning(log: seq<SendEvent>, h: Hash)
    ensures h in MinedSet(log) <==> LastReportedMined(log, h)
  {
    if log != [] {
      var n := |log| - 1;
      var init, e := log[..n], log[n];
      MinedSetMeaning(init, h);
      if e == Mined(h) {
        assert log[n] == Mined(h);
      } else if e != NotMined(h) {
        if LastReportedMined(init, h) {
          var k :| 0 <= k < n && init[k] == Mined(h) && forall j :: k < j < n ==> init[j] != NotMined(h);
          assert log[k] == Mined(h);
        }
        if LastReportedMined(log, h) {
          var k :| 0 <= k < |log| && log[k] == Mined(h) && forall j :: k < j < |log| ==> log[j] != NotMined(h);
          assert init[k] == Mined(h);
        }
      }
    }
  }

  /** Event k takes the last mined transaction back. */
  ghost predicate Empties(log: seq<SendEvent>, k: nat)
    requires k < |log|
  {
    log[k].NotMined? && MinedSet(log[..k]) == {log[k].hash}
  }

  function TooLowCount(log: seq<SendEvent>): nat {
    if log == [] then 0 else TooLowCount(log[..|log| - 1]) + if TooLow(log[|log| - 1]) then 1 else 0
  }

  /** The errors that say the nonce is too low. */
  function TooLowAt(log: seq<SendEvent>): set<nat> {
    set k | 0 <= k < |log| && log[k] in {Sent(Failure(true, false)), Sent(Failure(true, true))}
  }

  lemma {:induction false} TooLowCountMeaning(log: seq<SendEvent>)
    ensures TooLowCount(log) == |TooLowAt(log)|
  {
    if log != [] {
      var n := |log| - 1;
      TooLowCountMeaning(log[..n]);
      assert TooLowAt(log) == TooLowAt(log[..n]) + if TooLow(log[n]) then {n} else {};
    }
  }

  lemma OnlyMember(s: set<Hash>, h: Hash)
    ensures h in s && s - {h} == {} <==> s == {h}
  {}

  /** The counter is the number of nonce-too-low errors since the mined set was last emptied. */
  lemma {:induction false} NonceCountMeaning(log: seq<SendEvent>, start: nat)
    requires start <= |log|
    requires start == 0 || Empties(log, start - 1)
    requires forall k: nat :: start <= k < |log| ==> !Empties(log, k)
    ensures NonceCount(log) == TooLowCount(log[start..])
    decreases |log|
  {
    if start == |log| {
      if start > 0 {
        var init, h := log[..start - 1], log[start - 1].hash;
        assert MinedSet(init) == {h};
      }
    } else {
      var n := |log| - 1;
      var init := log[..n];
      forall k: nat | k < n ensures Empties(init, k) <==> Empties(log, k) {
        assert init[..k] == log[..k];
      }
      NonceCountMeaning(init, start);
      assert log[start..][..n - start] == init[start..];
      assert !Empties(log, n);
      if log[n].NotMined? { OnlyMember(MinedSet(init), log[n].hash); }
    }
  }

  /** The whole SendState class, refining its history. */
  class SendState {
    var minedTxs: set<Hash>
    var nonceTooLowCount: nat
    const safeAbortNonceTooLowCount: nat
    ghost var log: seq<SendEvent>

    ghost predicate Valid()
      reads this
    {
      minedTxs == MinedSet(log) && nonceTooLowCount == NonceCount(log)
    }

    constructor (safeAbort: nat)
      requires safeAbort > 0
      ensures Valid() && log == [] && safeAbortNonceTooLowCount == safeAbort
    {
      minedTxs, nonceTooLowCount, safeAbortNonceTooLowCount := {}, 0, safeAbort;
      log := [];
    }

    method ProcessSendError(result: SendResult)
      requires Valid()
      modifies this
      ensures Valid() && log == old(log) + [Sent(result)]
    {
      log := log + [Sent(result)];
      if result.Ok? { return; }
      if !result.nonceTooLow { return; }
      nonceTooLowCount := nonceTooLowCount + 1;
    }

    method TxMined(txHash: Hash)
      requires Valid()
      modifies this
      ensures Valid() && log == old(log) + [Mined(txHash)]
    {
      log := log + [Mined(txHash)];
      minedTxs := minedTxs + {txHash};
    }

    method TxNotMined(txHash: Hash)
      requires Valid()
      modifies this
      ensures Valid() && log == old(log) + [NotMined(txHash)]
    {
      log := log + [NotMined(txHash)];
      var wasMined := txHash in minedTxs;
      minedTxs := minedTxs - {txHash};
      if |minedTxs| == 0 && wasMined {
        nonceTooLowCount := 0;
      }
    }

    method ShouldAbortImmediately() returns (abort: bool)
      requires Valid()
      ensures abort <==> (forall h :: !LastReportedMined(log, h)) && NonceCount(log) >= safeAbortNonceTooLowCount
      ensures abort <==> MinedSet(log) == {} && NonceCount(log) >= safeAbortNonceTooLowCount
    {
      forall h ensures h in minedTxs <==> LastReportedMined(log, h) { MinedSetMeaning(log, h); }
      if |minedTxs| > 0 {
        assert exists h :: h in minedTxs;
        return false;
      }
      assert minedTxs == {};
      return nonceTooLowCount >= safeAbortNonceTooLowCount;
    }

    method IsWaitingForConfirmation() returns (waiting: bool)
      requires Valid()
      ensures waiting <==> exists h :: LastReportedMined(log, h)
      ensures waiting <==> MinedSet(log) != {}
    {
      forall h ensures h in minedTxs <==> LastReportedMined(log, h) { MinedSetMeaning(log, h); }
      waiting := |minedTxs| > 0;
      if waiting {
        var h :| h in minedTxs;
      } else {
        assert minedTxs == {};
      }
    }
  }
}
