/** synchronizer/node/header_traversal.go, common/bigint/bigint.go and the range request of
    synchronizer/node/node.go: following a chain of headers through a provider that may reorganise
    between calls. */
module HeaderTraversal {

  import opened Common
  import opened Bytes

  type Hash = nat

  datatype Header = Header(number: nat, hash: Hash, parentHash: Hash)

  // ---- bigint.Clamp ----------------------------------------------------------

  /** Clamp: the uint64 of a big difference is the low 64 bits of its magnitude. */
  function Clamp(start: int, end: int, size: nat): int
    requires size < TWO64
  {
    var gap := if end >= start then end - start else start - end;
    var count := (gap % TWO64 + 1) % TWO64;
    if count <= size then end else start + ToInt64(size - 1)
  }

  /** The sizes that fit a range: not zero, and not past 2^63 unless the whole range fits. */
  predicate Fits(start: int, end: int, size: nat) {
    size > 0 && (size <= TWO63 || end - start + 1 <= size)
  }

  /** On ranges of fewer than 2^64 heights, and for every uint64 size: Clamp keeps a part of the range
      that has at most size heights exactly for the sizes that fit, and then it keeps as many as it can. */
  lemma ClampMeaning(start: int, end: int, size: nat)
    requires start <= end < start + TWO64 - 1 && size < TWO64
    ensures start <= Clamp(start, end, size) <= end && Clamp(start, end, size) - start + 1 <= size
       <==> Fits(start, end, size)
    ensures Fits(start, end, size) ==>
      Clamp(start, end, size) == if end - start + 1 <= size then end else start + size - 1
  {}

  /** A size above 2^63 gives an end before the start, and so does zero. */
  lemma ClampInverts()
    ensures Clamp(1, TWO63 + 2, TWO63 + 1) < 1
    ensures Clamp(1, 2, 0) < 1
  {}

  /** How many heights the client asks for, upward from the start: it takes the magnitude of the
      difference, so an end before the start counts too. */
  function Asked(start: int, end: int): nat {
    (Magnitude(end - start) % TWO64 + 1) % TWO64
  }

  /** How many of the heights that are left one call asks for. */
  function Batched(left: nat, size: nat): nat
    requires size < TWO64
  {
    if left <= size then left else if size == 0 then 2 else if size <= TWO63 then size else TWO64 - size + 2
  }

  /** For every size, clamping and then asking amounts to that; and for every size but zero it is some of
      the heights that are left, and at most the size. */
  lemma AskedByClamp(start: int, end: int, size: nat)
    requires start <= end < start + TWO64 - 1 && size < TWO64
    ensures Asked(start, Clamp(start, end, size)) == Batched(end - start + 1, size) > 0
    ensures size > 0 ==> Batched(end - start + 1, size) <= end - start + 1 && Batched(end - start + 1, size) <= size
  {
    ShortGap(end - start);
    ClampEnd(start, end, size);
    ShortGap(Magnitude(Clamp(start, end, size) - start));
    if size > 0 { BatchedBound(end - start + 1, size); }
  }

  /** Clamp without its 64-bit arithmetic. */
  lemma ClampEnd(start: int, end: int, size: nat)
    requires start <= end < start + TWO64 - 1 && size < TWO64
    ensures Clamp(start, end, size)
         == if end - start + 1 <= size then end
            else start + (size - 1) - (if size > TWO63 then TWO64 else 0)
  {
    ShortGap(end - start);
    LowSize(size - 1);
  }

  lemma LowSize(x: int)
    requires -1 <= x < TWO64 - 1
    ensures ToInt64(x) == if x >= TWO63 then x - TWO64 else x
  {}

  lemma ShortGap(gap: nat)
    requires gap < TWO64 - 1
    ensures (gap % TWO64 + 1) % TWO64 == gap + 1
  {}

  // ---- the provider ----------------------------------------------------------

  datatype LatestReply = LatestError | LatestMissing | Latest(header: Header)

  datatype RangeReply = RangeError | Headers(headers: seq<Header>)

  /** What the provider answers during one call. */
  datatype Provider = Provider(latest: LatestReply, range: (nat, int) -> RangeReply)

  predicate Follows(h: Header, next: Header) {
    next.number == h.number + 1 && next.parentHash == h.hash
  }

  /** Consecutive heights, each header naming its predecessor. */
  predicate Linked(hs: seq<Header>) {
    forall i :: 0 < i < |hs| ==> Follows(hs[i - 1], hs[i])
  }

  /** The answer to a request for n heights comes from one chain: it starts at the first height asked
      for, is linked, and is not longer than that. It may fall short. */
  predicate OneChain(hs: seq<Header>, start: nat, n: nat) {
    && Linked(hs)
    && (|hs| > 0 ==> hs[0].number == start)
    && |hs| <= n
  }

  ghost predicate AnswersFromOneChain(p: Provider) {
    forall start: nat, end: int :: p.range(start, end).Headers? ==>
      OneChain(p.range(start, end).headers, start, Asked(start, end))
  }

  // ---- the traversal ---------------------------------------------------------

  datatype Failure = LatestFailed | LatestUnreported | AheadOfProvider | RangeFailed | MismatchedState

  datatype Result = Batch(headers: seq<Header>) | Error(failure: Failure)

  /** The headers that one call has moved past. */
  function Emitted(r: Result): seq<Header> {
    if r.Batch? then r.headers else []
  }

  /** The heights of a provider are 64-bit. */
  predicate Bounded(p: Provider) {
    p.latest.Latest? ==> p.latest.header.number < TWO64 - 1
  }

  /** What one call returns from a given position. */
  function NextResult(p: Provider, depth: nat, last: Header, maxSize: nat): Result
    requires maxSize < TWO64
  {
    match p.latest
    case LatestError => Error(LatestFailed)
    case LatestMissing => Error(LatestUnreported)
    case Latest(head) =>
      var endHeight := head.number - depth;
      if endHeight < 0 || last.number == endHeight then Batch([])
      else if last.number > endHeight then Error(AheadOfProvider)
      else
        match p.range(last.number + 1, Clamp(last.number + 1, endHeight, maxSize))
        case RangeError => Error(RangeFailed)
        case Headers(hs) =>
          if |hs| > 0 && hs[0].parentHash != last.hash then Error(MismatchedState) else Batch(hs)
  }

  /** The position after a call: the last header emitted, or the same as before. */
  function Position(last: Header, emitted: seq<Header>): Header {
    ([last] + emitted)[|emitted|]
  }

  /** Height n has enough confirmations at the provider's latest header. */
  predicate Confirms(p: Provider, depth: nat, n: nat) {
    p.latest.Latest? && n + depth <= p.latest.header.number
  }

  /** One call, for every size but zero: it emits a linked run of at most maxSize headers that continues
      the position, and never passes the confirmed height. */
  lemma NextExtends(p: Provider, depth: nat, last: Header, maxSize: nat)
    requires AnswersFromOneChain(p) && Bounded(p) && 0 < maxSize < TWO64
    ensures var hs := Emitted(NextResult(p, depth, last, maxSize));
      && Linked([last] + hs) && |hs| <= maxSize
      && (hs != [] ==> Confirms(p, depth, Position(last, hs).number))
  {
    var hs := Emitted(NextResult(p, depth, last, maxSize));
    if hs != [] {
      var target := p.latest.header.number - depth;
      AskedByClamp(last.number + 1, target, maxSize);
      assert OneChain(hs, last.number + 1, Asked(last.number + 1, Clamp(last.number + 1, target, maxSize)));
      LinkedHeight(hs, |hs| - 1);
      LinkedJoin([last], hs);
    }
  }

  /** There is a height above the position that has enough confirmations. */
  predicate Left(p: Provider, depth: nat, last: Header) {
    Confirms(p, depth, last.number + 1)
  }

  /** The provider's reply to the request for the heights above the position. */
  function Reply(p: Provider, depth: nat, last: Header, maxSize: nat): RangeReply
    requires Left(p, depth, last) && maxSize < TWO64
  {
    p.range(last.number + 1, Clamp(last.number + 1, p.latest.header.number - depth, maxSize))
  }

  /** The exact table of results, from the provider's replies: each error, the empty batch, and the
      batches of headers, which are the reply. */
  lemma NextErrors(p: Provider, depth: nat, last: Header, maxSize: nat)
    requires maxSize < TWO64
    ensures var r := NextResult(p, depth, last, maxSize);
      && (r == Error(LatestFailed) <==> p.latest.LatestError?)
      && (r == Error(LatestUnreported) <==> p.latest.LatestMissing?)
      && (r == Error(AheadOfProvider) <==> Confirms(p, depth, 0) && p.latest.header.number < last.number + depth)
      && (r == Error(RangeFailed) <==> Left(p, depth, last) && Reply(p, depth, last, maxSize).RangeError?)
      && (r == Error(MismatchedState) <==>
            && Left(p, depth, last) && Reply(p, depth, last, maxSize).Headers?
            && Reply(p, depth, last, maxSize).headers != []
            && Reply(p, depth, last, maxSize).headers[0].parentHash != last.hash)
      && (r == Batch([]) <==>
            || (p.latest.Latest? && (p.latest.header.number < depth || p.latest.header.number == last.number + depth))
            || (Left(p, depth, last) && Reply(p, depth, last, maxSize) == Headers([])))
      && (forall hs: seq<Header> :: hs != [] ==>
            (r == Batch(hs) <==>
              Left(p, depth, last) && Reply(p, depth, last, maxSize) == Headers(hs) && hs[0].parentHash == last.hash))
      && (r.Error? ==> Emitted(r) == [])
  {}

  class HeaderTraversal {
    var latestHeader: Option<Header>
    var lastTraversedHeader: Header
    const blockConfirmationDepth: nat

    constructor (fromHeader: Header, depth: nat)
      ensures lastTraversedHeader == fromHeader && blockConfirmationDepth == depth && latestHeader == None
    {
      latestHeader, lastTraversedHeader, blockConfirmationDepth := None, fromHeader, depth;
    }

    method NextHeaders(p: Provider, maxSize: nat) returns (r: Result)
      requires maxSize < TWO64
      modifies this
      ensures latestHeader == if p.latest.Latest? then Some(p.latest.header) else old(latestHeader)
      ensures r == NextResult(p, blockConfirmationDepth, old(lastTraversedHeader), maxSize)
      ensures lastTraversedHeader == Position(old(lastTraversedHeader), Emitted(r))
    {
      match p.latest {
        case LatestError => return Error(LatestFailed);
        case LatestMissing => return Error(LatestUnreported);
        case Latest(_) =>
      }
      latestHeader := Some(p.latest.header);
      var endHeight := p.latest.header.number - blockConfirmationDepth;
      if endHeight < 0 { return Batch([]); }
      if lastTraversedHeader.number == endHeight { return Batch([]); }
      if lastTraversedHeader.number > endHeight { return Error(AheadOfProvider); }
      var nextHeight := lastTraversedHeader.number + 1;
      endHeight := Clamp(nextHeight, endHeight, maxSize);
      match p.range(nextHeight, endHeight) {
        case RangeError => return Error(RangeFailed);
        case Headers(headers) =>
          if |headers| == 0 { return Batch([]); }
          if headers[0].parentHash != lastTraversedHeader.hash { return Error(MismatchedState); }
          lastTraversedHeader := headers[|headers| - 1];
          return Batch(headers);
      }
    }

    /** Main result: any number of calls, with any reorganisation of the provider between them, emit one
        hash-linked chain from the starting header. */
    method Follow(providers: seq<Provider>, maxSize: nat) returns (emitted: seq<Header>)
      requires forall i :: 0 <= i < |providers| ==> AnswersFromOneChain(providers[i]) && Bounded(providers[i])
      requires 0 < maxSize < TWO64
      modifies this
      ensures Linked([old(lastTraversedHeader)] + emitted)
      ensures lastTraversedHeader == Position(old(lastTraversedHeader), emitted)
      ensures |emitted| <= |providers| * maxSize
      ensures emitted != [] ==>
        exists i :: 0 <= i < |providers| && Confirms(providers[i], blockConfirmationDepth, lastTraversedHeader.number)
    {
      emitted := [];
      ghost var start := lastTraversedHeader;
      var i := 0;
      while i < |providers|
        invariant 0 <= i <= |providers|
        invariant Linked([start] + emitted)
        invariant lastTraversedHeader == Position(start, emitted)
        invariant |emitted| <= i * maxSize
        invariant emitted != [] ==>
          exists j :: 0 <= j < i && Confirms(providers[j], blockConfirmationDepth, lastTraversedHeader.number)
      {
        NextExtends(providers[i], blockConfirmationDepth, lastTraversedHeader, maxSize);
        var r := NextHeaders(providers[i], maxSize);
        FollowOn(start, emitted, Emitted(r));
        CountOn(|emitted|, |Emitted(r)|, i, maxSize);
        emitted := emitted + Emitted(r);
        i := i + 1;
      }
    }
  }

  /** A linked run from a start, continued by one linked to the position it reached. */
  lemma FollowOn(start: Header, before: seq<Header>, batch: seq<Header>)
    requires Linked([start] + before) && Linked([Position(start, before)] + batch)
    ensures Linked([start] + (before + batch))
    ensures Position(start, before + batch) == Position(Position(start, before), batch)
  {
    LinkedTail(Position(start, before), batch);
    LinkedJoin([start] + before, batch);
    assert [start] + before + batch == [start] + (before + batch);
  }

  lemma CountOn(before: nat, batch: nat, i: nat, maxSize: nat)
    requires before <= i * maxSize && batch <= maxSize
    ensures before + batch <= (i + 1) * maxSize
  {}

  lemma {:induction false} LinkedHeight(hs: seq<Header>, k: nat)
    requires Linked(hs) && k < |hs|
    ensures hs[k].number == hs[0].number + k
  {
    if k > 0 {
      LinkedHeight(hs, k - 1);
      assert Follows(hs[k - 1], hs[k]);
    }
  }

  /** A linked run continued by one that follows its last header is linked. */
  lemma LinkedJoin(a: seq<Header>, b: seq<Header>)
    requires |a| > 0 && Linked(a) && Linked(b)
    requires b != [] ==> Follows(a[|a| - 1], b[0])
    ensures Linked(a + b)
  {
    var c := a + b;
    forall i | 0 < i < |c| ensures Follows(c[i - 1], c[i]) {
      if i > |a| { assert Follows(b[i - |a| - 1], b[i - |a|]); }
    }
  }

  lemma LinkedTail(h: Header, b: seq<Header>)
    requires Linked([h] + b)
    ensures Linked(b) && (b != [] ==> Follows(h, b[0]))
  {
    var c := [h] + b;
    if b != [] { assert Follows(c[0], c[1]); }
    forall i | 0 < i < |b| ensures Follows(b[i - 1], b[i]) { assert Follows(c[i], c[i + 1]); }
  }

  // ---- a chain that does not change ------------------------------------------

  predicate ChainAt(c: nat -> Header, n: nat) {
    c(n).number == n && (n > 0 ==> c(n).parentHash == c(n - 1).hash)
  }

  ghost predicate IsChain(c: nat -> Header) {
    forall n: nat :: ChainAt(c, n)
  }

  /** A provider of the chain c with head top, for which a request past the head is an error. */
  function Honest(c: nat -> Header, top: nat): Provider {
    Provider(Latest(c(top)),
      (start: nat, end: int) =>
        if start + Asked(start, end) <= top + 1 then Headers(Segment(c, start, Asked(start, end))) else RangeError)
  }

  function Segment(c: nat -> Header, start: nat, n: nat): (hs: seq<Header>)
    ensures |hs| == n
    ensures forall i :: 0 <= i < n ==> hs[i] == c(start + i)
  {
    seq(n, i requires 0 <= i => c(start + i))
  }

  lemma SegmentEnd(c: nat -> Header, n: nat, k: nat)
    ensures Position(c(n), Segment(c, n + 1, k)) == c(n + k)
  {}

  /** Answers of an honest provider come from one chain. */
  lemma HonestAnswers(c: nat -> Header, top: nat)
    requires IsChain(c)
    ensures AnswersFromOneChain(Honest(c, top))
  {
    forall start: nat, end: int | Honest(c, top).range(start, end).Headers?
      ensures OneChain(Honest(c, top).range(start, end).headers, start, Asked(start, end))
    {
      SegmentLinked(c, start, Asked(start, end));
    }
  }

  lemma SegmentLinked(c: nat -> Header, start: nat, n: nat)
    requires IsChain(c)
    ensures OneChain(Segment(c, start, n), start, n)
  {
    var hs := Segment(c, start, n);
    assert ChainAt(c, start);
    forall i | 0 < i < n
      ensures Follows(hs[i - 1], hs[i])
    {
      assert ChainAt(c, start + i - 1) && ChainAt(c, start + i);
    }
  }

  lemma HonestBatch(c: nat -> Header, top: nat, depth: nat, n: nat, maxSize: nat)
    requires IsChain(c) && n + depth < top < TWO64 - 1 && maxSize < TWO64
    requires n + Batched(top - depth - n, maxSize) <= top
    ensures NextResult(Honest(c, top), depth, c(n), maxSize)
         == Batch(Segment(c, n + 1, Batched(top - depth - n, maxSize)))
  {
    assert ChainAt(c, n) && ChainAt(c, n + 1) && ChainAt(c, top);
    AskedByClamp(n + 1, top - depth, maxSize);
    HonestReply(c, top, n + 1, Clamp(n + 1, top - depth, maxSize), Batched(top - depth - n, maxSize));
    NextInside(Honest(c, top), depth, c(n), maxSize, Segment(c, n + 1, Batched(top - depth - n, maxSize)));
  }

  /** A call below the confirmed height that gets an answer which links up. */
  lemma NextInside(p: Provider, depth: nat, last: Header, maxSize: nat, hs: seq<Header>)
    requires maxSize < TWO64 && p.latest.Latest? && last.number + depth < p.latest.header.number
    requires p.range(last.number + 1, Clamp(last.number + 1, p.latest.header.number - depth, maxSize)) == Headers(hs)
    requires hs != [] ==> hs[0].parentHash == last.hash
    ensures NextResult(p, depth, last, maxSize) == Batch(hs)
  {}

  lemma HonestReply(c: nat -> Header, top: nat, start: nat, end: int, n: nat)
    requires Asked(start, end) == n && start + n <= top + 1
    ensures Honest(c, top).range(start, end) == Headers(Segment(c, start, n))
  {}

  /** One call on the fixed chain, for every size but zero, moves on by the heights it asks for. */
  lemma HonestStep(c: nat -> Header, top: nat, depth: nat, n: nat, maxSize: nat)
    requires IsChain(c) && n + depth <= top < TWO64 - 1 && 0 < maxSize < TWO64
    ensures Batched(top - depth - n, maxSize) <= top - depth - n
    ensures Position(c(n), Emitted(NextResult(Honest(c, top), depth, c(n), maxSize)))
         == c(n + Batched(top - depth - n, maxSize))
  {
    assert ChainAt(c, n) && ChainAt(c, top);
    BatchedBound(top - depth - n, maxSize);
    if n + depth < top {
      HonestBatch(c, top, depth, n, maxSize);
      SegmentEnd(c, n, Batched(top - depth - n, maxSize));
    }
  }

  /** A provider whose chain has left the position is answered with the mismatch, at the first call that has a
      height to ask for; a provider whose chain goes on from it never is. */
  lemma ReorgReported(c: nat -> Header, top: nat, depth: nat, last: Header, maxSize: nat)
    requires IsChain(c) && top < TWO64 - 1 && 0 < maxSize < TWO64
    ensures NextResult(Honest(c, top), depth, last, maxSize) == Error(MismatchedState)
       <==> last.number + depth < top && c(last.number).hash != last.hash
  {
    assert ChainAt(c, top) && ChainAt(c, last.number + 1);
    NextErrors(Honest(c, top), depth, last, maxSize);
    if last.number + depth < top {
      HonestAnswer(c, top, depth, last, maxSize);
    }
  }

  /** An honest provider's reply, when there is a height left, starts with the one above the position. */
  lemma HonestAnswer(c: nat -> Header, top: nat, depth: nat, last: Header, maxSize: nat)
    requires c(top).number == top < TWO64 - 1 && last.number + depth < top && 0 < maxSize < TWO64
    ensures var r := Reply(Honest(c, top), depth, last, maxSize);
      r.Headers? && r.headers != [] && r.headers[0] == c(last.number + 1)
  {
    var left := top - depth - last.number;
    AskedByClamp(last.number + 1, top - depth, maxSize);
    BatchedBound(left, maxSize);
    HonestReply(c, top, last.number + 1, Clamp(last.number + 1, top - depth, maxSize), Batched(left, maxSize));
  }

  /** A chain and its head, as a provider has it during one call. */
  datatype View = View(chain: nat -> Header, top: nat)

  ghost predicate IsView(v: View) {
    IsChain(v.chain) && v.top < TWO64 - 1
  }

  /** What a call against a view does to the position: a mismatch is reported, and the position stays,
      exactly when the view's chain has left it and has a confirmed height above it; and on a chain that
      goes on from it the call moves on by the heights it asks for. */
  ghost predicate Handled(v: View, depth: nat, maxSize: nat, before: Header, r: Result, after: Header)
    requires 0 < maxSize < TWO64
  {
    && (r == Error(MismatchedState) <==> before.number + depth < v.top && v.chain(before.number).hash != before.hash)
    && (r.Error? ==> after == before)
    && (before == v.chain(before.number) && before.number + depth <= v.top ==>
          r.Batch? && after == v.chain(before.number + Batched(v.top - depth - before.number, maxSize)))
  }

  lemma ViewHandled(v: View, depth: nat, before: Header, maxSize: nat)
    requires IsView(v) && 0 < maxSize < TWO64
    ensures var r := NextResult(Honest(v.chain, v.top), depth, before, maxSize);
      Handled(v, depth, maxSize, before, r, Position(before, Emitted(r)))
  {
    ReorgReported(v.chain, v.top, depth, before, maxSize);
    if before == v.chain(before.number) && before.number + depth <= v.top {
      assert ChainAt(v.chain, v.top);
      BatchedBound(v.top - depth - before.number, maxSize);
      HonestStep(v.chain, v.top, depth, before.number, maxSize);
      if before.number + depth < v.top { HonestBatch(v.chain, v.top, depth, before.number, maxSize); }
    }
  }

  /** Over any run of views, whatever reorganisations lie between them: every call is handled so. */
  method Watch(t: HeaderTraversal, views: seq<View>, maxSize: nat) returns (results: seq<Result>, ghost positions: seq<Header>)
    requires (forall k :: 0 <= k < |views| ==> IsView(views[k])) && 0 < maxSize < TWO64
    modifies t
    ensures |results| == |views| && |positions| == |views| + 1
    ensures positions[0] == old(t.lastTraversedHeader) && positions[|views|] == t.lastTraversedHeader
    ensures forall k :: 0 <= k < |views| ==>
      Handled(views[k], t.blockConfirmationDepth, maxSize, positions[k], results[k], positions[k + 1])
  {
    results, positions := [], [t.lastTraversedHeader];
    var k := 0;
    while k < |views|
      invariant 0 <= k == |results| <= |views| && |positions| == k + 1
      invariant positions[0] == old(t.lastTraversedHeader) && positions[k] == t.lastTraversedHeader
      invariant forall j :: 0 <= j < k ==>
        Handled(views[j], t.blockConfirmationDepth, maxSize, positions[j], results[j], positions[j + 1])
    {
      ViewHandled(views[k], t.blockConfirmationDepth, t.lastTraversedHeader, maxSize);
      var r := t.NextHeaders(Honest(views[k].chain, views[k].top), maxSize);
      results, positions := results + [r], positions + [t.lastTraversedHeader];
      k := k + 1;
    }
  }

  /** A first header that does not follow the position is a mismatch. */
  lemma MismatchSeen(p: Provider, last: Header)
    requires last == Header(5, 105, 104) && p.latest == Latest(Header(10, 110, 109))
    requires p.range(6, 10) == Headers([Header(6, 206, 205)])
    ensures NextResult(p, 0, last, 100) == Error(MismatchedState)
  {}

  /** A size of zero, with one height left and one past it not yet confirmed: the call emits both. */
  lemma ZeroOvershoots(c: nat -> Header)
    requires IsChain(c)
    ensures var hs := Emitted(NextResult(Honest(c, 2), 1, c(0), 0));
      |hs| == 2 && !Confirms(Honest(c, 2), 1, Position(c(0), hs).number)
  {
    assert ChainAt(c, 2);
    HonestBatch(c, 2, 1, 0, 0);
  }

  // ---- how many calls ----------------------------------------------------------

  /** The height after k calls on a chain whose confirmed head is the target. */
  function HeightAfter(h: nat, target: nat, maxSize: nat, k: nat): nat
    requires h <= target && 0 < maxSize < TWO64
    decreases k
  {
    if k == 0 || h == target then h
    else
      BatchedBound(target - h, maxSize);
      HeightAfter(h + Batched(target - h, maxSize), target, maxSize, k - 1)
  }

  lemma BatchedBound(left: nat, size: nat)
    requires 0 < size < TWO64
    ensures Batched(left, size) <= left && Batched(left, size) <= size
    ensures left > 0 ==> Batched(left, size) > 0
  {}

  /** The calls it takes to cover the distance. */
  function CallsNeeded(distance: nat, maxSize: nat): nat
    requires 0 < maxSize < TWO64
    decreases distance
  {
    BatchedBound(distance, maxSize);
    if distance == 0 then 0 else 1 + CallsNeeded(distance - Batched(distance, maxSize), maxSize)
  }

  lemma {:induction false} HeightReaches(h: nat, target: nat, maxSize: nat, k: nat)
    requires h <= target && 0 < maxSize < TWO64
    ensures HeightAfter(h, target, maxSize, k) <= target
    ensures HeightAfter(h, target, maxSize, k) == target <==> k >= CallsNeeded(target - h, maxSize)
    decreases k
  {
    if h < target {
      BatchedBound(target - h, maxSize);
      if k > 0 { HeightReaches(h + Batched(target - h, maxSize), target, maxSize, k - 1); }
    }
  }

  /** ceil(a / b), by counting. */
  function Ceil(a: nat, b: nat): nat
    requires b > 0
    decreases a
  {
    if a <= b then (if a == 0 then 0 else 1) else 1 + Ceil(a - b, b)
  }

  /** It is the least number of b's that cover a. */
  lemma {:induction false} CeilIsLeast(a: nat, b: nat, k: nat)
    requires b > 0
    ensures k * b >= a <==> k >= Ceil(a, b)
    decreases a
  {
    MulDist(k, 1, b);
    MulPos(k, b);
    if a > b && k > 0 {
      CeilIsLeast(a - b, b, k - 1);
    }
  }

  /** ceil(distance / maxSize) calls for the sizes up to 2^63 + 1. */
  lemma {:induction false} CallsNeededIs(distance: nat, maxSize: nat)
    requires 0 < maxSize <= TWO63 + 1
    ensures CallsNeeded(distance, maxSize) == Ceil(distance, maxSize)
    decreases distance
  {
    if distance > maxSize { CallsNeededIs(distance - maxSize, maxSize); }
  }

  lemma OneCall(distance: nat, maxSize: nat)
    requires 0 < distance <= maxSize < TWO64
    ensures CallsNeeded(distance, maxSize) == 1
  {
    assert Batched(distance, maxSize) == distance;
  }

  /** A larger size asks for fewer heights, until it covers what is left. */
  lemma {:induction false} CallsNeededWide(distance: nat, maxSize: nat)
    requires TWO63 < maxSize < TWO64 && distance > maxSize
    ensures CallsNeeded(distance, maxSize) == 1 + Ceil(distance - maxSize, TWO64 - maxSize + 2)
    decreases distance
  {
    var rest := distance - Batched(distance, maxSize);
    if rest > maxSize { CallsNeededWide(rest, maxSize); } else { OneCall(rest, maxSize); }
  }

  /** On a fixed chain, for every size but zero: k calls end at HeightAfter, and at the confirmed head
      exactly from CallsNeeded on. */
  method CatchUp(t: HeaderTraversal, c: nat -> Header, top: nat, maxSize: nat, calls: nat)
    requires IsChain(c) && top < TWO64 - 1 && 0 < maxSize < TWO64
    requires t.lastTraversedHeader.number + t.blockConfirmationDepth <= top
    requires t.lastTraversedHeader == c(t.lastTraversedHeader.number)
    modifies t
    ensures t.lastTraversedHeader
         == c(HeightAfter(old(t.lastTraversedHeader).number, top - t.blockConfirmationDepth, maxSize, calls))
    ensures t.lastTraversedHeader == c(top - t.blockConfirmationDepth)
       <==> calls >= CallsNeeded(top - t.blockConfirmationDepth - old(t.lastTraversedHeader).number, maxSize)
  {
    var target: nat := top - t.blockConfirmationDepth;
    ghost var start: nat := t.lastTraversedHeader.number;
    ghost var h: nat := start;
    var i: nat := 0;
    while i < calls
      invariant i <= calls && h <= target && t.lastTraversedHeader == c(h)
      invariant HeightAfter(h, target, maxSize, calls - i) == HeightAfter(start, target, maxSize, calls)
    {
      h := CatchUpOnce(t, c, top, maxSize, h, calls - i);
      i := i + 1;
    }
    HeightReaches(start, target, maxSize, calls);
    assert ChainAt(c, h) && ChainAt(c, target);
  }

  method CatchUpOnce(t: HeaderTraversal, c: nat -> Header, top: nat, maxSize: nat, ghost h: nat, ghost k: nat)
    returns (ghost h': nat)
    requires IsChain(c) && top < TWO64 - 1 && 0 < maxSize < TWO64
    requires h + t.blockConfirmationDepth <= top && t.lastTraversedHeader == c(h) && k > 0
    modifies t
    ensures h' + t.blockConfirmationDepth <= top && t.lastTraversedHeader == c(h')
    ensures HeightAfter(h, top - t.blockConfirmationDepth, maxSize, k)
         == HeightAfter(h', top - t.blockConfirmationDepth, maxSize, k - 1)
  {
    HonestStep(c, top, t.blockConfirmationDepth, h, maxSize);
    h' := h + Batched(top - t.blockConfirmationDepth - h, maxSize);
    var r := t.NextHeaders(Honest(c, top), maxSize);
  }
}
