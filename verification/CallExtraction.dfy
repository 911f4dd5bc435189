/** tracing/replay/txReplayer.go: picking the call to a protected contract out of a call trace. */
module CallExtraction {
  import opened Common
  import opened Bytes
  import opened CallTree

  datatype CallFrame = CallFrame(info: CallInfo, calls: seq<CallFrame>)

  datatype ExtractedCall = ExtractedCall(
    contract: Address, from: Address, inputData: seq<byte>, callType: string, value: int, gas: nat, depth: nat)

  // ---- hexutil.Decode --------------------------------------------------------

  function HexDigit(c: char): Option<nat> {
    if '0' <= c <= '9' then Some(c as int - '0' as int)
    else if 'a' <= c <= 'f' then Some(c as int - 'a' as int + 10)
    else if 'A' <= c <= 'F' then Some(c as int - 'A' as int + 10)
    else None
  }

  function DecodeDigits(s: string): Option<seq<byte>> {
    if |s| == 0 then Some([])
    else if |s| == 1 then None
    else
      var high, low, rest := HexDigit(s[0]), HexDigit(s[1]), DecodeDigits(s[2..]);
      if high.Some? && low.Some? && rest.Some? then Some([(16 * high.value + low.value) % 256] + rest.value)
      else None
  }

  function DecodeHex(s: string): Option<seq<byte>> {
    if |s| >= 2 && s[0] == '0' && (s[1] == 'x' || s[1] == 'X') then DecodeDigits(s[2..]) else None
  }

  // ---- what is extracted -----------------------------------------------------

  predicate CarriesInput(info: CallInfo) {
    info.input != "" && info.input != "0x"
  }

  predicate Matches(f: CallFrame, protected: seq<Address>) {
    f.info.to in protected && CarriesInput(f.info)
  }

  function Extracted(f: CallFrame, depth: nat): ExtractedCall {
    var data := DecodeHex(f.info.input);
    ExtractedCall(
      f.info.to, f.info.from, if data.Some? then data.value else [], f.info.callType,
      if f.info.value.Some? then f.info.value.value else 0,
      if f.info.gas.Some? then f.info.gas.value else 0,
      depth)
  }

  // ---- the fields of an extracted call ------------------------------------------

  function HexChar(d: nat): char
    requires d < 16
  {
    "0123456789abcdef"[d]
  }

  /** hexutil.Encode without the prefix. */
  function EncodeDigits(bs: seq<byte>): string {
    if bs == [] then "" else [HexChar(bs[0] / 16), HexChar(bs[0] % 16)] + EncodeDigits(bs[1..])
  }

  lemma HexDigitRoundTrip(d: nat)
    requires d < 16
    ensures HexDigit(HexChar(d)) == Some(d)
  {}

  /** The upper-case digits have the same values, and there are no others. */
  lemma HexDigits(d: nat, c: char)
    requires d < 16
    ensures HexDigit("0123456789ABCDEF"[d]) == Some(d)
    ensures HexDigit(c).Some? <==> c in "0123456789abcdefABCDEF"
  {
    assert HexDigit(c).Some? ==> c == HexChar(HexDigit(c).value) || c == "0123456789ABCDEF"[HexDigit(c).value];
    var all := "0123456789abcdefABCDEF";
    forall i | 0 <= i < 22 && all[i] == c
      ensures HexDigit(c).Some?
    {
    }
    if HexDigit(c).Some? {
      var v := HexDigit(c).value;
      assert all[v] == HexChar(v) && (v >= 10 ==> all[v + 6] == "0123456789ABCDEF"[v]);
    }
  }

  /** Decoding succeeds exactly on digits in pairs. */
  lemma {:induction false} DecodesExactly(s: string)
    ensures DecodeDigits(s).Some? <==> |s| % 2 == 0 && forall i :: 0 <= i < |s| ==> HexDigit(s[i]).Some?
  {
    if |s| >= 2 {
      DecodesExactly(s[2..]);
      forall i | 2 <= i < |s|
        ensures s[i] == s[2..][i - 2]
      {
      }
    }
  }

  lemma FirstPair(a: char, b: char, d: byte, s: string, rest: seq<byte>)
    requires DecodeDigits(s) == Some(rest)
    requires HexDigit(a) == Some(d / 16) && HexDigit(b) == Some(d % 16)
    ensures DecodeDigits([a, b] + s) == Some([d] + rest)
  {
    var all := [a, b] + s;
    assert all[2..] == s && all[0] == a && all[1] == b;
    SixteenTimes(d);
  }

  lemma SixteenTimes(d: byte)
    ensures (16 * (d / 16) + d % 16) % 256 == d
  {}

  lemma {:induction false} DigitsRoundTrip(bs: seq<byte>)
    ensures DecodeDigits(EncodeDigits(bs)) == Some(bs)
  {
    if bs != [] {
      DigitsRoundTrip(bs[1..]);
      HexDigitRoundTrip(bs[0] / 16);
      HexDigitRoundTrip(bs[0] % 16);
      FirstPair(HexChar(bs[0] / 16), HexChar(bs[0] % 16), bs[0], EncodeDigits(bs[1..]), bs[1..]);
      assert bs == [bs[0]] + bs[1..];
    }
  }

  /** The extracted call has the frame's target, sender and type; the bytes whose hexadecimal form is its
      input; and its value and gas, or 0 where they do not parse. */
  lemma ExtractedMeaning(f: CallFrame, depth: nat, bs: seq<byte>)
    ensures var c := Extracted(f, depth);
      && c.contract == f.info.to && c.from == f.info.from && c.callType == f.info.callType && c.depth == depth
      && (f.info.input == "0x" + EncodeDigits(bs) ==> c.inputData == bs)
      && (f.info.value.Some? ==> c.value == f.info.value.value) && (f.info.value.None? ==> c.value == 0)
      && (f.info.gas.Some? ==> c.gas == f.info.gas.value) && (f.info.gas.None? ==> c.gas == 0)
  {
    DigitsRoundTrip(bs);
    assert ("0x" + EncodeDigits(bs))[2..] == EncodeDigits(bs);
  }

  /** A frame with well-formed input matches exactly when it calls a protected contract with some bytes. */
  lemma MatchMeaning(f: CallFrame, protected: seq<Address>, bs: seq<byte>)
    requires f.info.input == "0x" + EncodeDigits(bs)
    ensures Matches(f, protected) <==> f.info.to in protected && bs != []
  {
    if bs != [] { assert |f.info.input| >= 4; } else { assert f.info.input == "0x"; }
  }

  /** Every frame of the trace with its depth, parents before children, in call order. */
  function Preorder(f: CallFrame, depth: nat): seq<(CallFrame, nat)>
    decreases f, 1
  {
    [(f, depth)] + PreorderAll(f.calls, depth + 1)
  }

  function PreorderAll(calls: seq<CallFrame>, depth: nat): seq<(CallFrame, nat)>
    decreases calls, 0
  {
    if calls == [] then [] else Preorder(calls[0], depth) + PreorderAll(calls[1..], depth)
  }

  function FirstMatch(frames: seq<(CallFrame, nat)>, protected: seq<Address>): Option<(CallFrame, nat)> {
    if frames == [] then None
    else if Matches(frames[0].0, protected) then Some(frames[0])
    else FirstMatch(frames[1..], protected)
  }

  /** FirstMatch is the least index that matches, and there is one exactly when some frame matches. */
  lemma {:induction false} FirstMatchLeast(frames: seq<(CallFrame, nat)>, protected: seq<Address>)
    ensures FirstMatch(frames, protected).Some? <==> exists k :: 0 <= k < |frames| && Matches(frames[k].0, protected)
    ensures FirstMatch(frames, protected).Some? ==>
      exists k :: 0 <= k < |frames| && FirstMatch(frames, protected) == Some(frames[k]) && Matches(frames[k].0, protected)
        && forall j :: 0 <= j < k ==> !Matches(frames[j].0, protected)
  {
    if frames != [] && !Matches(frames[0].0, protected) {
      var rest := frames[1..];
      FirstMatchLeast(rest, protected);
      assert forall k :: 0 <= k < |rest| ==> rest[k] == frames[k + 1];
      if FirstMatch(rest, protected).Some? {
        var k :| 0 <= k < |rest| && FirstMatch(rest, protected) == Some(rest[k]) && Matches(rest[k].0, protected)
          && forall j :: 0 <= j < k ==> !Matches(rest[j].0, protected);
        assert frames[k + 1] == rest[k];
        assert forall j :: 0 <= j < k + 1 ==> !Matches(frames[j].0, protected) by {
          assert forall j :: 1 <= j < k + 1 ==> frames[j] == rest[j - 1];
        }
      }
    }
  }

  lemma {:induction false} FirstMatchConcat(a: seq<(CallFrame, nat)>, b: seq<(CallFrame, nat)>, protected: seq<Address>)
    ensures FirstMatch(a + b, protected)
         == if FirstMatch(a, protected).Some? then FirstMatch(a, protected) else FirstMatch(b, protected)
  {
    if a == [] {
      assert a + b == b;
    } else {
      assert (a + b)[1..] == a[1..] + b;
      FirstMatchConcat(a[1..], b, protected);
    }
  }

  class CallTrace {
    const protectedContracts: seq<Address>
    var extractedCalls: seq<ExtractedCall>

    constructor (protected: seq<Address>)
      ensures protectedContracts == protected && extractedCalls == []
    {
      protectedContracts := protected;
      extractedCalls := [];
    }

    /** extractProtectedContractCalls: appends the first match in preorder, and only that. */
    method Extract(f: CallFrame, depth: nat) returns (found: bool)
      modifies this
      ensures found == FirstMatch(Preorder(f, depth), protectedContracts).Some?
      ensures extractedCalls
           == if found
              then var hit := FirstMatch(Preorder(f, depth), protectedContracts).value;
                   old(extractedCalls) + [Extracted(hit.0, hit.1)]
              else old(extractedCalls)
      decreases f
    {
      FirstMatchConcat([(f, depth)], PreorderAll(f.calls, depth + 1), protectedContracts);
      FirstMatchOne(f, depth);
      var i := 0;
      while i < |protectedContracts|
        invariant 0 <= i <= |protectedContracts|
        invariant CarriesInput(f.info) ==> f.info.to !in protectedContracts[..i]
        invariant extractedCalls == old(extractedCalls)
      {
        if f.info.to == protectedContracts[i] && CarriesInput(f.info) {
          extractedCalls := extractedCalls + [Extracted(f, depth)];
          return true;
        }
        i := i + 1;
      }
      i := 0;
      while i < |f.calls|
        invariant 0 <= i <= |f.calls|
        invariant extractedCalls == old(extractedCalls)
        invariant FirstMatch(Preorder(f, depth), protectedContracts)
               == FirstMatch(PreorderAll(f.calls[i..], depth + 1), protectedContracts)
      {
        FirstMatchConcat(Preorder(f.calls[i], depth + 1), PreorderAll(f.calls[i + 1..], depth + 1), protectedContracts);
        assert f.calls[i..][0] == f.calls[i] && f.calls[i..][1..] == f.calls[i + 1..];
        found := Extract(f.calls[i], depth + 1);
        if found { return; }
        i := i + 1;
      }
      found := false;
    }

    lemma FirstMatchOne(f: CallFrame, depth: nat)
      ensures FirstMatch([(f, depth)], protectedContracts)
           == if Matches(f, protectedContracts) then Some((f, depth)) else None
    {
      assert [(f, depth)][1..] == [];
    }
  }

  // ---- the same frame as the jump tracer's -----------------------------------

  /** The call trace of an executed tree. */
  function Skeleton(f: Frame): CallFrame {
    CallFrame(f.call, SkeletonCalls(f.body))
  }

  function SkeletonCalls(b: Body): seq<CallFrame> {
    match b
    case Done => []
    case Step(_, next) => SkeletonCalls(next)
    case Sub(child, next) => [Skeleton(child)] + SkeletonCalls(next)
  }

  function FirstTo(frames: seq<(CallFrame, nat)>, target: Address): Option<(CallFrame, nat)> {
    if frames == [] then None
    else if frames[0].0.info.to == target then Some(frames[0])
    else FirstTo(frames[1..], target)
  }

  lemma {:induction false} FirstToConcat(a: seq<(CallFrame, nat)>, b: seq<(CallFrame, nat)>, target: Address)
    ensures FirstTo(a + b, target) == if FirstTo(a, target).Some? then FirstTo(a, target) else FirstTo(b, target)
  {
    if a == [] {
      assert a + b == b;
    } else {
      assert (a + b)[1..] == a[1..] + b;
      FirstToConcat(a[1..], b, target);
    }
  }

  function SkeletonOf(hit: Option<(Frame, nat)>): Option<(CallFrame, nat)> {
    if hit.None? then None else Some((Skeleton(hit.value.0), hit.value.1))
  }

  lemma {:induction false} TargetInPreorder(f: Frame, target: Address, depth: nat)
    ensures FirstTo(Preorder(Skeleton(f), depth), target) == SkeletonOf(FirstTarget(f, target, depth))
    decreases f, 1
  {
    TargetInPreorderOfBody(f.body, target, depth);
    FirstToConcat([(Skeleton(f), depth)], PreorderAll(SkeletonCalls(f.body), depth + 1), target);
    assert [(Skeleton(f), depth)][1..] == [];
  }

  lemma {:induction false} TargetInPreorderOfBody(b: Body, target: Address, depth: nat)
    ensures FirstTo(PreorderAll(SkeletonCalls(b), depth + 1), target) == SkeletonOf(FirstTargetInBody(b, target, depth))
    decreases b, 0
  {
    match b
    case Done =>
    case Step(_, next) => TargetInPreorderOfBody(next, target, depth);
    case Sub(child, next) =>
      TargetInPreorder(child, target, depth + 1);
      TargetInPreorderOfBody(next, target, depth);
      assert SkeletonCalls(b)[1..] == SkeletonCalls(next);
      FirstToConcat(Preorder(Skeleton(child), depth + 1), PreorderAll(SkeletonCalls(next), depth + 1), target);
  }

  lemma {:induction false} FirstMatchOrTo(frames: seq<(CallFrame, nat)>, target: Address)
    ensures FirstMatch(frames, [target]) == FirstTo(frames, target)
       <==> FirstTo(frames, target).None? || CarriesInput(FirstTo(frames, target).value.0.info)
  {
    FirstMatchLeast(frames, [target]);
    if frames != [] && frames[0].0.info.to != target {
      FirstMatchOrTo(frames[1..], target);
    }
  }

  /** With one protected contract, extraction picks the frame at which the jump tracer starts
      recording exactly when there is none or that frame carries input. */
  lemma ExtractionMeetsTracer(root: Frame, target: Address)
    ensures FirstMatch(Preorder(Skeleton(root), 0), [target]) == SkeletonOf(FirstTarget(root, target, 0))
       <==> FirstTarget(root, target, 0).None? || CarriesInput(FirstTarget(root, target, 0).value.0.call)
  {
    TargetInPreorder(root, target, 0);
    FirstMatchOrTo(Preorder(Skeleton(root), 0), target);
  }

  /** A root that calls the target without input: the tracer records it, extraction finds nothing. */
  lemma {:induction false} EmptyInputMissed(root: Frame)
    requires root == Frame(CallInfo("CALL", 1, 7, "", None, None), Done)
    ensures FirstTarget(root, 7, 0) == Some((root, 0))
    ensures FirstMatch(Preorder(Skeleton(root), 0), [7]) == None
  {}
}
