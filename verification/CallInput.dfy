/** tracing/replay/txReplayer.go: step mutation of the input of a recorded call. */
module CallInput {
  import opened Common
  import opened Bytes
  import opened Buffers
  import opened Modifier

  function Position(variant: nat, i: nat, n: nat): (p: nat)
    requires n > 0
    ensures p < n
  {
    (variant + i) % n
  }

  lemma PositionsDiffer(variant: nat, i: nat, j: nat, n: nat)
    requires i < j < n
    ensures Position(variant, i, n) != Position(variant, j, n)
  {
    DivModFacts(variant + i, n);
    DivModFacts(variant + j, n);
    var a, b := (variant + i) / n, (variant + j) / n;
    MulDist(b, a, n);
    MulPos(b - a, n);
  }

  /** Even rounds add the step's low byte, odd ones subtract it. */
  function Turn(b: byte, i: nat, byteStep: byte): byte {
    if i % 2 == 0 then (b + byteStep) % 256 else (b - byteStep + 256) % 256
  }

  /** The first k rounds of the third kind of mutation. */
  function Spread(data: seq<byte>, byteStep: byte, variant: nat, k: nat): (r: seq<byte>)
    requires |data| > 0
    ensures |r| == |data|
  {
    if k == 0 then data else
      var before, p := Spread(data, byteStep, variant, k - 1), Position(variant, k - 1, |data|);
      before[p := Turn(before[p], k - 1, byteStep)]
  }

  function Turns(n: nat): nat {
    if n < 3 then n else 3
  }

  /** A first word that grows past 32 bytes makes a slice bound negative. */
  function WordStepped(data: seq<byte>, step: int): (r: Outcome)
    requires |data| >= 32
    ensures r.Ok? ==> |r.data| == |data|
  {
    var n := Magnitude(WordAt(data, 0) + step);
    if n >= TWO256 then Panic else Ok(Overwrite(data, 0, ToBytes(n, 32)))
  }

  /** applyStepMutationToBytes. */
  function Mutated(data: seq<byte>, step: int, variant: nat): (r: Outcome)
    ensures r.Ok? ==> |r.data| == |data|
  {
    if |data| == 0 then Ok(data)
    else if variant % 3 == 0 then
      if |data| < 32 then Ok(data) else WordStepped(data, step)
    else if variant % 3 == 1 then
      var p := Position(variant, 0, |data|);
      Ok(data[p := (data[p] + step % 256) % 256])
    else
      Ok(Spread(data, Magnitude(step) % 256, variant, Turns(|data|)))
  }

  /** Each round meets a fresh byte: the position of round i is turned once, and no other byte moves. */
  lemma {:induction false} SpreadMeaning(data: seq<byte>, byteStep: byte, variant: nat, k: nat, i: nat)
    requires i < k <= |data|
    ensures var p := Position(variant, i, |data|);
      Spread(data, byteStep, variant, k)[p] == Turn(data[p], i, byteStep)
  {
    if i < k - 1 {
      SpreadMeaning(data, byteStep, variant, k - 1, i);
      PositionsDiffer(variant, i, k - 1, |data|);
    } else {
      forall j | 0 <= j < k - 1
        ensures Position(variant, j, |data|) != Position(variant, i, |data|)
      {
        PositionsDiffer(variant, j, i, |data|);
      }
      SpreadElsewhere(data, byteStep, variant, k - 1, Position(variant, i, |data|));
    }
  }

  lemma {:induction false} SpreadElsewhere(data: seq<byte>, byteStep: byte, variant: nat, k: nat, p: nat)
    requires p < |data|
    requires forall j: nat :: j < k ==> Position(variant, j, |data|) != p
    ensures Spread(data, byteStep, variant, k)[p] == data[p]
  {
    if k > 0 {
      SpreadElsewhere(data, byteStep, variant, k - 1, p);
      assert Position(variant, k - 1, |data|) != p;
    }
  }

  lemma SpreadChanges(data: seq<byte>, byteStep: byte, variant: nat)
    requires |data| > 0
    ensures Spread(data, byteStep, variant, Turns(|data|)) != data <==> byteStep != 0
  {
    if byteStep == 0 {
      SpreadByZero(data, variant, Turns(|data|));
    } else {
      SpreadMeaning(data, byteStep, variant, Turns(|data|), 0);
    }
  }

  lemma TurnByZero(b: byte, i: nat)
    ensures Turn(b, i, 0) == b
  {}

  lemma {:induction false} SpreadByZero(data: seq<byte>, variant: nat, k: nat)
    requires |data| > 0
    ensures Spread(data, 0, variant, k) == data
  {
    if k > 0 {
      SpreadByZero(data, variant, k - 1);
      TurnByZero(data[Position(variant, k - 1, |data|)], k - 1);
    }
  }

  /** The one-byte kind adds the step, modulo 256, to the byte at the variant's position. */
  lemma OneByteMeaning(data: seq<byte>, step: int, variant: nat)
    requires |data| > 0 && variant % 3 == 1
    ensures var p, r := variant % |data|, Mutated(data, step, variant);
      && r.Ok? && |r.data| == |data| && (r.data[p] - data[p] - step) % 256 == 0
      && forall j :: 0 <= j < |data| && j != p ==> r.data[j] == data[j]
  {
    Congruent(data[Position(variant, 0, |data|)], step);
  }

  lemma Congruent(b: byte, step: int)
    ensures ((b + step % 256) % 256 - b - step) % 256 == 0
  {
    DivModFacts(step, 256);
    DivModFacts(b + step % 256, 256);
    DivModUnique((b + step % 256) % 256 - b - step, 256, -((b + step % 256) / 256) - step / 256, 0);
  }

  /** And of the three-byte kind, even rounds add the low byte of the step's size and odd ones take it off. */
  lemma TurnMeaning(b: byte, i: nat, byteStep: byte)
    ensures i % 2 == 0 ==> (Turn(b, i, byteStep) - b - byteStep) % 256 == 0
    ensures i % 2 == 1 ==> (Turn(b, i, byteStep) - b + byteStep) % 256 == 0
  {}

  lemma WordReplaced(data: seq<byte>, n: nat, k: nat)
    requires k == 32 && k <= |data| && n < TWO256
    ensures WordAt(Overwrite(data, 0, ToBytes(n, k)), 0) == n
    ensures n == WordAt(data, 0) ==> Overwrite(data, 0, ToBytes(n, k)) == data
  {
    WrittenWord(data, 0, n, k);
    if n == WordAt(data, 0) {
      ToFromBytes(data[..k]);
      assert data[0..k] == data[..k];
      assert data == data[..k] + data[k..];
    }
  }

  lemma WordChanges(data: seq<byte>, step: int)
    requires |data| >= 32 && -TWO63 <= step < TWO63
    ensures WordStepped(data, step).Panic? <==> WordAt(data, 0) + step >= TWO256
    ensures WordStepped(data, step) == Ok(data) <==> step == 0 || 2 * WordAt(data, 0) == -step
  {
    var n := Magnitude(WordAt(data, 0) + step);
    if n < TWO256 { WordReplaced(data, n, 32); }
  }

  /** When the mutation panics, and when it changes anything: the word kind also misses when the step
      turns a word W into its mirror image, 2W = -step. */
  lemma MutatedChanges(data: seq<byte>, step: int, variant: nat)
    requires |data| > 0 && -TWO63 <= step < TWO63
    ensures Mutated(data, step, variant).Panic?
       <==> variant % 3 == 0 && |data| >= 32 && WordAt(data, 0) + step >= TWO256
    ensures Mutated(data, step, variant) == Ok(data)
       <==> if variant % 3 == 0 then |data| < 32 || step == 0 || 2 * WordAt(data, 0) == -step
            else step % 256 == 0
  {
    if variant % 3 == 0 {
      if |data| >= 32 { WordChanges(data, step); }
    } else if variant % 3 == 1 {
      ByteMoves(data[Position(variant, 0, |data|)], step);
    } else {
      MagnitudeByte(step);
      SpreadChanges(data, Magnitude(step) % 256, variant);
    }
  }

  /** A first word of 2^256 - 1 panics at step 1; a first word of 5 mirrors at step -10. */
  lemma WordsMissed(k: nat)
    requires k == 32
    ensures Mutated(ToBytes(TWO256 - 1, k), 1, 0).Panic?
    ensures Mutated(ToBytes(5, k), -10, 0) == Ok(ToBytes(5, k))
  {
    var top, five := ToBytes(TWO256 - 1, k), ToBytes(5, k);
    assert top[0..k] == top && five[0..k] == five;
    FromToWord(TWO256 - 1, k);
    FromToWord(5, k);
    MutatedChanges(top, 1, 0);
    MutatedChanges(five, -10, 0);
  }

  lemma MagnitudeByte(step: int)
    ensures Magnitude(step) % 256 == 0 <==> step % 256 == 0
  {}

  lemma ByteMoves(b: byte, step: int)
    ensures (b + step % 256) % 256 == b <==> step % 256 == 0
  {}

  /** The mutation on a buffer. */
  method ApplyStepMutationToBytes(buf: array<byte>, step: int, variant: nat) returns (panics: bool)
    requires -TWO63 <= step < TWO63
    modifies buf
    ensures panics <==> Mutated(old(buf[..]), step, variant).Panic?
    ensures !panics ==> Ok(buf[..]) == Mutated(old(buf[..]), step, variant)
  {
    panics := false;
    if buf.Length == 0 { return; }
    assert |buf[..]| == buf.Length;
    if variant % 3 == 0 {
      if buf.Length >= 32 {
        var newBytes := MinBytes(Magnitude(WordAt(buf[..], 0) + step));
        ShortExactlyBelow(Magnitude(WordAt(buf[..], 0) + step), 32);
        if |newBytes| > 32 { return true; }
        MinBytesOfWord(Magnitude(WordAt(buf[..], 0) + step), 32);
        ZeroAndCopy(buf, 0, 32, newBytes);
      }
    } else if variant % 3 == 1 {
      StepOneByte(buf, step, variant);
    } else {
      StepThreeBytes(buf, step, variant);
    }
  }

  method StepOneByte(buf: array<byte>, step: int, variant: nat)
    requires buf.Length > 0
    modifies buf
    ensures var p := Position(variant, 0, buf.Length);
      buf[..] == old(buf[..])[p := (old(buf[p]) + step % 256) % 256]
  {
    var byteIndex := variant % buf.Length;
    var byteStep := if step >= 0 then step % 256 else -((-step) % 256);
    if byteStep < 0 { byteStep := 256 + byteStep; }
    buf[byteIndex] := (buf[byteIndex] + byteStep) % 256;
  }

  method StepThreeBytes(buf: array<byte>, step: int, variant: nat)
    requires buf.Length > 0
    modifies buf
    ensures buf[..] == Spread(old(buf[..]), Magnitude(step) % 256, variant, Turns(buf.Length))
  {
    var byteStep := Magnitude(step) % 256;
    var maxChanges := 3;
    if buf.Length < maxChanges { maxChanges := buf.Length; }
    var i := 0;
    while i < maxChanges
      invariant 0 <= i <= maxChanges
      invariant buf[..] == Spread(old(buf[..]), byteStep, variant, i)
    {
      var byteIndex := Position(variant, i, buf.Length);
      if i % 2 == 0 {
        buf[byteIndex] := (buf[byteIndex] + byteStep) % 256;
      } else {
        buf[byteIndex] := (buf[byteIndex] - byteStep + 256) % 256;
      }
      i := i + 1;
    }
  }

  /** generateStepBasedInputDataFromCall, with the bytes after the selector as a buffer of their own. */
  method GenerateFromCall(original: seq<byte>, step: int, variant: nat) returns (modified: Outcome)
    requires -TWO63 <= step < TWO63
    ensures |original| <= 4 ==> modified == Ok(original)
    ensures |original| > 4 ==>
      var r := Mutated(original[4..], step, variant);
      modified == if r.Ok? then Ok(original[..4] + r.data) else r
  {
    if |original| <= 4 { return Ok(original); }
    var buf := Clone(original[4..]);
    var panics := ApplyStepMutationToBytes(buf, step, variant);
    modified := if panics then Panic else Ok(original[..4] + buf[..]);
  }
}
