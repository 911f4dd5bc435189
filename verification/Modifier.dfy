/** tracing/mutation/modifier.go and tracing/replay/txReplayer.go: calldata mutators over 32-byte words. */
module Modifier {
  import opened Bytes
  import opened Buffers
  import opened Congruence

  /** A Go call that returns an error or stops with a run-time panic. */
  datatype Outcome = Ok(data: seq<byte>) | TooShort | Panic

  datatype Strategy =
    | AddressKnown | AddressNearby
    | UintBoundary | UintStep | UintMultiplier
    | BoolFlip | PatternFill | StringLength
    | Default
  {
    /** The ones that divide by the number of parameters. */
    predicate TargetsOneParameter() {
      !AddressKnown? && !AddressNearby? && !Default?
    }

    /** What the variant is divided by before it selects the parameter: the number of values to choose
        from, except that string_length_mutation does not divide. */
    function Divisor(): (n: nat)
      ensures n > 0
    {
      match this
      case UintBoundary => 2
      case UintStep => |STEPS|
      case UintMultiplier => |MULTIPLIERS|
      case PatternFill => |PATTERNS|
      case _ => 1
    }

    /** The first byte of the parameter the variant selects. */
    function Target(n: nat, variant: nat): (at: nat)
      requires n >= 36
      ensures 4 <= at <= n - 32 && (at - 4) % 32 == 0
      ensures at == 4 || at >= 36
    {
      4 + variant / Divisor() % ((n - 4) / 32) * 32
    }
  }

  const STEPS: seq<int> := [1, -1, 10, -10, 100, -100, 1000, -1000]
  const MULTIPLIERS: seq<nat> := [2, 10, 100, 1000]
  const PATTERNS: seq<byte> := [0x00, 0xFF, 0xAA, 0x55, 0xDE, 0xAD, 0xBE, 0xEF]
  const LENGTHS: seq<nat> := [0, 1, 32, 64, 1000, 10000]

  // ---- what the strategies compute -------------------------------------------

  function WordAt(data: seq<byte>, at: nat): Word
    requires at + 32 <= |data|
  {
    Pow2At(256);
    FromBytesBound(data[at..at + 32]);
    FromBytes(data[at..at + 32])
  }

  /** The stepped parameter, before it is written back: a negative sum becomes zero. */
  function SteppedValue(data: seq<byte>, at: nat, step: int): nat
    requires at + 32 <= |data|
  {
    if WordAt(data, at) + step < 0 then 0 else WordAt(data, at) + step
  }

  /** A sum of 2^256 or more has a 33rd byte, which is copied in front of the parameter. */
  function StepWritten(data: seq<byte>, at: nat, step: int): (r: seq<byte>)
    requires 0 < at && at + 32 <= |data|
    ensures |r| == |data|
  {
    var n := SteppedValue(data, at, step);
    if n < TWO256 then Overwrite(data, at, ToBytes(n, 32)) else Overwrite(data, at - 1, ToBytes(n, 33))
  }

  function Step(variant: nat): (step: int)
    ensures -1000 <= step <= 1000
  {
    STEPS[variant % |STEPS|]
  }

  /** The sum of the selected parameter and its step needs a 33rd byte. */
  predicate Carries(data: seq<byte>, variant: nat)
    requires |data| >= 36
  {
    SteppedValue(data, UintStep.Target(|data|, variant), Step(variant)) >= TWO256
  }

  function Product(data: seq<byte>, variant: nat): nat
    requires |data| >= 36
  {
    WordAt(data, UintMultiplier.Target(|data|, variant)) * MULTIPLIERS[variant % |MULTIPLIERS|]
  }

  /** The last byte of a word, taken as a truth value, negated. */
  function Flipped(word: seq<byte>): (w: seq<byte>)
    requires |word| == 32
    ensures |w| == 32
  {
    word[31 := if word[31] == 0 then 1 else 0]
  }

  /** The 32 bytes that the other word strategies put in place of the selected parameter. */
  function NewWord(s: Strategy, data: seq<byte>, variant: nat): (w: seq<byte>)
    requires s.TargetsOneParameter() && !s.UintStep? && |data| >= 36
    ensures |w| == 32
  {
    var at := s.Target(|data|, variant);
    if s.UintBoundary? then Filled(32, if variant % 2 == 0 then 0 else 255)
    else if s.UintMultiplier? then ToBytes(if Product(data, variant) < TWO256 then Product(data, variant) else 0, 32)
    else if s.BoolFlip? then Flipped(data[at..at + 32])
    else if s.PatternFill? then Filled(32, PATTERNS[variant % |PATTERNS|])
    else ToBytes(LENGTHS[variant % |LENGTHS|], 32)
  }

  /** Twelve zero bytes in front. */
  predicate LooksLikeAddress(data: seq<byte>, at: nat) {
    at + 32 <= |data| && forall p :: at <= p < at + 12 ==> data[p] == 0
  }

  /** One word that looks like an address, with its last byte, or last two bytes, moved. */
  function AddressWord(nearby: bool, data: seq<byte>, at: nat, variant: nat): (r: seq<byte>)
    requires at + 32 <= |data|
    ensures |r| == |data| && r[..at] == data[..at] && r[at + 32..] == data[at + 32..]
  {
    if !LooksLikeAddress(data, at) then data else
      var d := if nearby then data[at + 30 := Bump(data[at + 30], 1000 + variant * 100)] else data;
      d[at + 31 := Bump(d[at + 31], variant)]
  }

  /** Every whole word from at on. */
  function AddressWords(nearby: bool, data: seq<byte>, at: nat, variant: nat): (r: seq<byte>)
    ensures |r| == |data|
    ensures at <= |data| ==> r[..at] == data[..at]
    decreases |data| - at
  {
    if at + 32 > |data| then data
    else
      var r := AddressWords(nearby, AddressWord(nearby, data, at, variant), at + 32, variant);
      assert r[..at] == r[..at + 32][..at];
      r
  }

  function DefaultBytes(data: seq<byte>, variant: nat): (r: seq<byte>)
    ensures |r| == |data|
    ensures |data| >= 4 ==> r[..4] == data[..4]
  {
    if |data| <= 4 then data else
      var n := |data| - 4;
      var first := 4 + variant % n;
      var once := data[first := Bump(data[first], variant + 1)];
      if variant > 10 && n > 32 then
        var second := 4 + variant * 7 % n;
        once[second := Bump(once[second], variant * 2)]
      else once
  }

  /** modifyInputDataBasicStrategy. */
  function Modified(s: Strategy, data: seq<byte>, variant: nat): (r: Outcome)
    ensures r.Ok? ==> |r.data| == |data|
  {
    if |data| < 4 then TooShort
    else if s.Default? then Ok(DefaultBytes(data, variant))
    else if !s.TargetsOneParameter() then
      Ok(AddressWords(s.AddressNearby?, data, 4, variant))
    else if |data| < 36 then Panic
    else
      var at := s.Target(|data|, variant);
      if s.UintStep? then Ok(StepWritten(data, at, Step(variant)))
      else Ok(Overwrite(data, at, NewWord(s, data, variant)))
  }

  // ---- their properties ------------------------------------------------------

  lemma OneByte(b: byte)
    ensures FromBytes([b]) == b
  {
    assert [b][..0] == [];
  }

  lemma FirstByte(first: byte, rest: seq<byte>, p: nat)
    requires p == Pow2(8 * |rest|)
    ensures FromBytes([first] + rest) == first * p + FromBytes(rest)
    ensures FromBytes(rest) < p
  {
    FromBytesConcat([first], rest);
    OneByte(first);
    FromBytesBound(rest);
  }

  /** The widths are variables so that the verifier does not unroll ToBytes. */
  lemma ToWidth(n: nat, k: nat)
    requires k == 33 && n < 256 * TWO256
    ensures FromBytes(ToBytes(n, k)) == n
  {
    Pow2At(8 * (k - 1));
    Pow2Byte(k - 1);
    FromToBytes(n, k);
  }

  lemma CarryByte(n: nat, k: nat)
    requires TWO256 <= n < 2 * TWO256 && k == 33
    ensures ToBytes(n, k)[0] == 1
    ensures FromBytes(ToBytes(n, k)[1..]) == n - TWO256
  {
    var bs := ToBytes(n, k);
    ToWidth(n, k);
    var e := 8 * (k - 1);
    Pow2At(e);
    assert bs == [bs[0]] + bs[1..];
    FirstByte(bs[0], bs[1..], TWO256);
  }

  lemma FromToWord(n: nat, k: nat)
    requires n < TWO256 && k == 32
    ensures FromBytes(ToBytes(n, k)) == n
  {
    Pow2At(8 * k);
    FromToBytes(n, k);
  }

  /** Overwriting from at - 1 on with bs keeps the prefix exactly when bs starts with what was there. */
  lemma PrefixKept(data: seq<byte>, at: nat, bs: seq<byte>, upto: nat)
    requires 0 < at <= at - 1 + |bs| <= |data| && upto <= at && |bs| > 0
    ensures Overwrite(data, at - 1, bs)[..upto] == data[..upto] <==> (upto == at ==> bs[0] == data[at - 1])
  {
    var r := Overwrite(data, at - 1, bs);
    assert r[at - 1] == bs[0];
    if upto == at {
      assert r[..at] == r[..at - 1] + [bs[0]];
      assert data[..at] == data[..at - 1] + [data[at - 1]];
      assert r[..at - 1] == data[..at - 1];
    }
  }

  lemma OverwriteParts(data: seq<byte>, at: nat, bs: seq<byte>, k: nat)
    requires at + |bs| <= |data| && k <= |bs|
    ensures var r := Overwrite(data, at, bs);
      && r[..at] == data[..at]
      && r[at + k..at + |bs|] == bs[k..]
      && r[at + |bs|..] == data[at + |bs|..]
  {}

  lemma CarriedWord(data: seq<byte>, at: nat, n: nat, k: nat)
    requires k == 33 && 0 < at && at + 32 <= |data| && TWO256 <= n < 2 * TWO256
    ensures WordAt(Overwrite(data, at - 1, ToBytes(n, k)), at) == n - TWO256
  {
    CarryByte(n, k);
    OverwriteParts(data, at - 1, ToBytes(n, k), 1);
  }

  lemma WrittenWord(data: seq<byte>, at: nat, n: nat, k: nat)
    requires k == 32 && at + 32 <= |data| && n < TWO256
    ensures WordAt(Overwrite(data, at, ToBytes(n, k)), at) == n
  {
    FromToWord(n, k);
    OverwriteParts(data, at, ToBytes(n, k), 0);
  }

  lemma LowWord(n: nat)
    requires n < 2 * TWO256
    ensures n % TWO256 == if n < TWO256 then n else n - TWO256
  {}

  /** A stepped parameter reads as max(0, W + step) modulo 2^256. */
  lemma SteppedParameter(data: seq<byte>, at: nat, step: int)
    requires 0 < at && at + 32 <= |data| && -1000 <= step <= 1000
    ensures WordAt(StepWritten(data, at, step), at) == SteppedValue(data, at, step) % TWO256
  {
    var n := SteppedValue(data, at, step);
    LowWord(n);
    if n < TWO256 {
      WrittenWord(data, at, n, 32);
    } else {
      CarriedWord(data, at, n, 33);
    }
  }

  /** The bytes after a stepped parameter stay; and those before it stay exactly when it carries no
      33rd byte into them, or that byte, which is 1, meets a 1. */
  lemma SteppedSurroundings(data: seq<byte>, at: nat, step: int, upto: nat)
    requires 0 < at && at + 32 <= |data| && -1000 <= step <= 1000 && upto <= at
    ensures var n, r := SteppedValue(data, at, step), StepWritten(data, at, step);
      && r[at + 32..] == data[at + 32..]
      && (r[..upto] == data[..upto] <==> !(n >= TWO256 && upto == at && data[at - 1] != 1))
  {
    var n := SteppedValue(data, at, step);
    if n < TWO256 {
      OverwriteParts(data, at, ToBytes(n, 32), 0);
    } else {
      CarryByte(n, 33);
      PrefixKept(data, at, ToBytes(n, 33), upto);
      OverwriteParts(data, at - 1, ToBytes(n, 33), 1);
    }
  }

  /** The selector survives, except when a step overflows the first parameter and the carry byte, which
      is 1, lands on the selector's last byte and is not what was there. */
  lemma SelectorKept(s: Strategy, data: seq<byte>, variant: nat)
    requires Modified(s, data, variant).Ok?
    ensures Modified(s, data, variant).data[..4] == data[..4]
       <==> !(s.UintStep? && Carries(data, variant) && s.Target(|data|, variant) == 4 && data[3] != 1)
  {
    if s.UintStep? {
      SteppedSurroundings(data, s.Target(|data|, variant), Step(variant), 4);
    }
  }

  /** A multiplied parameter that no longer fits becomes zero. */
  lemma MultipliedWord(data: seq<byte>, variant: nat)
    requires |data| >= 36
    ensures WordAt(Modified(UintMultiplier, data, variant).data, UintMultiplier.Target(|data|, variant))
         == if Product(data, variant) < TWO256 then Product(data, variant) else 0
  {
    var n := if Product(data, variant) < TWO256 then Product(data, variant) else 0;
    WrittenWord(data, UintMultiplier.Target(|data|, variant), n, 32);
  }

  lemma FlipAt(data: seq<byte>, at: nat)
    requires at + 32 <= |data|
    ensures Overwrite(data, at, Flipped(data[at..at + 32])) == data[at + 31 := if data[at + 31] == 0 then 1 else 0]
  {}

  lemma FlipTwiceAt(data: seq<byte>, at: nat)
    requires at + 32 <= |data|
    ensures var once := Overwrite(data, at, Flipped(data[at..at + 32]));
      Overwrite(once, at, Flipped(once[at..at + 32])) == data <==> data[at + 31] <= 1
  {
    FlipAt(data, at);
    FlipAt(Overwrite(data, at, Flipped(data[at..at + 32])), at);
  }

  /** Flipping a parameter twice restores the data exactly when its last byte was 0 or 1. */
  lemma FlipTwice(data: seq<byte>, variant: nat)
    requires |data| >= 36
    ensures Modified(BoolFlip, Modified(BoolFlip, data, variant).data, variant) == Ok(data)
       <==> data[BoolFlip.Target(|data|, variant) + 31] <= 1
  {
    FlipTwiceAt(data, BoolFlip.Target(|data|, variant));
  }

  // ---- the values written -------------------------------------------------------

  /** The steps, multipliers, fill bytes and lengths, by variant. */
  lemma ChoiceValues(variant: nat)
    ensures Step(variant) == match variant % 8
      case 0 => 1 case 1 => -1 case 2 => 10 case 3 => -10 case 4 => 100 case 5 => -100 case 6 => 1000 case _ => -1000
    ensures MULTIPLIERS[variant % 4] == match variant % 4 case 0 => 2 case 1 => 10 case 2 => 100 case _ => 1000
    ensures PATTERNS[variant % 8] == match variant % 8
      case 0 => 0 case 1 => 255 case 2 => 170 case 3 => 85 case 4 => 222 case 5 => 173 case 6 => 190 case _ => 239
    ensures LENGTHS[variant % 6] == match variant % 6
      case 0 => 0 case 1 => 1 case 2 => 32 case 3 => 64 case 4 => 1000 case _ => 10000
  {}

  /** The boundary strategy writes 0 for even variants and 2^256 - 1 for odd ones. */
  lemma BoundaryWord(data: seq<byte>, variant: nat)
    requires |data| >= 36
    ensures WordAt(Modified(UintBoundary, data, variant).data, UintBoundary.Target(|data|, variant))
         == if variant % 2 == 0 then 0 else TWO256 - 1
  {
    var at := UintBoundary.Target(|data|, variant);
    OverwriteParts(data, at, NewWord(UintBoundary, data, variant), 0);
    Uniform(32, 32);
    if variant % 2 == 0 {
      assert Modified(UintBoundary, data, variant).data[at..at + 32] == Zeros(32);
    } else {
      assert Modified(UintBoundary, data, variant).data[at..at + 32] == Complement(Zeros(32));
    }
  }

  lemma {:induction false} ZeroValue(n: nat)
    ensures FromBytes(Zeros(n)) == 0
  {
    if n > 0 {
      ZeroValue(n - 1);
      assert Zeros(n)[..n - 1] == Zeros(n - 1);
    }
  }

  lemma Uniform(n: nat, k: nat)
    requires n == 32 && k == n
    ensures FromBytes(Zeros(k)) == 0 && FromBytes(Complement(Zeros(k))) == TWO256 - 1
  {
    ZeroValue(k);
    ComplementValue(Zeros(k));
    Pow2At(8 * k);
  }

  /** The pattern strategy fills the parameter with one byte, and the length strategy writes the length. */
  lemma FilledWord(data: seq<byte>, variant: nat)
    requires |data| >= 36
    ensures var at, r := PatternFill.Target(|data|, variant), Modified(PatternFill, data, variant).data;
      forall j :: at <= j < at + 32 ==> r[j] == PATTERNS[variant % 8]
    ensures WordAt(Modified(StringLength, data, variant).data, StringLength.Target(|data|, variant))
         == LENGTHS[variant % 6]
  {
    LengthWord(data, StringLength.Target(|data|, variant), LENGTHS[variant % 6]);
  }

  lemma LengthWord(data: seq<byte>, at: nat, n: nat)
    requires at + 32 <= |data| && n < TWO256
    ensures WordAt(Overwrite(data, at, ToBytes(n, 32)), at) == n
  {
    WrittenWord(data, at, n, 32);
  }

  // ---- which choices meet which parameters ------------------------------------

  /** With the strategies that divide, the variants run through every choice for every parameter. */
  lemma EveryChoice(s: Strategy, n: nat, choice: nat, parameter: nat)
    requires s.TargetsOneParameter() && !s.StringLength?
    requires n >= 36 && choice < s.Divisor() && parameter < (n - 4) / 32
    ensures var variant := parameter * s.Divisor() + choice;
      variant >= 0 && variant % s.Divisor() == choice && s.Target(n, variant) == 4 + 32 * parameter
  {
    MulPos(parameter, s.Divisor());
    DivModUnique(parameter * s.Divisor() + choice, s.Divisor(), parameter, choice);
    DivModUnique(parameter, (n - 4) / 32, 0, parameter);
  }

  /** String length mutation takes the length and the parameter from the same variant, so length l is
      written into parameter p by some variant exactly when gcd(6, parameters) divides l - p. */
  lemma LengthMeetsParameter(n: nat, l: nat, p: nat)
    requires n >= 36 && l < |LENGTHS| && p < (n - 4) / 32
    ensures (exists v: nat :: v % |LENGTHS| == l && StringLength.Target(n, v) == 4 + 32 * p)
       <==> (l - p) % Gcd(|LENGTHS|, (n - 4) / 32) == 0
  {
    if (l - p) % Gcd(|LENGTHS|, (n - 4) / 32) == 0 {
      var v := Meet(l, p, |LENGTHS|, (n - 4) / 32);
      assert StringLength.Target(n, v) == 4 + 32 * p;
    } else {
      forall v: nat | v % |LENGTHS| == l
        ensures StringLength.Target(n, v) != 4 + 32 * p
      {
        Meets(v, |LENGTHS|, (n - 4) / 32);
      }
    }
  }

  /** With two parameters, the length 0 never reaches the second one. */
  lemma LengthMissesParameter(variant: nat)
    ensures variant % |LENGTHS| == 0 ==> StringLength.Target(68, variant) == 4
  {}

  // ---- mutations that change nothing -------------------------------------------

  /** The default mutation leaves the data as it was exactly when both indexes coincide and the two
      increments add up to a multiple of 256, or the only increment is one. */
  lemma DefaultUnchanged(data: seq<byte>, variant: nat)
    requires |data| > 4
    ensures var n := |data| - 4;
      Modified(Default, data, variant) == Ok(data)
      <==> if n > 32 && variant > 10 then variant % n == variant * 7 % n && (3 * variant + 1) % 256 == 0
           else (variant + 1) % 256 == 0
  {
    var n := |data| - 4;
    var first, second := 4 + variant % n, 4 + variant * 7 % n;
    var b := Bump(data[first], variant + 1);
    if n > 32 && variant > 10 {
      if first == second {
        BumpTwice(data[first], variant + 1, variant * 2);
        assert Modified(Default, data, variant).data[first] == Bump(b, variant * 2);
      } else {
        assert Modified(Default, data, variant).data[first] == b;
        assert Modified(Default, data, variant).data[second] == Bump(data[second], variant * 2);
        NotBoth(variant);
      }
    } else {
      assert Modified(Default, data, variant).data[first] == b;
    }
  }

  lemma BumpTwice(b: byte, m: nat, n: nat)
    ensures Bump(Bump(b, m), n) == Bump(b, m + n)
  {
    DivModFacts(b + m, 256);
    DivModFacts(b + m + n, 256);
    DivModUnique((b + m) % 256 + n, 256, (b + m + n) / 256 - (b + m) / 256, (b + m + n) % 256);
  }

  /** An odd and an even number: the increments of two different bytes cannot both vanish. */
  lemma NotBoth(variant: nat)
    ensures !((variant + 1) % 256 == 0 && variant * 2 % 256 == 0)
  {}

  /** Two inputs for which the default mutation does nothing. */
  lemma DefaultMisses(data: seq<byte>)
    ensures |data| == 38 ==> Modified(Default, data, 85) == Ok(data)
    ensures 4 < |data| <= 36 ==> Modified(Default, data, 255) == Ok(data)
  {
    if |data| == 38 { DefaultUnchanged(data, 85); }
    if 4 < |data| <= 36 { DefaultUnchanged(data, 255); }
  }

  predicate AddressParameter(data: seq<byte>, k: nat) {
    LooksLikeAddress(data, 4 + 32 * k)
  }

  /** An address mutation leaves the data as it was exactly when no parameter looks like an address, or
      (unless nearby) the variant is a multiple of 256. */
  lemma AddressUnchanged(nearby: bool, data: seq<byte>, variant: nat)
    requires |data| >= 4
    ensures Modified(if nearby then AddressNearby else AddressKnown, data, variant) == Ok(data)
       <==> (forall k: nat :: !AddressParameter(data, k)) || (!nearby && variant % 256 == 0)
  {
    var r := AddressWords(nearby, data, 4, variant);
    if k: nat :| AddressParameter(data, k) && (nearby || variant % 256 != 0) {
      AddressMoves(nearby, data, variant, k);
    } else {
      forall p | 0 <= p < |data|
        ensures r[p] == data[p]
      {
        AddressStays(nearby, data, variant, p);
      }
    }
  }

  lemma AddressMoves(nearby: bool, data: seq<byte>, variant: nat, k: nat)
    requires AddressParameter(data, k) && (nearby || variant % 256 != 0)
    ensures AddressWords(nearby, data, 4, variant) != data
  {
    var word := 4 + 32 * k;
    AddressMeaning(nearby, data, 4, variant, k, word, 30);
    AddressMeaning(nearby, data, 4, variant, k, word, 31);
    NearbyMoves(variant);
  }

  lemma NearbyMoves(variant: nat)
    ensures variant % 256 == 0 ==> (1000 + variant * 100) % 256 != 0
  {}

  lemma AddressStays(nearby: bool, data: seq<byte>, variant: nat, p: nat)
    requires p < |data| && |data| >= 4
    requires (forall k: nat :: !AddressParameter(data, k)) || (!nearby && variant % 256 == 0)
    ensures AddressWords(nearby, data, 4, variant)[p] == data[p]
  {
    if p < 4 {
      EarlierByte(nearby, data, 4, variant, p);
    } else {
      var k, j := (p - 4) / 32, (p - 4) % 32;
      AddressMeaning(nearby, data, 4, variant, k, 4 + 32 * k, j);
      assert !AddressParameter(data, k) || (!nearby && variant % 256 == 0);
    }
  }

  lemma ZeroNumber(bs: seq<byte>, zeros: seq<byte>)
    requires zeros == Zeros(|bs|)
    ensures bs == zeros <==> FromBytes(bs) == 0
  {
    ZeroValue(|bs|);
    ToFromBytes(bs);
    ToFromBytes(zeros);
  }

  lemma NoQuotient(x: nat, p: nat)
    requires p > 0
    ensures x < p <==> x / p == 0
  {}

  /** Bytes that start with zeros are exactly the numbers that fit what follows. */
  lemma ZeroHead(head: seq<byte>, tail: seq<byte>, zeros: seq<byte>, p: nat)
    requires zeros == Zeros(|head|) && p == Pow2(8 * |tail|)
    ensures head == zeros <==> FromBytes(head + tail) < p
  {
    FromBytesShift(head, tail);
    ZeroNumber(head, zeros);
    NoQuotient(FromBytes(head + tail), p);
  }

  /** A word looks like an address exactly when it is one: a number below 2^160. */
  lemma LooksMeaning(data: seq<byte>, at: nat, k: nat)
    requires k == 12 && at + 32 <= |data|
    ensures LooksLikeAddress(data, at) <==> WordAt(data, at) < Pow2(160)
  {
    var head, tail := data[at..at + k], data[at + k..at + 32];
    assert data[at..at + 32] == head + tail;
    ZeroHead(head, tail, Zeros(k), Pow2(160));
    assert LooksLikeAddress(data, at) <==> head == Zeros(k);
  }

  lemma Bumped(b: byte, n: nat)
    ensures (Bump(b, n) - b - n) % 256 == 0
  {
    DivModFacts(b + n, 256);
    DivModUnique(Bump(b, n) - b - n, 256, -((b + n) / 256), 0);
  }

  /** Its last byte moves by the variant, and a nearby address's second last one by 232 and a hundred
      times the variant, modulo 256. */
  lemma AddressMoved(nearby: bool, data: seq<byte>, at: nat, variant: nat)
    requires at + 32 <= |data| && LooksLikeAddress(data, at)
    ensures var r := AddressWord(nearby, data, at, variant);
      && (r[at + 31] - data[at + 31] - variant) % 256 == 0
      && (r[at + 30] - data[at + 30] - if nearby then 232 + 100 * variant else 0) % 256 == 0
  {
    Bumped(data[at + 31], variant);
    OneWord(nearby, data, at, variant, at + 30);
    OneWord(nearby, data, at, variant, at + 31);
    NearbyByte(data[at + 30], variant);
  }

  lemma NearbyByte(b: byte, variant: nat)
    ensures (Bump(b, 1000 + variant * 100) - b - (232 + 100 * variant)) % 256 == 0
  {
    Bumped(b, 1000 + variant * 100);
    Hundreds(Bump(b, 1000 + variant * 100) - b, variant);
  }

  lemma Hundreds(d: int, variant: nat)
    requires (d - (1000 + variant * 100)) % 256 == 0
    ensures (d - (232 + 100 * variant)) % 256 == 0
  {}

  /** By how much the default strategy moves each byte after the selector: its two positions are the
      variant and seven times the variant, modulo the length, and the second needs 37 bytes and variant 11. */
  lemma DefaultMeaning(data: seq<byte>, variant: nat, p: nat)
    requires 4 <= p < |data|
    ensures var first, second := (variant - (p - 4)) % (|data| - 4) == 0, (variant * 7 - (p - 4)) % (|data| - 4) == 0;
      var moved := (if first then 1 + variant else 0)
                   + if second && |data| >= 37 && variant >= 11 then variant + variant else 0;
      (DefaultBytes(data, variant)[p] - data[p] - moved) % 256 == 0
  {
    var n := |data| - 4;
    SameRemainder(variant, p - 4, n);
    SameRemainder(variant * 7, p - 4, n);
    DefaultByte(data, variant, p);
    var a := if variant % n == p - 4 then variant + 1 else 0;
    var b := if n > 32 && variant > 10 && variant * 7 % n == p - 4 then variant * 2 else 0;
    Bumped(data[p], a + b);
  }

  lemma DefaultByte(data: seq<byte>, variant: nat, p: nat)
    requires 4 <= p < |data|
    ensures var n := |data| - 4;
      DefaultBytes(data, variant)[p]
      == Bump(data[p], (if variant % n == p - 4 then variant + 1 else 0)
                       + if n > 32 && variant > 10 && variant * 7 % n == p - 4 then variant * 2 else 0)
  {
    BumpTwice(data[p], variant + 1, variant * 2);
    assert Bump(data[p], 0) == data[p];
  }

  // ---- what is given up: inputs ------------------------------------------------

  /** Calldata of one parameter 2^256 - 1 with a zero selector: the first step changes the selector. */
  lemma SelectorLost(data: seq<byte>)
    requires data == Zeros(4) + ToBytes(TWO256 - 1, 32)
    ensures Modified(UintStep, data, 0).Ok? && Modified(UintStep, data, 0).data[..4] != data[..4]
  {
    assert data[4..36] == ToBytes(TWO256 - 1, 32);
    FromToWord(TWO256 - 1, 32);
    SelectorKept(UintStep, data, 0);
  }

  /** The strategies that target one parameter divide by zero exactly on 4 to 35 bytes. */
  lemma NoParameters(s: Strategy, data: seq<byte>, variant: nat)
    ensures Modified(s, data, variant).Panic? <==> s.TargetsOneParameter() && 4 <= |data| < 36
  {}

  /** One zero parameter looks like an address, and variant 256 leaves it as it was. */
  lemma AddressMisses(data: seq<byte>)
    requires data == Zeros(36)
    ensures AddressParameter(data, 0) && Modified(AddressKnown, data, 256) == Ok(data)
  {
    AddressUnchanged(false, data, 256);
  }

  /** A bare selector panics. */
  lemma SelectorPanics(variant: nat)
    ensures Modified(BoolFlip, Zeros(4), variant).Panic?
  {
    NoParameters(BoolFlip, Zeros(4), variant);
  }

  function AddressByte(nearby: bool, data: seq<byte>, word: nat, j: nat, variant: nat): byte
    requires word + j < |data|
  {
    var b := data[word + j];
    if !LooksLikeAddress(data, word) then b
    else if j == 31 then Bump(b, variant)
    else if nearby && j == 30 then Bump(b, 1000 + variant * 100)
    else b
  }

  lemma OneWord(nearby: bool, data: seq<byte>, at: nat, variant: nat, p: nat)
    requires at + 32 <= |data| && p < |data|
    ensures AddressWord(nearby, data, at, variant)[p]
         == if at <= p < at + 32 then AddressByte(nearby, data, at, p - at, variant) else data[p]
  {}

  lemma LaterWord(nearby: bool, data: seq<byte>, at: nat, variant: nat, word: nat, j: nat)
    requires at + 32 <= word && word + j < |data|
    ensures AddressByte(nearby, AddressWord(nearby, data, at, variant), word, j, variant)
         == AddressByte(nearby, data, word, j, variant)
  {
    var next := AddressWord(nearby, data, at, variant);
    forall q | at + 32 <= q < |data|
      ensures next[q] == data[q]
    {
      OneWord(nearby, data, at, variant, q);
    }
  }

  lemma EarlierByte(nearby: bool, data: seq<byte>, at: nat, variant: nat, p: nat)
    requires p < at <= |data|
    ensures AddressWords(nearby, data, at, variant)[p] == data[p]
  {
    assert AddressWords(nearby, data, at, variant)[..at][p] == data[..at][p];
  }

  lemma FirstWord(nearby: bool, data: seq<byte>, at: nat, variant: nat, j: nat)
    requires at + j < |data| && j < 32
    ensures AddressWords(nearby, data, at, variant)[at + j] == AddressByte(nearby, data, at, j, variant)
  {
    if at + 32 <= |data| {
      EarlierByte(nearby, AddressWord(nearby, data, at, variant), at + 32, variant, at + j);
      OneWord(nearby, data, at, variant, at + j);
    }
  }

  /** An address mutation moves the last byte (and the one before, when nearby) of each whole word that
      has twelve zero bytes in front, and no other byte. */
  lemma {:induction false} AddressMeaning(nearby: bool, data: seq<byte>, at: nat, variant: nat, k: nat, word: nat, j: nat)
    requires word == at + 32 * k && word + j < |data| && j < 32
    ensures AddressWords(nearby, data, at, variant)[word + j] == AddressByte(nearby, data, word, j, variant)
    decreases k
  {
    if k == 0 {
      FirstWord(nearby, data, at, variant, j);
    } else {
      AddressMeaning(nearby, AddressWord(nearby, data, at, variant), at + 32, variant, k - 1, word, j);
      LaterWord(nearby, data, at, variant, word, j);
    }
  }

  // ---- the strategies on a buffer --------------------------------------------

  lemma {:induction false} MinBytesFits(n: nat, k: nat)
    requires n < Pow2(8 * k)
    ensures |MinBytes(n)| <= k
  {
    if n > 0 {
      Pow2Byte(k - 1);
      MinBytesFits(n / 256, k - 1);
    }
  }

  /** The shortest form of a number is its 32-byte form without leading zeros, or its 33-byte form. */
  lemma MinBytesOfWord(n: nat, k: nat)
    requires k == 32 && n < 2 * TWO256
    ensures n < TWO256 ==> |MinBytes(n)| <= k && ToBytes(n, k) == Zeros(k - |MinBytes(n)|) + MinBytes(n)
    ensures n >= TWO256 ==> MinBytes(n) == ToBytes(n, k + 1)
  {
    Pow2At(8 * k);
    if n < TWO256 {
      MinBytesFits(n, k);
      RightAligned(n, k);
    } else {
      Pow2Byte(k);
      MinBytesLength(n, k + 1);
      RightAligned(n, k + 1);
    }
  }

  /** Zero the parameter and copy the number's shortest form so that it ends with the parameter. */
  method WriteBack(buf: array<byte>, at: nat, n: nat)
    requires 0 < at && at + 32 <= buf.Length && n < 2 * TWO256
    modifies buf
    ensures buf[..] == if n < TWO256 then Overwrite(old(buf[..]), at, ToBytes(n, 32))
                       else Overwrite(old(buf[..]), at - 1, ToBytes(n, 33))
  {
    var valueBytes := MinBytes(n);
    MinBytesOfWord(n, 32);
    ZeroAndCopy(buf, at, 32, valueBytes);
  }

  method MutateUintBoundary(buf: array<byte>, variant: nat)
    requires buf.Length >= 36
    modifies buf
    ensures Ok(buf[..]) == Modified(UintBoundary, old(buf[..]), variant)
  {
    assert |buf[..]| == buf.Length;
    var at := UintBoundary.Target(buf.Length, variant);
    CopyInto(buf, at, Filled(32, if variant % 2 == 0 then 0 else 255));
  }

  method StepParameter(buf: array<byte>, at: nat, step: int)
    requires 0 < at && at + 32 <= buf.Length && -1000 <= step <= 1000
    modifies buf
    ensures buf[..] == StepWritten(old(buf[..]), at, step)
  {
    var currentValue := WordAt(buf[..], at);
    var newValue: int := currentValue + step;
    if newValue < 0 { newValue := 0; }
    WriteBack(buf, at, newValue);
  }

  method MutateUintStep(buf: array<byte>, variant: nat)
    requires buf.Length >= 36
    modifies buf
    ensures Ok(buf[..]) == Modified(UintStep, old(buf[..]), variant)
  {
    assert |buf[..]| == buf.Length;
    StepParameter(buf, UintStep.Target(buf.Length, variant), Step(variant));
  }

  method MutateUintMultiplier(buf: array<byte>, variant: nat)
    requires buf.Length >= 36
    modifies buf
    ensures Ok(buf[..]) == Modified(UintMultiplier, old(buf[..]), variant)
  {
    assert |buf[..]| == buf.Length;
    var at := UintMultiplier.Target(buf.Length, variant);
    var newValue := Product(buf[..], variant);
    var valueBytes := MinBytes(newValue);
    ShortExactlyBelow(newValue, 32);
    if |valueBytes| <= 32 {
      WriteBack(buf, at, newValue);
    } else {
      WriteBack(buf, at, 0);
    }
  }

  lemma ShortExactlyBelow(n: nat, k: nat)
    requires k == 32
    ensures |MinBytes(n)| <= k <==> n < TWO256
  {
    Pow2At(8 * k);
    if n < TWO256 {
      MinBytesFits(n, k);
    } else {
      RightAligned(n, k);
      FromToBytes(n, k);
      MinBytesValue(n);
      if |MinBytes(n)| <= k {
        FromBytesBound(MinBytes(n));
        Pow2Monotone(8 * |MinBytes(n)|, 8 * k);
      }
    }
  }

  method FlipParameter(buf: array<byte>, at: nat)
    requires at + 32 <= buf.Length
    modifies buf
    ensures buf[..] == Overwrite(old(buf[..]), at, Flipped(old(buf[..])[at..at + 32]))
  {
    buf[at + 31] := if buf[at + 31] == 0 then 1 else 0;
  }

  method MutateBoolFlip(buf: array<byte>, variant: nat)
    requires buf.Length >= 36
    modifies buf
    ensures Ok(buf[..]) == Modified(BoolFlip, old(buf[..]), variant)
  {
    assert |buf[..]| == buf.Length;
    FlipParameter(buf, BoolFlip.Target(buf.Length, variant));
  }

  method MutateBytePatterns(buf: array<byte>, variant: nat)
    requires buf.Length >= 36
    modifies buf
    ensures Ok(buf[..]) == Modified(PatternFill, old(buf[..]), variant)
  {
    assert |buf[..]| == buf.Length;
    Fill(buf, PatternFill.Target(buf.Length, variant), 32, PATTERNS[variant % |PATTERNS|]);
  }

  method MutateStringLength(buf: array<byte>, variant: nat)
    requires buf.Length >= 36
    modifies buf
    ensures Ok(buf[..]) == Modified(StringLength, old(buf[..]), variant)
  {
    assert |buf[..]| == buf.Length;
    WriteBack(buf, StringLength.Target(buf.Length, variant), LENGTHS[variant % |LENGTHS|]);
  }

  method IsAddressWord(buf: array<byte>, at: nat) returns (isZeroPrefix: bool)
    requires at + 32 <= buf.Length
    ensures isZeroPrefix == LooksLikeAddress(buf[..], at)
  {
    isZeroPrefix := true;
    var j := 0;
    while j < 12 && isZeroPrefix
      invariant 0 <= j <= 12
      invariant isZeroPrefix ==> forall p :: at <= p < at + j ==> buf[p] == 0
      invariant !isZeroPrefix ==> !LooksLikeAddress(buf[..], at)
    {
      if buf[at + j] != 0 { isZeroPrefix := false; }
      j := j + 1;
    }
  }

  method MutateAddressWord(nearby: bool, buf: array<byte>, at: nat, variant: nat)
    requires at + 32 <= buf.Length
    modifies buf
    ensures buf[..] == AddressWord(nearby, old(buf[..]), at, variant)
  {
    var isZeroPrefix := IsAddressWord(buf, at);
    if isZeroPrefix {
      if nearby {
        buf[at + 30] := Bump(buf[at + 30], 1000 + variant * 100);
      }
      buf[at + 31] := Bump(buf[at + 31], variant);
    }
  }

  /** mutateAddressesInParams, and mutateAddressesNearby when nearby is set. */
  method MutateAddresses(nearby: bool, buf: array<byte>, variant: nat)
    requires buf.Length >= 4
    modifies buf
    ensures Ok(buf[..]) == Modified(if nearby then AddressNearby else AddressKnown, old(buf[..]), variant)
  {
    var i := 4;
    while i + 32 <= buf.Length
      invariant 4 <= i <= buf.Length
      invariant AddressWords(nearby, buf[..], i, variant) == AddressWords(nearby, old(buf[..]), 4, variant)
    {
      MutateAddressWord(nearby, buf, i, variant);
      i := i + 32;
    }
  }

  method ModifyInputDataDefault(input: seq<byte>, variant: nat) returns (r: Outcome)
    ensures r == Modified(Default, input, variant)
  {
    if |input| < 4 { return TooShort; }
    var buf := Clone(input);
    if buf.Length > 4 {
      var paramLength := buf.Length - 4;
      var modifyIndex := 4 + variant % paramLength;
      buf[modifyIndex] := Bump(buf[modifyIndex], variant + 1);
      if variant > 10 && paramLength > 32 {
        var secondIndex := 4 + variant * 7 % paramLength;
        buf[secondIndex] := Bump(buf[secondIndex], variant * 2);
      }
    }
    r := Ok(buf[..]);
  }

  /** modifyInputDataBasicStrategy. */
  method ModifyInputDataBasicStrategy(s: Strategy, input: seq<byte>, variant: nat) returns (r: Outcome)
    ensures r == Modified(s, input, variant)
  {
    if |input| < 4 { return TooShort; }
    if s.TargetsOneParameter() && (|input| - 4) / 32 == 0 { return Panic; }
    var buf := Clone(input);
    match s {
      case AddressKnown => MutateAddresses(false, buf, variant);
      case AddressNearby => MutateAddresses(true, buf, variant);
      case UintBoundary => MutateUintBoundary(buf, variant);
      case UintStep => MutateUintStep(buf, variant);
      case UintMultiplier => MutateUintMultiplier(buf, variant);
      case BoolFlip => MutateBoolFlip(buf, variant);
      case PatternFill => MutateBytePatterns(buf, variant);
      case StringLength => MutateStringLength(buf, variant);
      case Default => r := ModifyInputDataDefault(input, variant); return;
    }
    r := Ok(buf[..]);
  }
}
