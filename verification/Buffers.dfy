/** Go's copy and fill loops on a byte buffer, specified by one overwriting function. */
module Buffers {
  import opened Bytes

  /** data with src written at the given position. */
  function Overwrite(data: seq<byte>, at: nat, src: seq<byte>): (r: seq<byte>)
    requires at + |src| <= |data|
    ensures |r| == |data|
  {
    data[..at] + src + data[at + |src|..]
  }

  lemma OverwriteShift(prefix: seq<byte>, data: seq<byte>, at: nat, src: seq<byte>)
    requires at + |src| <= |data|
    ensures Overwrite(prefix + data, |prefix| + at, src) == prefix + Overwrite(data, at, src)
  {}

  /** Zeroing a field and then copying bs so that both end at the same place. */
  lemma ZeroThenCopy(data: seq<byte>, at: nat, size: nat, bs: seq<byte>)
    requires at + size <= |data| && |bs| <= at + size
    ensures Overwrite(Overwrite(data, at, Zeros(size)), at + size - |bs|, bs)
         == if |bs| <= size then Overwrite(data, at, Zeros(size - |bs|) + bs)
            else Overwrite(data, at + size - |bs|, bs)
  {}

  lemma OverwriteNext(data: seq<byte>, at: nat, src: seq<byte>, x: byte)
    requires at + |src| < |data|
    ensures Overwrite(data, at, src)[at + |src| := x] == Overwrite(data, at, src + [x])
  {}

  method CopyInto(buf: array<byte>, at: nat, src: seq<byte>)
    requires at + |src| <= buf.Length
    modifies buf
    ensures buf[..] == Overwrite(old(buf[..]), at, src)
  {
    var j := 0;
    while j < |src|
      invariant 0 <= j <= |src|
      invariant buf[..] == Overwrite(old(buf[..]), at, src[..j])
    {
      OverwriteNext(old(buf[..]), at, src[..j], src[j]);
      assert src[..j] + [src[j]] == src[..j + 1];
      buf[at + j] := src[j];
      j := j + 1;
    }
    assert src[..j] == src;
  }

  function Filled(n: nat, value: byte): (r: seq<byte>)
    ensures |r| == n
    ensures forall i :: 0 <= i < n ==> r[i] == value
    ensures value == 0 ==> r == Zeros(n)
  {
    seq(n, i => value)
  }

  lemma FilledNext(n: nat, value: byte)
    ensures Filled(n, value) + [value] == Filled(n + 1, value)
  {}

  method Fill(buf: array<byte>, at: nat, n: nat, value: byte)
    requires at + n <= buf.Length
    modifies buf
    ensures buf[..] == Overwrite(old(buf[..]), at, Filled(n, value))
  {
    var j := 0;
    while j < n
      invariant 0 <= j <= n
      invariant buf[..] == Overwrite(old(buf[..]), at, Filled(j, value))
    {
      OverwriteNext(old(buf[..]), at, Filled(j, value), value);
      FilledNext(j, value);
      buf[at + j] := value;
      j := j + 1;
    }
  }

  /** make and copy. */
  method Clone(src: seq<byte>) returns (buf: array<byte>)
    ensures fresh(buf) && buf[..] == src
  {
    buf := new byte[|src|](i requires 0 <= i < |src| => src[i]);
  }

  /** Zero filling n bytes and copying the last n bytes of the shortest form gives the n-byte form. */
  lemma {:induction false} RightAligned(n: nat, k: nat)
    ensures var bs := MinBytes(n);
      ToBytes(n, k) == if |bs| <= k then Zeros(k - |bs|) + bs else bs[|bs| - k..]
  {
    if k > 0 {
      RightAligned(n / 256, k - 1);
      if n > 0 {
        assert MinBytes(n) == MinBytes(n / 256) + [n % 256];
      } else {
        assert Zeros(k) == Zeros(k - 1) + [0];
      }
    }
  }

  method ZeroAndCopy(buf: array<byte>, at: nat, size: nat, bs: seq<byte>)
    requires at + size <= buf.Length && |bs| <= at + size
    modifies buf
    ensures buf[..] == if |bs| <= size then Overwrite(old(buf[..]), at, Zeros(size - |bs|) + bs)
                       else Overwrite(old(buf[..]), at + size - |bs|, bs)
  {
    ZeroThenCopy(buf[..], at, size, bs);
    Fill(buf, at, size, 0);
    CopyInto(buf, at + size - |bs|, bs);
  }

  lemma LowBytes(n: nat, size: nat, bs: seq<byte>)
    requires bs == if |MinBytes(n)| > size then MinBytes(n)[|MinBytes(n)| - size..] else MinBytes(n)
    ensures |bs| <= size && Zeros(size - |bs|) + bs == ToBytes(n, size)
  {
    RightAligned(n, size);
  }

  /** Zero a field of the buffer and copy a number into it, right-aligned, cut to its low bytes. */
  method PutNumber(buf: array<byte>, at: nat, size: nat, n: nat)
    requires at + size <= buf.Length
    modifies buf
    ensures buf[..] == Overwrite(old(buf[..]), at, ToBytes(n, size))
  {
    var valueBytes := MinBytes(n);
    if |valueBytes| > size {
      valueBytes := valueBytes[|valueBytes| - size..];
    }
    LowBytes(n, size, valueBytes);
    ZeroAndCopy(buf, at, size, valueBytes);
  }
}
