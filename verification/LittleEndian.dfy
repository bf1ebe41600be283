/** Integers as little-endian bytes, as both socket protocols carry them. */
module LittleEndian {
  import opened Common

  type Word = w: int | 0 <= w < U32

  /** 256 to the n: the first value that n bytes cannot hold. */
  function Limit(n: nat): (r: nat)
    ensures r > 0
  {
    if n == 0 then 1 else 0x100 * Limit(n - 1)
  }

  function ToBytes(x: nat, n: nat): (bs: seq<byte>)
    ensures |bs| == n
    decreases n
  {
    if n == 0 then [] else [x % 0x100] + ToBytes(x / 0x100, n - 1)
  }

  function FromBytes(bs: seq<byte>): (x: nat)
    decreases |bs|
  {
    if bs == [] then 0 else bs[0] + 0x100 * FromBytes(bs[1..])
  }

  /** n bytes hold exactly the values below the limit. */
  lemma {:induction false} BytesRoundTrip(x: nat, n: nat)
    ensures FromBytes(ToBytes(x, n)) == x <==> x < Limit(n)
    decreases n
  {
    if n > 0 {
      BytesRoundTrip(x / 0x100, n - 1);
      FromBytesBelow(ToBytes(x / 0x100, n - 1));
      assert ToBytes(x, n)[1..] == ToBytes(x / 0x100, n - 1);
    }
  }

  /** The bytes that come first are the low ones. */
  lemma {:induction false} LowBytesFirst(low: seq<byte>, high: seq<byte>)
    ensures FromBytes(low + high) == FromBytes(low) + Limit(|low|) * FromBytes(high)
    ensures |low| == 1 ==> FromBytes(low) == low[0]
    decreases |low|
  {
    if low == [] {
      assert low + high == high;
    } else {
      LowBytesFirst(low[1..], high);
      assert (low + high)[1..] == low[1..] + high;
      TimesAgain(low[0], FromBytes(low[1..]), Limit(|low| - 1), FromBytes(high));
    }
  }

  lemma TimesAgain(b: nat, x: nat, l: nat, y: nat)
    ensures b + 0x100 * (x + l * y) == b + 0x100 * x + 0x100 * l * y
  {
    assert 0x100 * (l * y) == 0x100 * l * y;
  }

  lemma {:induction false} FromBytesBelow(bs: seq<byte>)
    ensures FromBytes(bs) < Limit(|bs|)
    decreases |bs|
  {
    if bs != [] {
      FromBytesBelow(bs[1..]);
    }
  }

  /** Different byte strings of one length are different integers. */
  lemma {:induction false} ToBytesFromBytes(bs: seq<byte>)
    ensures ToBytes(FromBytes(bs), |bs|) == bs
    decreases |bs|
  {
    if bs != [] {
      var rest := FromBytes(bs[1..]);
      ToBytesFromBytes(bs[1..]);
      LowestByte(bs[0], rest);
      ToBytesStep(bs[0] + 0x100 * rest, |bs|);
      assert bs == [bs[0]] + bs[1..];
    }
  }

  lemma ToBytesStep(x: nat, n: nat)
    requires n > 0
    ensures ToBytes(x, n) == [x % 0x100] + ToBytes(x / 0x100, n - 1)
  {
  }

  lemma LowestByte(b: byte, rest: nat)
    ensures (b + 0x100 * rest) % 0x100 == b && (b + 0x100 * rest) / 0x100 == rest
  {
  }
}
