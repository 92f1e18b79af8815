/**
 Words and bytes with the host's byte order as a parameter: what memcpy of a word reads and
 writes, and the conversion between native and big-endian words.
 */
module Bytes {

  newtype byte = x: int | 0 <= x < 256

  type u16 = x: nat | x < 0x1_0000

  type u32 = x: nat | x < 0x1_0000_0000

  datatype ByteOrder = LittleEndian | BigEndian

  function Pow256(n: nat): nat { if n == 0 then 1 else 256 * Pow256(n - 1) }

  /** The `n` low bytes of `x`, least significant first. */
  function Little(n: nat, x: nat): (r: seq<byte>)
    ensures |r| == n
  {
    if n == 0 then [] else [(x % 256) as byte] + Little(n - 1, x / 256)
  }

  function FromLittle(bs: seq<byte>): nat {
    if |bs| == 0 then 0 else bs[0] as nat + 256 * FromLittle(bs[1..])
  }

  function Reverse(bs: seq<byte>): (r: seq<byte>)
    ensures |r| == |bs| && forall i :: 0 <= i < |bs| ==> r[i] == bs[|bs| - 1 - i]
  {
    if |bs| == 0 then [] else Reverse(bs[1..]) + [bs[0]]
  }

  /** Network order: most significant byte first. */
  function Big(n: nat, x: nat): (r: seq<byte>) ensures |r| == n { Reverse(Little(n, x)) }

  function FromBig(bs: seq<byte>): nat { FromLittle(Reverse(bs)) }

  lemma LittleTwo(x: u16)
    ensures Little(2, x) == [(x % 0x100) as byte, (x / 0x100) as byte]
  {
    assert Little(2, x) == [(x % 256) as byte] + Little(1, x / 256);
    assert Little(1, x / 256) == [(x / 256 % 256) as byte] + Little(0, x / 256 / 256);
  }

  lemma LittleFour(x: u32)
    ensures Little(4, x) == [(x % 0x100) as byte, (x / 0x100 % 0x100) as byte,
                             (x / 0x1_0000 % 0x100) as byte, (x / 0x100_0000) as byte]
  {
    var high := x / 0x1_0000;
    assert x / 256 / 256 == high && high < 0x1_0000;
    LittleTwo(high);
    assert high / 0x100 == x / 0x100_0000;
    assert Little(4, x) == [(x % 256) as byte] + Little(3, x / 256);
    assert Little(3, x / 256) == [(x / 256 % 256) as byte] + Little(2, high);
  }

  /** Four bytes in network order, spelled out. */
  lemma BigFour(bs: seq<byte>, x: u32)
    requires |bs| == 4
    ensures bs == Big(4, x) <==>
            && bs[0] as nat == x / 0x100_0000 && bs[1] as nat == x / 0x1_0000 % 0x100
            && bs[2] as nat == x / 0x100 % 0x100 && bs[3] as nat == x % 0x100
  {
    LittleFour(x);
    var b := Big(4, x);
    assert b[0] == Little(4, x)[3] && b[1] == Little(4, x)[2] && b[2] == Little(4, x)[1] && b[3] == Little(4, x)[0];
  }

  lemma FromLittleStep(low: byte, rest: seq<byte>)
    ensures FromLittle([low] + rest) == low as nat + 256 * FromLittle(rest)
  {
    assert ([low] + rest)[1..] == rest;
  }

  lemma FromBigTwo(bs: seq<byte>)
    requires |bs| == 2
    ensures FromBig(bs) == bs[0] as nat * 0x100 + bs[1] as nat
  {
    assert Reverse(bs) == [bs[1]] + ([bs[0]] + []);
    FromLittleStep(bs[0], []);
    FromLittleStep(bs[1], [bs[0]] + []);
  }

  lemma FromBigFour(bs: seq<byte>)
    requires |bs| == 4
    ensures FromBig(bs) ==
            bs[0] as nat * 0x100_0000 + bs[1] as nat * 0x1_0000 + bs[2] as nat * 0x100 + bs[3] as nat
  {
    var high := [bs[1]] + [bs[0]];
    assert high == Reverse(bs[0..2]);
    FromBigTwo(bs[0..2]);
    assert Reverse(bs) == [bs[3]] + ([bs[2]] + high);
    FromLittleStep(bs[2], high);
    FromLittleStep(bs[3], [bs[2]] + high);
  }

  lemma BigTwo(bs: seq<byte>, x: u16)
    requires |bs| == 2
    ensures bs == Big(2, x) <==> bs[0] as nat == x / 0x100 && bs[1] as nat == x % 0x100
  {
    LittleTwo(x);
    var b := Big(2, x);
    assert b[0] == Little(2, x)[1] && b[1] == Little(2, x)[0];
  }

  /** memcpy from an n-byte word of the host. */
  function Store(order: ByteOrder, n: nat, x: nat): (r: seq<byte>)
    ensures |r| == n
  {
    if order.LittleEndian? then Little(n, x) else Big(n, x)
  }

  /** memcpy into a word of the host. */
  function Load(order: ByteOrder, bs: seq<byte>): nat {
    if order.LittleEndian? then FromLittle(bs) else FromBig(bs)
  }

  /** native_to_big and big_to_native: the bytes of the word are reversed on little-endian hosts. */
  function SwapToBig(order: ByteOrder, n: nat, x: nat): nat {
    if order.LittleEndian? then FromLittle(Reverse(Little(n, x))) else x
  }

  lemma {:induction false} LittleThenFrom(n: nat, x: nat)
    requires x < Pow256(n)
    ensures FromLittle(Little(n, x)) == x
  {
    if n > 0 {
      LittleThenFrom(n - 1, x / 256);
      assert Little(n, x)[1..] == Little(n - 1, x / 256);
    }
  }

  lemma LowByte(low: byte, high: nat)
    ensures (low as nat + 256 * high) % 256 == low as nat && (low as nat + 256 * high) / 256 == high
  {
  }

  lemma {:induction false} FromThenLittle(bs: seq<byte>)
    ensures FromLittle(bs) < Pow256(|bs|) && Little(|bs|, FromLittle(bs)) == bs
  {
    if |bs| > 0 {
      FromThenLittle(bs[1..]);
      LowByte(bs[0], FromLittle(bs[1..]));
      assert Little(|bs|, FromLittle(bs)) == [bs[0]] + Little(|bs| - 1, FromLittle(bs[1..]));
    }
  }

  lemma ReverseTwice(bs: seq<byte>)
    ensures Reverse(Reverse(bs)) == bs
  {
  }

  /** Both byte orders put the same bytes on the wire: the big-endian ones. */
  lemma StoreIsBig(order: ByteOrder, n: nat, x: nat)
    ensures Store(order, n, SwapToBig(order, n, x)) == Big(n, x)
  {
    FromThenLittle(Reverse(Little(n, x)));
  }

  /** Both byte orders read the same number from the wire: the big-endian one. */
  lemma LoadIsBig(order: ByteOrder, bs: seq<byte>)
    ensures SwapToBig(order, |bs|, Load(order, bs)) == FromBig(bs) < Pow256(|bs|)
  {
    FromThenLittle(bs);
    FromThenLittle(Reverse(bs));
  }

  lemma BigThenFrom(n: nat, x: nat)
    requires x < Pow256(n)
    ensures FromBig(Big(n, x)) == x
  {
    LittleThenFrom(n, x);
    ReverseTwice(Little(n, x));
  }

  lemma FromThenBig(bs: seq<byte>)
    ensures Big(|bs|, FromBig(bs)) == bs
  {
    FromThenLittle(Reverse(bs));
    ReverseTwice(bs);
  }

  /** A word stored by one host and loaded by another, whatever their byte orders, is the same word. */
  lemma CrossHost(writer: ByteOrder, reader: ByteOrder, n: nat, x: nat)
    requires x < Pow256(n)
    ensures SwapToBig(reader, n, Load(reader, Store(writer, n, SwapToBig(writer, n, x)))) == x
  {
    StoreIsBig(writer, n, x);
    LoadIsBig(reader, Big(n, x));
    BigThenFrom(n, x);
  }
}
