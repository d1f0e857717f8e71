/**
 The static part of the Solidity contract ABI: every argument is one 32-byte word,
 addresses are padded on the left and unsigned integers are reduced modulo 2^256.
 See "Formal Specification of the Encoding" in the Solidity Contract ABI Specification.
 */
module Abi {
  import opened ByteStrings

  function UintWord(x: int): Hash {
    PowersOf256();
    PaddedReadsBack(x % TWO_256, 32);
    Padded(x % TWO_256, 32)
  }

  function AddressWord(a: Address): Hash {
    LeftPad(a, 32)
  }

  /** `abi.Arguments.Pack` on static words. */
  function Pack(words: seq<Hash>): (bs: Bytes)
    ensures |bs| == 32 * |words|
  {
    if words == [] then [] else words[0] + Pack(words[1..])
  }

  lemma UintWordReadsBack(x: int)
    ensures Number(UintWord(x)) == x % TWO_256
  {
    PaddedReadsBack(x % TWO_256, 32);
  }

  lemma UintWordOfNumber(bs: Bytes)
    requires |bs| == 32
    ensures UintWord(Number(bs)) == bs
  {
    assert Number(bs) % TWO_256 == Number(bs) by {
      NumberBound(bs);
      PowersOf256();
    }
    PaddedOfNumber(bs);
  }

  lemma WordOfItsNumber(x: int, w: Hash)
    requires Number(w) == x
    ensures UintWord(x) == w
  {
    UintWordOfNumber(w);
  }

  lemma AddressWordInjective(a: Address, b: Address)
    requires AddressWord(a) == AddressWord(b)
    ensures a == b
  {
    ConcatInjective(Zeros(12), a, Zeros(12), b);
  }

  /** Packed static arguments can be taken apart again. */
  lemma {:induction false} PackInjective(ws: seq<Hash>, vs: seq<Hash>)
    requires Pack(ws) == Pack(vs)
    ensures ws == vs
  {
    if ws != [] && vs != [] {
      ConcatInjective(ws[0], Pack(ws[1..]), vs[0], Pack(vs[1..]));
      PackInjective(ws[1..], vs[1..]);
      assert ws == [ws[0]] + ws[1..] && vs == [vs[0]] + vs[1..];
    }
  }

  /** The k-th argument sits at byte 32k. */
  lemma {:induction false} WordAt(ws: seq<Hash>, k: nat)
    requires k < |ws|
    ensures Pack(ws)[32 * k..32 * k + 32] == ws[k]
  {
    var rest := Pack(ws[1..]);
    assert Pack(ws) == ws[0] + rest;
    if k != 0 {
      WordAt(ws[1..], k - 1);
      assert Pack(ws)[32 * k..32 * k + 32] == rest[32 * (k - 1)..32 * (k - 1) + 32];
    }
  }
}
