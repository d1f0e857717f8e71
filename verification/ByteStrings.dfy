/**
 Byte strings, and the go-ethereum and math/big byte helpers the SDK calls:
 `big.Int.Bytes`, `big.Int.SetBytes` and `common.LeftPadBytes`.
 */
module ByteStrings {
  import opened Positional

  type byte = b: nat | b < 256
  type Bytes = seq<byte>
  type Address = a: Bytes | |a| == 20 witness Zeros(20)
  type Hash = h: Bytes | |h| == 32 witness Zeros(32)

  const ZERO_ADDRESS: Address := Zeros(20)

  const TWO_48 := 0x1_0000_0000_0000
  const TWO_128 := 0x1_0000_0000_0000_0000_0000_0000_0000_0000
  const TWO_256 := 0x1_0000_0000_0000_0000_0000_0000_0000_0000_0000_0000_0000_0000_0000_0000_0000_0000

  function Zeros(k: nat): (bs: Bytes)
    ensures |bs| == k
  {
    seq(k, i => 0)
  }

  function Abs(x: int): nat {
    if x < 0 then -x else x
  }

  /** `big.Int.Bytes`: the absolute value, big-endian, without leading zeros. */
  function BigBytes(x: int): Bytes {
    Digits(Abs(x), 256)
  }

  /** `big.Int.SetBytes`: the unsigned big-endian number. */
  function Number(bs: Bytes): nat {
    Value(bs, 256)
  }

  /** `common.LeftPadBytes`: never truncates. */
  function LeftPad(bs: Bytes, size: nat): Bytes {
    if size <= |bs| then bs else Zeros(size - |bs|) + bs
  }

  /** The i-th hex digit of a byte string. */
  function Nibble(bs: Bytes, i: nat): (d: nat)
    requires i < 2 * |bs|
    ensures d < 16
  {
    if i % 2 == 0 then bs[i / 2] / 16 else bs[i / 2] % 16
  }

  function Padded(x: int, size: nat): Bytes {
    LeftPad(BigBytes(x), size)
  }

  predicate IsUint256(x: int) {
    0 <= x < TWO_256
  }

  predicate FitsIn128(x: int) {
    0 <= x < TWO_128
  }

  /** The bytes of a string whose characters are all below 256. */
  function Ascii(s: string): (bs: Bytes)
    ensures |bs| == |s|
    ensures forall i :: 0 <= i < |s| && s[i] as int < 256 ==> bs[i] == s[i] as int
  {
    seq(|s|, i requires 0 <= i < |s| => s[i] as int % 256)
  }

  lemma AsciiOfConcat(s: string, t: string)
    ensures Ascii(s + t) == Ascii(s) + Ascii(t)
  {
  }

  lemma PowersOf256()
    ensures Pow(256, 6) == TWO_48
    ensures Pow(256, 16) == TWO_128
    ensures Pow(256, 32) == TWO_256
  {
    assert Pow(256, 6) == TWO_48;
    assert Pow(256, 11) == Pow(256, 6) * 0x100_0000_0000;
    assert Pow(256, 16) == Pow(256, 11) * 0x100_0000_0000;
    assert Pow(256, 21) == Pow(256, 16) * 0x100_0000_0000;
    assert Pow(256, 26) == Pow(256, 21) * 0x100_0000_0000;
    assert Pow(256, 32) == Pow(256, 26) * 0x1_0000_0000_0000;
  }

  lemma NumberBound(bs: Bytes)
    ensures Number(bs) < Pow(256, |bs|)
  {
    ValueBound(bs, 256);
  }

  lemma NumberOfConcat(a: Bytes, b: Bytes)
    ensures Number(a + b) == Number(a) * Pow(256, |b|) + Number(b)
  {
    ValueOfConcat(a, b, 256);
  }

  lemma NumberOfPad(bs: Bytes, size: nat)
    ensures Number(LeftPad(bs, size)) == Number(bs)
  {
    if |bs| < size {
      NumberOfConcat(Zeros(size - |bs|), bs);
      ValueOfZeros(size - |bs|, 256);
    }
  }

  /** A padded integer reads back as its absolute value, and has exactly the wanted width when it fits. */
  lemma PaddedReadsBack(x: int, size: nat)
    ensures Number(Padded(x, size)) == if x < 0 then -x else x
    ensures size <= |Padded(x, size)|
    ensures |Padded(x, size)| == size <==> Abs(x) < Pow(256, size)
  {
    NumberOfPad(BigBytes(x), size);
    ValueOfDigits(Abs(x), 256);
    DigitCount(Abs(x), 256, size);
  }

  /** A byte string is the padding of its own number to its own width. */
  lemma PaddedOfNumber(bs: Bytes)
    ensures Padded(Number(bs), |bs|) == bs
  {
    NumberBound(bs);
    PaddedReadsBack(Number(bs), |bs|);
    ValueInjective(Padded(Number(bs), |bs|), bs, 256);
  }

  /** The left part of a concatenation fixes the right part when the left parts have one length. */
  lemma ConcatInjective<T>(a: seq<T>, b: seq<T>, a': seq<T>, b': seq<T>)
    requires a + b == a' + b'
    requires |a| == |a'| || |b| == |b'|
    ensures a == a' && b == b'
  {
    assert |a + b| == |a' + b'|;
    assert a == (a + b)[..|a|] && b == (a + b)[|a|..];
    assert a' == (a' + b')[..|a|] && b' == (a' + b')[|a|..];
  }
}
