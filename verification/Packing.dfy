/**
 The fixed-offset packers: `PackInt` and `PackUserOperation` of utils.go,
 `PackPaymasterAndData` and `EncodePaymasterData` of paymaster.go.
 */
module Packing {
  import opened Wrappers
  import opened Positional
  import opened ByteStrings
  import opened Abi
  import opened UserOps

  const PAYMASTER_VALIDATION_GAS_OFFSET := 20
  const PAYMASTER_POST_OP_GAS_OFFSET := 36
  const PAYMASTER_DATA_OFFSET := 52

  /** Two integers in one word, 16 bytes each when they fit. */
  function PackedInts(a: int, b: int): Hash {
    PaddedReadsBack(a, 16);
    PaddedReadsBack(b, 16);
    (Padded(a, 16) + Padded(b, 16))[..32]
  }

  /** `PackInt`: None is the panic, taken as soon as one argument is nil. */
  method PackInt(a: Option<int>, b: Option<int>) returns (r: Option<Hash>)
    ensures r.Some? <==> a.Some? && b.Some?
    ensures r.Some? ==> r.value == PackedInts(a.value, b.value)
  {
    if a.None? || b.None? {
      return None;
    }
    PaddedReadsBack(a.value, 16);
    PaddedReadsBack(b.value, 16);
    var result := new byte[32](_ => 0);
    var both := LeftPad(BigBytes(a.value), 16) + LeftPad(BigBytes(b.value), 16);
    for i := 0 to 32
      invariant result[..i] == both[..i]
    {
      result[i] := both[i];
    }
    assert result[..] == both[..32];
    r := Some(result[..]);
  }

  /** In range, the word is a·2^128 + b, and each half is one of the numbers. */
  lemma PackedIntsMeaning(a: int, b: int)
    requires FitsIn128(a) && FitsIn128(b)
    ensures PackedInts(a, b) == Padded(a, 16) + Padded(b, 16)
    ensures Number(PackedInts(a, b)[..16]) == a && Number(PackedInts(a, b)[16..]) == b
    ensures Number(PackedInts(a, b)) == a * TWO_128 + b
  {
    PowersOf256();
    PaddedReadsBack(a, 16);
    PaddedReadsBack(b, 16);
    NumberOfConcat(Padded(a, 16), Padded(b, 16));
    var both := Padded(a, 16) + Padded(b, 16);
    assert both[..32] == both && both[..16] == Padded(a, 16) && both[16..] == Padded(b, 16);
  }

  lemma NumberOfSplit(bs: Bytes, k: nat)
    requires k <= |bs|
    ensures Number(bs) == Number(bs[..k]) * Pow(256, |bs| - k) + Number(bs[k..])
    ensures Number(bs[k..]) < Pow(256, |bs| - k)
  {
    assert bs == bs[..k] + bs[k..];
    NumberOfConcat(bs[..k], bs[k..]);
    NumberBound(bs[k..]);
  }

  /**
   For integers of any sign and size: signs are dropped, the two numbers are written one after the
   other, each in at least 16 bytes, and everything after the leading 32 bytes is lost.
   */
  lemma PackedIntsOfAny(a: int, b: int) returns (lost: nat)
    ensures
      var x, y := |Padded(a, 16)|, |Padded(b, 16)|;
      && 16 <= x && 16 <= y
      && Number(Padded(a, 16)) * Pow(256, y) + Number(Padded(b, 16))
         == Number(PackedInts(a, b)) * Pow(256, x + y - 32) + lost
      && lost < Pow(256, x + y - 32)
      && Number(Padded(a, 16)) == (if a < 0 then -a else a)
      && Number(Padded(b, 16)) == (if b < 0 then -b else b)
  {
    PaddedReadsBack(a, 16);
    PaddedReadsBack(b, 16);
    var both := Padded(a, 16) + Padded(b, 16);
    NumberOfConcat(Padded(a, 16), Padded(b, 16));
    NumberOfSplit(both, 32);
    lost := Number(both[32..]);
  }

  lemma PackedIntsInjective(a: int, b: int, c: int, d: int)
    requires FitsIn128(a) && FitsIn128(b) && FitsIn128(c) && FitsIn128(d)
    requires PackedInts(a, b) == PackedInts(c, d)
    ensures a == c && b == d
  {
    PackedIntsMeaning(a, b);
    PackedIntsMeaning(c, d);
  }

  /**
   Out of range the packing is not injective: a first integer of 17 bytes pushes the last byte of
   the second one out of the word.
   */
  lemma OversizedLimitsCollide()
    ensures PackedInts(TWO_128, 1) == PackedInts(TWO_128, 2)
  {
    PowersOf256();
    assert Pow(256, 17) == Pow(256, 16) * 256;
    DigitCount(TWO_128, 256, 16);
    DigitCount(TWO_128, 256, 17);
    var a := Padded(TWO_128, 16);
    assert |a| == 17;
    assert Padded(1, 16) == Zeros(15) + [1] && Padded(2, 16) == Zeros(15) + [2];
    assert (a + Padded(1, 16))[..32] == a + Zeros(15) == (a + Padded(2, 16))[..32];
  }

  function PaymasterAndData(paymaster: Address, verGasLimit: int, postOpGasLimit: int, data: Bytes): (bs: Bytes)
    ensures PAYMASTER_DATA_OFFSET + |data| <= |bs|
  {
    PaddedReadsBack(verGasLimit, 16);
    PaddedReadsBack(postOpGasLimit, 16);
    paymaster + Padded(verGasLimit, 16) + Padded(postOpGasLimit, 16) + data
  }

  method PackPaymasterAndData(paymaster: Address, verGasLimit: int, postOpGasLimit: int, data: Bytes)
    returns (result: Bytes)
    ensures result == PaymasterAndData(paymaster, verGasLimit, postOpGasLimit, data)
  {
    var verGasBytes := LeftPad(BigBytes(verGasLimit), 16);
    var postOpGasBytes := LeftPad(BigBytes(postOpGasLimit), 16);
    result := [];
    result := result + paymaster;
    result := result + verGasBytes;
    result := result + postOpGasBytes;
    result := result + data;
  }

  function PaymasterData(validUntil: int, validAfter: int, signature: Bytes): Bytes {
    Abi.Pack([UintWord(validUntil), UintWord(validAfter)]) + signature
  }

  method EncodePaymasterData(validUntil: int, validAfter: int, signature: Bytes) returns (data: Bytes)
    ensures data == PaymasterData(validUntil, validAfter, signature)
  {
    data := Abi.Pack([UintWord(validUntil), UintWord(validAfter)]);
    data := data + signature;
  }

  /** The data part never starts before byte 52, whatever the limits; it starts there when they fit. */
  lemma DataOffset(p: Address, v: int, o: int, data: Bytes)
    ensures |PaymasterAndData(p, v, o, [])| >= PAYMASTER_DATA_OFFSET
    ensures PaymasterAndData(p, v, o, data) == PaymasterAndData(p, v, o, []) + data
    ensures FitsIn128(v) && FitsIn128(o) ==> |PaymasterAndData(p, v, o, [])| == PAYMASTER_DATA_OFFSET
  {
    PowersOf256();
    PaddedReadsBack(v, 16);
    PaddedReadsBack(o, 16);
    assert PaymasterAndData(p, v, o, []) == p + Padded(v, 16) + Padded(o, 16);
  }

  lemma PaymasterDataAtOffsets(p: Address, v: int, o: int, data: Bytes)
    requires FitsIn128(v) && FitsIn128(o) && |data| == 129
    ensures var x := PaymasterAndData(p, v, o, data);
            && |x| == 181 && x[..20] == p
            && x[52..84] == data[..32] && x[84..116] == data[32..64] && x[116..181] == data[64..]
  {
    DataOffset(p, v, o, data);
  }

  lemma PaymasterDataLayout(validUntil: int, validAfter: int, signature: Bytes)
    ensures PaymasterData(validUntil, validAfter, signature) ==
            UintWord(validUntil) + UintWord(validAfter) + signature
  {
    var words := [UintWord(validUntil), UintWord(validAfter)];
    assert words[1..] == [UintWord(validAfter)] && words[1..][1..] == [];
    assert Abi.Pack(words) == words[0] + Abi.Pack(words[1..]);
    assert Abi.Pack(words[1..]) == words[1] + Abi.Pack([]);
  }

  lemma PaymasterDataReadsBack(validUntil: int, validAfter: int, signature: Bytes)
    requires 0 <= validUntil < TWO_48 && 0 <= validAfter < TWO_48
    ensures var x := PaymasterData(validUntil, validAfter, signature);
            && |x| == 64 + |signature|
            && Number(x[..32]) == validUntil && Number(x[32..64]) == validAfter && x[64..] == signature
  {
    PaymasterDataLayout(validUntil, validAfter, signature);
    UintWordReadsBack(validUntil);
    UintWordReadsBack(validAfter);
    var x := PaymasterData(validUntil, validAfter, signature);
    assert x[..32] == UintWord(validUntil) && x[32..64] == UintWord(validAfter);
  }

  /** The bytes are fixed by the two numbers and the signature read from them. */
  lemma PaymasterDataOfNumbers(validUntil: int, validAfter: int, data: Bytes)
    requires 64 <= |data| && Number(data[..32]) == validUntil && Number(data[32..64]) == validAfter
    ensures data == PaymasterData(validUntil, validAfter, data[64..])
  {
    WordOfItsNumber(validUntil, data[..32]);
    WordOfItsNumber(validAfter, data[32..64]);
    PaymasterDataLayout(validUntil, validAfter, data[64..]);
    assert data == data[..32] + data[32..64] + data[64..];
  }

  /** Every field can be cut out of paymasterAndData at its fixed offset. */
  lemma PaymasterFieldsReadBack(p: Address, v: int, o: int, validUntil: int, validAfter: int, signature: Bytes)
    requires FitsIn128(v) && FitsIn128(o)
    requires 0 <= validUntil < TWO_48 && 0 <= validAfter < TWO_48
    ensures var x := PaymasterAndData(p, v, o, PaymasterData(validUntil, validAfter, signature));
            && |x| == 116 + |signature|
            && x[..PAYMASTER_VALIDATION_GAS_OFFSET] == p
            && Number(x[PAYMASTER_VALIDATION_GAS_OFFSET..PAYMASTER_POST_OP_GAS_OFFSET]) == v
            && Number(x[PAYMASTER_POST_OP_GAS_OFFSET..PAYMASTER_DATA_OFFSET]) == o
            && x[PAYMASTER_VALIDATION_GAS_OFFSET..PAYMASTER_DATA_OFFSET] == PackedInts(v, o)
            && Number(x[PAYMASTER_VALIDATION_GAS_OFFSET..PAYMASTER_DATA_OFFSET]) == v * TWO_128 + o
            && Number(x[PAYMASTER_DATA_OFFSET..84]) == validUntil
            && Number(x[84..116]) == validAfter
            && x[116..] == signature
  {
    PowersOf256();
    PaddedReadsBack(v, 16);
    PaddedReadsBack(o, 16);
    PackedIntsMeaning(v, o);
    PaymasterDataLayout(validUntil, validAfter, signature);
    UintWordReadsBack(validUntil);
    UintWordReadsBack(validAfter);
    var x := PaymasterAndData(p, v, o, PaymasterData(validUntil, validAfter, signature));
    assert x == p + Padded(v, 16) + Padded(o, 16) + UintWord(validUntil) + UintWord(validAfter) + signature;
    assert x[20..36] == Padded(v, 16) && x[36..52] == Padded(o, 16) && x[20..52] == PackedInts(v, o);
    assert x[52..84] == UintWord(validUntil) && x[84..116] == UintWord(validAfter);
  }

  /** The PackedUserOperation of ERC-4337. */
  datatype PackedUserOp = PackedUserOp(
    sender: Address,
    nonce: int,
    initCode: Bytes,
    callData: Bytes,
    accountGasLimits: Hash,
    preVerificationGas: int,
    gasFees: Hash,
    paymasterAndData: Bytes,
    signature: Bytes)

  /** `PackUserOperation`. */
  function PackUserOperation(u: UserOp): PackedUserOp
    requires u.NumbersSet()
  {
    PackedUserOp(
      sender := u.sender,
      nonce := u.nonce.value,
      initCode := u.initCode,
      callData := u.callData,
      accountGasLimits := PackedInts(u.verificationGasLimit.value, u.callGasLimit.value),
      preVerificationGas := u.preVerificationGas.value,
      gasFees := PackedInts(u.maxPriorityFeePerGas.value, u.maxFeePerGas.value),
      paymasterAndData := PaymasterAndData(
        u.paymaster, u.paymasterVerificationGasLimit.value, u.paymasterPostOpGasLimit.value, u.paymasterData),
      signature := u.signature)
  }

  /** Two operations agree on everything the packed form carries, the signature apart. */
  ghost predicate SamePackedFields(u: UserOp, w: UserOp) {
    && u.sender == w.sender && u.nonce == w.nonce
    && u.initCode == w.initCode && u.callData == w.callData
    && u.callGasLimit == w.callGasLimit && u.verificationGasLimit == w.verificationGasLimit
    && u.preVerificationGas == w.preVerificationGas
    && u.maxFeePerGas == w.maxFeePerGas && u.maxPriorityFeePerGas == w.maxPriorityFeePerGas
    && u.paymaster == w.paymaster && u.paymasterData == w.paymasterData
    && u.paymasterVerificationGasLimit == w.paymasterVerificationGasLimit
    && u.paymasterPostOpGasLimit == w.paymasterPostOpGasLimit
  }

  lemma PaymasterAndDataInjective(p: Address, v: int, o: int, data: Bytes, p': Address, v': int, o': int, data': Bytes)
    requires FitsIn128(v) && FitsIn128(o) && FitsIn128(v') && FitsIn128(o')
    requires PaymasterAndData(p, v, o, data) == PaymasterAndData(p', v', o', data')
    ensures p == p' && v == v' && o == o' && data == data'
  {
    PowersOf256();
    PaddedReadsBack(v, 16);
    PaddedReadsBack(o, 16);
    PaddedReadsBack(v', 16);
    PaddedReadsBack(o', 16);
    ConcatInjective(p + Padded(v, 16) + Padded(o, 16), data, p' + Padded(v', 16) + Padded(o', 16), data');
    ConcatInjective(p + Padded(v, 16), Padded(o, 16), p' + Padded(v', 16), Padded(o', 16));
    ConcatInjective(p, Padded(v, 16), p', Padded(v', 16));
  }

  /** With its limits in range, an operation can be recovered from its packed form. */
  lemma PackUserOperationInjective(u: UserOp, w: UserOp)
    requires u.NumbersSet() && u.LimitsInRange()
    requires w.NumbersSet() && w.LimitsInRange()
    requires PackUserOperation(u) == PackUserOperation(w)
    ensures SamePackedFields(u, w) && u.signature == w.signature
  {
    PackedIntsInjective(u.verificationGasLimit.value, u.callGasLimit.value,
                        w.verificationGasLimit.value, w.callGasLimit.value);
    PackedIntsInjective(u.maxPriorityFeePerGas.value, u.maxFeePerGas.value,
                        w.maxPriorityFeePerGas.value, w.maxFeePerGas.value);
    PaymasterAndDataInjective(
      u.paymaster, u.paymasterVerificationGasLimit.value, u.paymasterPostOpGasLimit.value, u.paymasterData,
      w.paymaster, w.paymasterVerificationGasLimit.value, w.paymasterPostOpGasLimit.value, w.paymasterData);
  }
}
