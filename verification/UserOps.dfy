/** types.go without the JSON body: the user operation, as an object and as a value, and its defaults. */
module UserOps {
  import opened Wrappers
  import opened ByteStrings

  /** The fields of a user operation; None stands for a nil `*big.Int`. */
  datatype UserOp = UserOp(
    sender: Address,
    nonce: Option<int>,
    callData: Bytes,
    callGasLimit: Option<int>,
    verificationGasLimit: Option<int>,
    preVerificationGas: Option<int>,
    maxFeePerGas: Option<int>,
    maxPriorityFeePerGas: Option<int>,
    signature: Bytes,
    paymaster: Address,
    paymasterData: Bytes,
    paymasterVerificationGasLimit: Option<int>,
    paymasterPostOpGasLimit: Option<int>,
    factory: Address,
    factoryData: Bytes,
    initCode: Bytes,
    salt: Option<int>)
  {
    /** The numbers that packing and hashing dereference, the nonce apart. */
    predicate LimitsSet() {
      && callGasLimit.Some? && verificationGasLimit.Some? && preVerificationGas.Some?
      && maxFeePerGas.Some? && maxPriorityFeePerGas.Some?
      && paymasterVerificationGasLimit.Some? && paymasterPostOpGasLimit.Some?
    }

    predicate NumbersSet() {
      nonce.Some? && LimitsSet()
    }

    predicate Uint256Numbers()
      requires NumbersSet()
    {
      IsUint256(nonce.value) && IsUint256(preVerificationGas.value)
    }

    /** The six numbers that get a 16-byte slot fit in it. */
    predicate LimitsInRange()
      requires LimitsSet()
    {
      && FitsIn128(callGasLimit.value) && FitsIn128(verificationGasLimit.value)
      && FitsIn128(maxFeePerGas.value) && FitsIn128(maxPriorityFeePerGas.value)
      && FitsIn128(paymasterVerificationGasLimit.value) && FitsIn128(paymasterPostOpGasLimit.value)
    }
  }

  /** `NewUserOpWithDefault`. */
  function DefaultUserOp(sender: Address, callData: Bytes, salt: Option<int>): (u: UserOp)
    ensures u.sender == sender && u.callData == callData && u.salt == salt
    ensures u.LimitsSet() && u.LimitsInRange()
    ensures u.callGasLimit == Some(2000000) && u.verificationGasLimit == Some(200000)
    ensures u.preVerificationGas == Some(20000)
    ensures u.maxFeePerGas == Some(25000000000) && u.maxPriorityFeePerGas == Some(1000000)
    ensures u.paymasterVerificationGasLimit == Some(300000) && u.paymasterPostOpGasLimit == Some(100)
    ensures u.nonce.None? && u.paymaster == u.factory == ZERO_ADDRESS
    ensures u.signature == u.paymasterData == u.factoryData == u.initCode == []
  {
    UserOp(
      sender := sender,
      nonce := None,
      callData := callData,
      callGasLimit := Some(2000000),
      verificationGasLimit := Some(200000),
      preVerificationGas := Some(20000),
      maxFeePerGas := Some(25000000000),
      maxPriorityFeePerGas := Some(1000000),
      signature := [],
      paymaster := ZERO_ADDRESS,
      paymasterData := [],
      paymasterVerificationGasLimit := Some(300000),
      paymasterPostOpGasLimit := Some(100),
      factory := ZERO_ADDRESS,
      factoryData := [],
      initCode := [],
      salt := salt)
  }

  /** The struct that `FillAndSign` updates in place. */
  class UserOperation {
    var sender: Address
    var nonce: Option<int>
    var callData: Bytes
    var callGasLimit: Option<int>
    var verificationGasLimit: Option<int>
    var preVerificationGas: Option<int>
    var maxFeePerGas: Option<int>
    var maxPriorityFeePerGas: Option<int>
    var signature: Bytes
    var paymaster: Address
    var paymasterData: Bytes
    var paymasterVerificationGasLimit: Option<int>
    var paymasterPostOpGasLimit: Option<int>
    var factory: Address
    var factoryData: Bytes
    var initCode: Bytes
    var salt: Option<int>

    constructor (u: UserOp)
      ensures Snapshot() == u
    {
      sender, nonce, callData, callGasLimit := u.sender, u.nonce, u.callData, u.callGasLimit;
      verificationGasLimit, preVerificationGas := u.verificationGasLimit, u.preVerificationGas;
      maxFeePerGas, maxPriorityFeePerGas := u.maxFeePerGas, u.maxPriorityFeePerGas;
      signature, paymaster, paymasterData := u.signature, u.paymaster, u.paymasterData;
      paymasterVerificationGasLimit := u.paymasterVerificationGasLimit;
      paymasterPostOpGasLimit := u.paymasterPostOpGasLimit;
      factory, factoryData, initCode, salt := u.factory, u.factoryData, u.initCode, u.salt;
    }

    function Snapshot(): UserOp
      reads this
    {
      UserOp(sender, nonce, callData, callGasLimit, verificationGasLimit, preVerificationGas,
             maxFeePerGas, maxPriorityFeePerGas, signature, paymaster, paymasterData,
             paymasterVerificationGasLimit, paymasterPostOpGasLimit, factory, factoryData, initCode, salt)
    }
  }
}
