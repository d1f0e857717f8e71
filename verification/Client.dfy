/** client.go: the methods that update an operation, the cache or the rotation. */
module Client {
  import opened Wrappers
  import opened ByteStrings
  import opened Text
  import opened Signing
  import opened UserOps
  import opened Packing
  import opened Hashing
  import opened Filling
  import opened Accounts
  import opened Rotation

  datatype HandleError = NoSigner | TransactionOptions | Submission

  /** What becomes of a transaction: its options cannot be made, the call fails, or it is sent. */
  datatype Sending = NoOptions | CallFailed | Sent(txHash: Hash)

  class Client {
    const env: Env
    const factory: Factory
    const cache: LruCache?
    const executors: RoundRobinSignerProvider

    constructor (env: Env, factory: Factory, cache: LruCache?, executors: RoundRobinSignerProvider)
      ensures this.env == env && this.factory == factory && this.cache == cache && this.executors == executors
    {
      this.env, this.factory, this.cache, this.executors := env, factory, cache, executors;
    }

    /** `GetAccount`; `reachable` says whether the factory call gets an answer. */
    method GetAccount(owner: Address, salt: int, reachable: bool) returns (answer: Option<Address>)
      requires cache != null ==> cache.Valid()
      modifies if cache == null then {} else {cache}
      ensures cache == null ==> answer == if reachable then Some(factory(owner, salt)) else None
      ensures cache != null ==>
        && cache.Valid()
        && LookupStep(env.crypto, factory, cache.maxSize, old(cache.entries), owner, salt, answer, cache.entries)
        && (answer.None? ==> !reachable)
    {
      if cache == null {
        return if reachable then Some(factory(owner, salt)) else None;
      }
      var key := AddressHex(env.crypto, owner) + "-" + IntText(salt, 10);
      var hit := cache.Get(key);
      if hit.Some? {
        return hit;
      }
      if !reachable {
        return None;
      }
      var addr := factory(owner, salt);
      var evicted := cache.Set(key, addr);
      return Some(addr);
    }

    /** `getInitCodeData`: None is a failed query, two empty strings an account that is deployed. */
    method GetInitCodeData(chain: Chain, account: Address, owner: Address, salt: Option<int>)
      returns (r: Option<(Bytes, Bytes)>)
      requires chain.code(account) == Some([]) ==> salt.Some?
      ensures r.None? <==> chain.code(account).None?
      ensures r.Some? && chain.code(account).value != [] ==> r.value == ([], [])
      ensures r.Some? && chain.code(account).value == [] ==>
        && r.value.1 == CreateAccountData(env.crypto, owner, salt.value)
        && r.value.0 == env.config.accountFactory + r.value.1
    {
      var code := chain.code(account);
      if code.None? {
        return None;
      }
      if |code.value| > 0 {
        return Some(([], []));
      }
      var data := CreateAccountData(env.crypto, owner, salt.value);
      var initCode := env.config.accountFactory + data;
      return Some((initCode, data));
    }

    /** `SignUserOp`; a signing error comes with the zero hash. */
    method SignUserOp(packed: PackedUserOp, key: PrivateKey) returns (sig: Option<Bytes>, hash: Hash)
      ensures sig == SignedMessage(env.crypto, key, UserOpHash(env.crypto, packed, env.config.entrypoint, env.chainId))
      ensures hash ==
              if sig.Some? then UserOpHash(env.crypto, packed, env.config.entrypoint, env.chainId) else Zeros(32)
    {
      hash := UserOpHash(env.crypto, packed, env.config.entrypoint, env.chainId);
      sig := SignMessage(env.crypto, key, hash);
      if sig.None? {
        hash := Zeros(32);
      }
    }

    /** `FillAndSign`: the operation is updated in place, stage by stage. */
    method FillAndSign(chain: Chain, userOp: UserOperation, signer: PrivateKey) returns (r: Result<Hash, Error>)
      requires Ready(chain, userOp.Snapshot())
      modifies userOp
      ensures (userOp.Snapshot(), r) == Fill(env, chain, old(userOp.Snapshot()), signer)
    {
      var error := FillFields(chain, userOp, signer);
      if error.Some? {
        return Failure(error.value);
      }
      r := AddSignatures(userOp, signer);
    }

    /** The stages of `FillAndSign` before any signature: nonce, initCode and paymaster. */
    method FillFields(chain: Chain, userOp: UserOperation, signer: PrivateKey) returns (error: Option<Error>)
      requires Ready(chain, userOp.Snapshot())
      modifies userOp
      ensures (userOp.Snapshot(), error) == Prepare(env, chain, old(userOp.Snapshot()), signer)
    {
      if userOp.sender == ZERO_ADDRESS {
        return Some(EmptySender);
      }
      if userOp.nonce.None? {
        var nonce := chain.nonce(userOp.sender, userOp.salt.value);
        if nonce.None? {
          return Some(NonceQuery);
        }
        userOp.nonce := nonce;
      }
      var answered := FillInitCode(chain, userOp, env.crypto.addressOf(signer));
      if !answered {
        return Some(DeploymentQuery);
      }
      userOp.paymaster := env.config.paymasterAddress;
      return None;
    }

    /** The initCode stage of `FillAndSign`; false when the deployment query fails. */
    method FillInitCode(chain: Chain, userOp: UserOperation, owner: Address) returns (answered: bool)
      requires chain.code(userOp.sender) == Some([]) ==> userOp.salt.Some?
      modifies userOp`initCode, userOp`factory, userOp`factoryData
      ensures answered <==> chain.code(userOp.sender).Some?
      ensures userOp.Snapshot() ==
              if answered then WithInitCode(env, old(userOp.Snapshot()), chain.code(userOp.sender).value != [], owner)
              else old(userOp.Snapshot())
    {
      var code := GetInitCodeData(chain, userOp.sender, owner, userOp.salt);
      if code.None? {
        return false;
      }
      var (initCode, data) := code.value;
      if |initCode| != 0 {
        userOp.initCode := initCode;
        userOp.factory := env.config.accountFactory;
        userOp.factoryData := data;
      } else {
        userOp.initCode := [];
      }
      return true;
    }

    /**
     The signing stages of `FillAndSign`: hash with a placeholder signature in the paymaster data,
     sign, put the signature in its place, pack and hash again, sign again. The paymaster hash has
     no error here, because its input is never shorter than 52 bytes.
     */
    method AddSignatures(userOp: UserOperation, signer: PrivateKey) returns (r: Result<Hash, Error>)
      requires userOp.Snapshot().NumbersSet()
      modifies userOp`paymasterData, userOp`signature
      ensures (userOp.Snapshot(), r) == Sign(env, old(userOp.Snapshot()), signer)
    {
      ghost var u := userOp.Snapshot();
      var paymasterData := EncodePaymasterData(VALID_UNTIL, VALID_AFTER, EMPTY_SIGNATURE);
      var limits := PackInt(userOp.verificationGasLimit, userOp.callGasLimit);
      var fees := PackInt(userOp.maxPriorityFeePerGas, userOp.maxFeePerGas);
      var sponsor := PackPaymasterAndData(
        userOp.paymaster, userOp.paymasterVerificationGasLimit.value, userOp.paymasterPostOpGasLimit.value,
        paymasterData);
      var placeholder := PackedUserOp(
        userOp.sender, userOp.nonce.value, userOp.initCode, userOp.callData, limits.value,
        userOp.preVerificationGas.value, fees.value, sponsor, []);
      assert placeholder == PackUserOperation(u.(paymasterData := paymasterData, signature := []));
      PlaceholderStability(env.crypto, u, paymasterData, [], env.chainId, VALID_UNTIL, VALID_AFTER);
      var paymasterHash := PaymasterHash(env.crypto, placeholder, env.chainId, VALID_UNTIL, VALID_AFTER);

      var paymasterSig := SignMessage(env.crypto, env.config.verifyingSigner, paymasterHash.value);
      if paymasterSig.None? {
        return Failure(PaymasterSigning);
      }
      paymasterData := EncodePaymasterData(VALID_UNTIL, VALID_AFTER, paymasterSig.value);
      userOp.paymasterData := paymasterData;

      var packed := PackUserOperation(userOp.Snapshot());
      var sig, hash := SignUserOp(packed, signer);
      if sig.None? {
        return Failure(OperationSigning);
      }
      userOp.signature := sig.value;
      return Success(hash);
    }

    /**
     `HandleOps`; `sending` says what becomes of the entry point call, and `executor` is the key it is
     made with. NoSigner is the panic. The hashes are the inner ones, without entry point and chain.
     */
    method HandleOps(ops: seq<PackedUserOp>, sending: Sending)
      returns (r: Result<(seq<Hash>, Hash), HandleError>, executor: Option<PrivateKey>)
      requires Valid(executors.State())
      modifies executors
      ensures executors.State() == Step(old(executors.State()), Next) && Valid(executors.State())
      ensures executor == if old(executors.signers) == [] then None else Some(old(executors.signers[executors.index]))
      ensures r == Failure(NoSigner) <==> executor.None?
      ensures r == Failure(TransactionOptions) <==> executor.Some? && sending.NoOptions?
      ensures r == Failure(Submission) <==> executor.Some? && sending.CallFailed?
      ensures r.Success? ==> sending == Sent(r.value.1) && |r.value.0| == |ops|
      ensures r.Success? ==> forall i :: 0 <= i < |ops| ==> r.value.0[i] == HashedUserOp(env.crypto, ops[i])
    {
      var count := executors.Count();
      if count == 0 {
        return Failure(NoSigner), None;
      }
      executor := executors.Next();
      if sending.NoOptions? {
        return Failure(TransactionOptions), executor;
      }
      if sending.CallFailed? {
        return Failure(Submission), executor;
      }
      var opHashes := [];
      for k := 0 to |ops|
        invariant |opHashes| == k
        invariant forall i :: 0 <= i < k ==> opHashes[i] == HashedUserOp(env.crypto, ops[i])
        invariant executors.State() == Step(old(executors.State()), Next)
      {
        opHashes := opHashes + [HashedUserOp(env.crypto, ops[k])];
      }
      r := Success((opHashes, sending.txHash));
    }
  }
}
