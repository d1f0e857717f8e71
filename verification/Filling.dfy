/**
 What `FillAndSign` of client.go does to a user operation, as a function of values, and what
 follows from it. The method that does it in place is in Client.
 */
module Filling {
  import opened Wrappers
  import opened ByteStrings
  import opened Abi
  import opened Signing
  import opened UserOps
  import opened Packing
  import opened Hashing
  import opened JsonBody

  datatype Config = Config(
    entrypoint: Address,
    accountFactory: Address,
    paymasterAddress: Address,
    verifyingSigner: PrivateKey)

  datatype Env = Env(crypto: Crypto, config: Config, chainId: int)

  type Uint256 = x: nat | x < TWO_256

  /** The chain at the time of a call: the entry point's nonces and the deployed code; None is a failed query. */
  datatype Chain = Chain(nonce: (Address, int) -> Option<Uint256>, code: Address -> Option<Bytes>)

  datatype Error = EmptySender | NonceQuery | DeploymentQuery | PaymasterSigning | OperationSigning

  const VALID_AFTER := 0
  const VALID_UNTIL := 0x7fff_ffff // math.MaxInt32
  const EMPTY_SIGNATURE: Bytes := Zeros(65)

  /** The signature takes exactly the placeholder's room, whatever the limits, so no offset moves. */
  lemma PlaceholderHasFinalLength(
    K: Crypto, key: PrivateKey, message: Bytes, sig: Bytes,
    validUntil: int, validAfter: int, p: Address, v: int, o: int)
    requires SignedMessage(K, key, message) == Some(sig)
    ensures |PaymasterData(validUntil, validAfter, EMPTY_SIGNATURE)| == |PaymasterData(validUntil, validAfter, sig)|
    ensures |PaymasterAndData(p, v, o, PaymasterData(validUntil, validAfter, EMPTY_SIGNATURE))| ==
            |PaymasterAndData(p, v, o, PaymasterData(validUntil, validAfter, sig))|
  {
    PaymasterDataLayout(validUntil, validAfter, EMPTY_SIGNATURE);
    PaymasterDataLayout(validUntil, validAfter, sig);
  }

  /** The call data of `createAccount(address,uint256)`. */
  function CreateAccountData(K: Crypto, owner: Address, salt: int): (data: Bytes)
    ensures |data| == 68
  {
    K.keccak(Ascii("createAccount(address,uint256)"))[..4] + Abi.Pack([AddressWord(owner), UintWord(salt)])
  }

  lemma SignatureBytes()
    ensures Ascii("createAccount(address,uint256)") ==
            [0x63, 0x72, 0x65, 0x61, 0x74, 0x65, 0x41, 0x63, 0x63, 0x6f, 0x75, 0x6e, 0x74, 0x28, 0x61,
             0x64, 0x64, 0x72, 0x65, 0x73, 0x73, 0x2c, 0x75, 0x69, 0x6e, 0x74, 0x32, 0x35, 0x36, 0x29]
  {
  }

  /** The call data spells out selector, owner and salt; the selector is that of the 30 bytes of the signature. */
  lemma CreateAccountDataLayout(K: Crypto, owner: Address, salt: int)
    ensures
      var data := CreateAccountData(K, owner, salt);
      && data[..4] == K.keccak(
           [0x63, 0x72, 0x65, 0x61, 0x74, 0x65, 0x41, 0x63, 0x63, 0x6f, 0x75, 0x6e, 0x74, 0x28, 0x61,
            0x64, 0x64, 0x72, 0x65, 0x73, 0x73, 0x2c, 0x75, 0x69, 0x6e, 0x74, 0x32, 0x35, 0x36, 0x29])[..4]
      && data[4..36] == Zeros(12) + owner
      && Number(data[36..68]) == salt % TWO_256
  {
    var ws := [AddressWord(owner), UintWord(salt)];
    var data := CreateAccountData(K, owner, salt);
    SignatureBytes();
    WordAt(ws, 0);
    WordAt(ws, 1);
    UintWordReadsBack(salt);
    assert data[4..36] == Abi.Pack(ws)[0..32] && data[36..68] == Abi.Pack(ws)[32..64];
  }

  /** No nil number is dereferenced on the way `FillAndSign` takes. */
  predicate Ready(chain: Chain, u: UserOp) {
    u.sender != ZERO_ADDRESS ==>
      && (u.nonce.None? ==> u.salt.Some?)
      && ((u.nonce.Some? || chain.nonce(u.sender, u.salt.value).Some?) && chain.code(u.sender).Some? ==>
            && (chain.code(u.sender).value == [] ==> u.salt.Some?)
            && u.LimitsSet())
  }

  function WithInitCode(env: Env, u: UserOp, deployed: bool, owner: Address): UserOp
    requires !deployed ==> u.salt.Some?
  {
    if deployed then u.(initCode := []) else
      var data := CreateAccountData(env.crypto, owner, u.salt.value);
      u.(initCode := env.config.accountFactory + data, factory := env.config.accountFactory, factoryData := data)
  }

  /** The verifying signer's signature under the paymaster hash of an operation. */
  function PaymasterSignature(env: Env, u: UserOp): Option<Bytes>
    requires u.NumbersSet()
  {
    PlaceholderStability(env.crypto, u, [], [], env.chainId, VALID_UNTIL, VALID_AFTER);
    var digest :- PaymasterHash(env.crypto, PackUserOperation(u), env.chainId, VALID_UNTIL, VALID_AFTER);
    SignedMessage(env.crypto, env.config.verifyingSigner, digest)
  }

  function OperationHash(env: Env, u: UserOp): Hash
    requires u.NumbersSet()
  {
    UserOpHash(env.crypto, PackUserOperation(u), env.config.entrypoint, env.chainId)
  }

  /** Everything before the signatures: the operation as it is then, and the error if one occurred. */
  function Prepare(env: Env, chain: Chain, u: UserOp, signer: PrivateKey): (r: (UserOp, Option<Error>))
    requires Ready(chain, u)
    ensures r.1.None? ==> r.0.NumbersSet() && u.LimitsSet() && chain.code(u.sender).Some?
  {
    if u.sender == ZERO_ADDRESS then (u, Some(EmptySender)) else
      var nonce: Option<int> := if u.nonce.Some? then u.nonce else chain.nonce(u.sender, u.salt.value);
      if nonce.None? then (u, Some(NonceQuery)) else
        var numbered := u.(nonce := nonce);
        var code := chain.code(u.sender);
        if code.None? then (numbered, Some(DeploymentQuery)) else
          var owner := env.crypto.addressOf(signer);
          var coded := WithInitCode(env, numbered, code.value != [], owner);
          (coded.(paymaster := env.config.paymasterAddress), None)
  }

  /** The two signatures, paymaster first. */
  function Sign(env: Env, u: UserOp, signer: PrivateKey): (r: (UserOp, Result<Hash, Error>))
    requires u.NumbersSet()
    ensures r.0.NumbersSet()
  {
    var paymasterSig := PaymasterSignature(env, u);
    if paymasterSig.None? then (u, Failure(PaymasterSigning)) else
      var final := u.(paymasterData := PaymasterData(VALID_UNTIL, VALID_AFTER, paymasterSig.value));
      var hash := OperationHash(env, final);
      var sig := SignedMessage(env.crypto, signer, hash);
      if sig.None? then (final, Failure(OperationSigning)) else
        (final.(signature := sig.value), Success(hash))
  }

  /** The final state of the operation and the outcome of `FillAndSign`, on every path. */
  function Fill(env: Env, chain: Chain, u: UserOp, signer: PrivateKey): (r: (UserOp, Result<Hash, Error>))
    requires Ready(chain, u)
    ensures r.1.Success? ==> r.0.NumbersSet() && u.LimitsSet() && chain.code(u.sender).Some?
  {
    var (prepared, error) := Prepare(env, chain, u, signer);
    if error.Some? then (prepared, Failure(error.value)) else Sign(env, prepared, signer)
  }

  /** u is u0 with nothing touched but the fields `FillAndSign` owns. */
  ghost predicate SameOutsideFrame(u0: UserOp, u: UserOp) {
    && u == u0.(nonce := u.nonce, initCode := u.initCode, factory := u.factory, factoryData := u.factoryData,
                paymaster := u.paymaster, paymasterData := u.paymasterData, signature := u.signature)
    && (u0.nonce.Some? ==> u.nonce == u0.nonce)
  }

  ghost predicate InitCodeMatchesDeployment(env: Env, u0: UserOp, signer: PrivateKey, deployed: bool, u: UserOp)
    requires !deployed ==> u0.salt.Some?
  {
    if deployed then u.initCode == [] && u.factory == u0.factory && u.factoryData == u0.factoryData
    else
      && u.factory == env.config.accountFactory
      && u.factoryData == CreateAccountData(env.crypto, env.crypto.addressOf(signer), u0.salt.value)
      && u.initCode == u.factory + u.factoryData
  }

  /**
   The paymaster data of an operation: valid from 0 until 2147483647, followed by the verifying
   signer's signature of this very operation for that window.
   */
  ghost predicate Sponsored(env: Env, u: UserOp)
    requires u.NumbersSet()
  {
    && |u.paymasterData| == 129
    && Number(u.paymasterData[..32]) == 2147483647
    && Number(u.paymasterData[32..64]) == 0
    && IsSignature(env.crypto, env.config.verifyingSigner,
                   PaymasterDigest(env.crypto, PackUserOperation(u), env.chainId, 2147483647, 0),
                   u.paymasterData[64..])
  }

  /** Both signatures an operation carries are over digests of the very operation that carries them. */
  ghost predicate SignedBy(env: Env, u: UserOp, signer: PrivateKey, hash: Hash)
    requires u.NumbersSet()
  {
    && Sponsored(env, u)
    && hash == UserOpHash(env.crypto, PackUserOperation(u), env.config.entrypoint, env.chainId)
    && IsSignature(env.crypto, signer,
                   SigningDigest(env.crypto, PackUserOperation(u), env.config.entrypoint, env.chainId), u.signature)
  }

  /** An operation before it is signed, as it follows from the one given and the chain. */
  ghost predicate PreparedFrom(env: Env, chain: Chain, u0: UserOp, signer: PrivateKey, u: UserOp)
    requires Ready(chain, u0)
  {
    && u0.sender != ZERO_ADDRESS
    && SameOutsideFrame(u0, u)
    && u.nonce.Some? && (u0.nonce.None? ==> u.nonce == chain.nonce(u0.sender, u0.salt.value))
    && chain.code(u0.sender).Some?
    && InitCodeMatchesDeployment(env, u0, signer, chain.code(u0.sender).value != [], u)
    && u.paymaster == env.config.paymasterAddress
  }

  /** What a filled and signed operation is, said about the final operation alone. */
  ghost predicate FilledAndSigned(
    env: Env, chain: Chain, u0: UserOp, signer: PrivateKey, u: UserOp, hash: Hash)
    requires Ready(chain, u0)
  {
    PreparedFrom(env, chain, u0, signer, u) && SignedBy(env, u, signer, hash)
  }

  /** When each error is returned, and what the operation is then. */
  ghost predicate FailedWith(env: Env, chain: Chain, u0: UserOp, signer: PrivateKey, u: UserOp, error: Error)
    requires Ready(chain, u0)
  {
    match error
    case EmptySender => u0.sender == ZERO_ADDRESS && u == u0
    case NonceQuery =>
      && u0.sender != ZERO_ADDRESS && u == u0
      && u0.nonce.None? && chain.nonce(u0.sender, u0.salt.value).None?
    case DeploymentQuery =>
      && u0.sender != ZERO_ADDRESS && u == u0.(nonce := u.nonce) && u.nonce.Some?
      && (if u0.nonce.Some? then u.nonce == u0.nonce else u.nonce == chain.nonce(u0.sender, u0.salt.value))
      && chain.code(u0.sender).None?
    case PaymasterSigning =>
      && PreparedFrom(env, chain, u0, signer, u)
      && u.paymasterData == u0.paymasterData && u.signature == u0.signature
      && env.crypto.sign(
           env.config.verifyingSigner,
           PaymasterDigest(env.crypto, PackUserOperation(u), env.chainId, 2147483647, 0)).None?
    case OperationSigning =>
      && PreparedFrom(env, chain, u0, signer, u)
      && Sponsored(env, u) && u.signature == u0.signature
      && env.crypto.sign(
           signer, SigningDigest(env.crypto, PackUserOperation(u), env.config.entrypoint, env.chainId)).None?
  }

  /** Neither hash depends on what is signed last. */
  lemma SignaturesAreNotHashed(env: Env, u: UserOp, data: Bytes, sig: Bytes)
    requires u.NumbersSet()
    ensures PaymasterSignature(env, u.(paymasterData := data, signature := sig)) == PaymasterSignature(env, u)
    ensures OperationHash(env, u.(signature := sig)) == OperationHash(env, u)
  {
    PlaceholderStability(env.crypto, u, data, sig, env.chainId, VALID_UNTIL, VALID_AFTER);
  }

  lemma SponsoredIff(env: Env, u: UserOp)
    requires u.NumbersSet()
    ensures Sponsored(env, u) <==>
            && PaymasterSignature(env, u).Some?
            && u.paymasterData == PaymasterData(VALID_UNTIL, VALID_AFTER, PaymasterSignature(env, u).value)
  {
    var data, sig := u.paymasterData, PaymasterSignature(env, u);
    var hash := PaymasterHash(env.crypto, PackUserOperation(u), env.chainId, VALID_UNTIL, VALID_AFTER);
    if Sponsored(env, u) {
      SignedMessageIff(env.crypto, env.config.verifyingSigner, hash.value, data[64..]);
      PaymasterDataOfNumbers(VALID_UNTIL, VALID_AFTER, data);
    }
    if sig.Some? && data == PaymasterData(VALID_UNTIL, VALID_AFTER, sig.value) {
      PaymasterDataReadsBack(VALID_UNTIL, VALID_AFTER, sig.value);
      SignedMessageIff(env.crypto, env.config.verifyingSigner, hash.value, sig.value);
    }
  }

  lemma SignIsTheUniqueSolution(env: Env, u0: UserOp, signer: PrivateKey, u: UserOp, hash: Hash)
    requires u0.NumbersSet()
    ensures Sign(env, u0, signer) == (u, Success(hash)) <==>
            && u == u0.(paymasterData := u.paymasterData, signature := u.signature)
            && SignedBy(env, u, signer, hash)
  {
    SignaturesAreNotHashed(env, u0, u.paymasterData, u.signature);
    SignaturesAreNotHashed(env, u0.(paymasterData := u.paymasterData), u.paymasterData, u.signature);
    if u == u0.(paymasterData := u.paymasterData, signature := u.signature) {
      SponsoredIff(env, u);
      SignedMessageIff(env.crypto, signer, OperationHash(env, u), u.signature);
    }
  }

  /** When the signing stages fail, and what they leave behind. */
  lemma SignFailsIff(env: Env, u0: UserOp, signer: PrivateKey, u: UserOp, error: Error)
    requires u0.NumbersSet()
    ensures Sign(env, u0, signer) == (u, Failure(error)) <==>
            match error
            case PaymasterSigning =>
              && u == u0
              && env.crypto.sign(
                   env.config.verifyingSigner,
                   PaymasterDigest(env.crypto, PackUserOperation(u), env.chainId, 2147483647, 0)).None?
            case OperationSigning =>
              && u == u0.(paymasterData := u.paymasterData) && Sponsored(env, u)
              && env.crypto.sign(
                   signer,
                   SigningDigest(env.crypto, PackUserOperation(u), env.config.entrypoint, env.chainId)).None?
            case _ => false
  {
    SignaturesAreNotHashed(env, u0, u.paymasterData, u0.signature);
    if u == u0.(paymasterData := u.paymasterData) {
      SponsoredIff(env, u);
    }
  }

  lemma PreparedIsInFrame(env: Env, chain: Chain, u0: UserOp, signer: PrivateKey)
    requires Ready(chain, u0)
    ensures var u := Prepare(env, chain, u0, signer).0;
            SameOutsideFrame(u0, u) && u.paymasterData == u0.paymasterData && u.signature == u0.signature
  {
  }

  /** The stages before signing have one result, up to the two fields that signing sets. */
  lemma PreparedIff(env: Env, chain: Chain, u0: UserOp, signer: PrivateKey, u: UserOp)
    requires Ready(chain, u0)
    ensures var (prepared, error) := Prepare(env, chain, u0, signer);
            PreparedFrom(env, chain, u0, signer, u) <==>
            error.None? && u == prepared.(paymasterData := u.paymasterData, signature := u.signature)
  {
  }

  /** `FillAndSign` succeeds with exactly the operation and hash that satisfy the description. */
  lemma FillIsTheUniqueSolution(env: Env, chain: Chain, u0: UserOp, signer: PrivateKey, u: UserOp, hash: Hash)
    requires Ready(chain, u0)
    ensures Fill(env, chain, u0, signer) == (u, Success(hash)) <==> FilledAndSigned(env, chain, u0, signer, u, hash)
  {
    var (prepared, error) := Prepare(env, chain, u0, signer);
    PreparedIff(env, chain, u0, signer, u);
    if error.None? {
      SignIsTheUniqueSolution(env, prepared, signer, u, hash);
    }
  }

  lemma PrepareFailsIff(env: Env, chain: Chain, u0: UserOp, signer: PrivateKey, u: UserOp, error: Error)
    requires Ready(chain, u0) && error in {EmptySender, NonceQuery, DeploymentQuery}
    ensures Prepare(env, chain, u0, signer) == (u, Some(error)) <==> FailedWith(env, chain, u0, signer, u, error)
  {
  }

  lemma PrepareErrors(env: Env, chain: Chain, u0: UserOp, signer: PrivateKey)
    requires Ready(chain, u0)
    ensures var error := Prepare(env, chain, u0, signer).1;
            error.Some? ==> error.value in {EmptySender, NonceQuery, DeploymentQuery}
  {
  }

  lemma FillFailsInSigningIff(env: Env, chain: Chain, u0: UserOp, signer: PrivateKey, u: UserOp, error: Error)
    requires Ready(chain, u0) && error in {PaymasterSigning, OperationSigning}
    requires Prepare(env, chain, u0, signer).1.None?
    ensures Sign(env, Prepare(env, chain, u0, signer).0, signer) == (u, Failure(error)) <==>
            FailedWith(env, chain, u0, signer, u, error)
  {
    PreparedIff(env, chain, u0, signer, u);
    PreparedIsInFrame(env, chain, u0, signer);
    SignFailsIff(env, Prepare(env, chain, u0, signer).0, signer, u, error);
  }

  /** `FillAndSign` fails with an error exactly as described, and leaves exactly the operation described. */
  lemma FillFailsIff(env: Env, chain: Chain, u0: UserOp, signer: PrivateKey, u: UserOp, error: Error)
    requires Ready(chain, u0)
    ensures Fill(env, chain, u0, signer) == (u, Failure(error)) <==> FailedWith(env, chain, u0, signer, u, error)
  {
    var (prepared, e) := Prepare(env, chain, u0, signer);
    PrepareErrors(env, chain, u0, signer);
    if error in {EmptySender, NonceQuery, DeploymentQuery} {
      PrepareFailsIff(env, chain, u0, signer, u, error);
      if e.None? {
        SignIsInFrame(env, prepared, signer);
      }
    } else if e.None? {
      FillFailsInSigningIff(env, chain, u0, signer, u, error);
    } else {
      PreparedIff(env, chain, u0, signer, u);
    }
  }

  lemma SignIsInFrame(env: Env, u0: UserOp, signer: PrivateKey)
    requires u0.NumbersSet()
    ensures var (u, r) := Sign(env, u0, signer);
            && u == u0.(paymasterData := u.paymasterData, signature := u.signature)
            && (r.Failure? ==> u.signature == u0.signature && r.error in {PaymasterSigning, OperationSigning})
            && (r == Failure(PaymasterSigning) ==> u == u0)
  {
  }

  /**
   On every path, errors included: only the seven fields may change, the nonce only when it was
   nil, and the operation is returned untouched when no query has been answered yet.
   */
  lemma FillStaysInFrame(env: Env, chain: Chain, u0: UserOp, signer: PrivateKey)
    requires Ready(chain, u0)
    ensures var (u, r) := Fill(env, chain, u0, signer);
            && SameOutsideFrame(u0, u)
            && (r.Failure? ==> u.signature == u0.signature)
            && (r.Failure? && r.error != OperationSigning ==> u.paymasterData == u0.paymasterData)
            && (r == Failure(EmptySender) || r == Failure(NonceQuery) ==> u == u0)
            && (r == Failure(DeploymentQuery) ==> u == u0.(nonce := u.nonce))
  {
    PreparedIsInFrame(env, chain, u0, signer);
    var (prepared, error) := Prepare(env, chain, u0, signer);
    if error.None? {
      SignIsInFrame(env, prepared, signer);
    }
  }

  lemma PreparedAgain(env: Env, chain: Chain, later: Chain, u0: UserOp, signer: PrivateKey, u: UserOp)
    requires Ready(chain, u0) && PreparedFrom(env, chain, u0, signer, u) && u0.LimitsSet()
    requires later.code(u.sender).Some?
    requires later.code(u.sender).value == [] <==> chain.code(u.sender).value == []
    ensures Ready(later, u) && PreparedFrom(env, later, u, signer, u)
  {
  }

  /**
   Filling its own output again, on a chain where the account's deployment status is the same,
   changes nothing and gives the same hash.
   */
  lemma FillTwice(env: Env, chain: Chain, later: Chain, u0: UserOp, signer: PrivateKey, u: UserOp, hash: Hash)
    requires Ready(chain, u0) && Fill(env, chain, u0, signer) == (u, Success(hash))
    requires later.code(u.sender).Some? && chain.code(u.sender).Some?
    requires later.code(u.sender).value == [] <==> chain.code(u.sender).value == []
    ensures Ready(later, u) && Fill(env, later, u, signer) == (u, Success(hash))
  {
    FillIsTheUniqueSolution(env, chain, u0, signer, u, hash);
    PreparedAgain(env, chain, later, u0, signer, u);
    FillIsTheUniqueSolution(env, later, u, signer, u, hash);
  }

  lemma PrepareTwice(env: Env, chain: Chain, u: UserOp, signer: PrivateKey, data: Bytes)
    requires Ready(chain, u)
    ensures var (prepared, error) := Prepare(env, chain, u, signer);
            && Ready(chain, prepared.(paymasterData := data))
            && Prepare(env, chain, prepared.(paymasterData := data), signer) ==
               (prepared.(paymasterData := data), error)
  {
  }

  lemma FailedSignTwice(env: Env, u0: UserOp, signer: PrivateKey)
    requires u0.NumbersSet() && Sign(env, u0, signer).1.Failure?
    ensures var (u, r) := Sign(env, u0, signer);
            u == u0.(paymasterData := u.paymasterData) && Sign(env, u, signer) == (u, r)
  {
    var (u, r) := Sign(env, u0, signer);
    SignaturesAreNotHashed(env, u0, u.paymasterData, u0.signature);
  }

  lemma FailedFillTwice(env: Env, chain: Chain, u0: UserOp, signer: PrivateKey)
    requires Ready(chain, u0) && Fill(env, chain, u0, signer).1.Failure?
    ensures var r := Fill(env, chain, u0, signer);
            Ready(chain, r.0) && Fill(env, chain, r.0, signer) == r
  {
    var (prepared, error) := Prepare(env, chain, u0, signer);
    if error.None? {
      FailedSignTwice(env, prepared, signer);
    }
    PrepareTwice(env, chain, u0, signer, Fill(env, chain, u0, signer).0.paymasterData);
  }

  /** Retrying on an unchanged chain, after an error too, gives the same operation and the same outcome. */
  lemma FillIsIdempotent(env: Env, chain: Chain, u0: UserOp, signer: PrivateKey)
    requires Ready(chain, u0)
    ensures var r := Fill(env, chain, u0, signer);
            Ready(chain, r.0) && Fill(env, chain, r.0, signer) == r
  {
    var (u, r) := Fill(env, chain, u0, signer);
    if r.Success? {
      FillIsTheUniqueSolution(env, chain, u0, signer, u, r.value);
      FillTwice(env, chain, chain, u0, signer, u, r.value);
    } else {
      FailedFillTwice(env, chain, u0, signer);
    }
  }

  /** What a caller can check before the call to know that the JSON body will be true to the signature. */
  predicate BodyWillAgree(env: Env, chain: Chain, u0: UserOp)
    requires u0.LimitsSet() && chain.code(u0.sender).Some?
  {
    && u0.LimitsInRange() && IsUint256(u0.preVerificationGas.value)
    && (u0.nonce.Some? ==> IsUint256(u0.nonce.value))
    && env.config.paymasterAddress != ZERO_ADDRESS
    && (if chain.code(u0.sender).value == [] then env.config.accountFactory != ZERO_ADDRESS
        else u0.factory == ZERO_ADDRESS && u0.factoryData == [])
  }

  /**
   A bundler rebuilds from the body the packed operation that was hashed and signed exactly when
   the check passes. It fails for an account that is already deployed when the factory or
   the factory data is still set, because `FillAndSign` empties initCode but leaves those two
   fields alone.
   */
  lemma FilledBodyAgreesIff(env: Env, chain: Chain, u0: UserOp, signer: PrivateKey, u: UserOp, hash: Hash)
    requires Ready(chain, u0) && Fill(env, chain, u0, signer) == (u, Success(hash))
    ensures Rebuild(BodyOf(env.crypto, u)) == Some(PackUserOperation(u)) <==> BodyWillAgree(env, chain, u0)
  {
    BodyAgreesWithPackedIff(env.crypto, u);
    CheckMatchesResult(env, chain, u0, signer, u, hash);
  }

  lemma CheckMatchesPrepared(env: Env, chain: Chain, u0: UserOp, signer: PrivateKey, u: UserOp)
    requires Ready(chain, u0) && PreparedFrom(env, chain, u0, signer, u) && u0.LimitsSet()
    ensures Printable(u) && u.initCode == InitCodeOfFactory(u) <==> BodyWillAgree(env, chain, u0)
  {
  }

  lemma CheckMatchesResult(env: Env, chain: Chain, u0: UserOp, signer: PrivateKey, u: UserOp, hash: Hash)
    requires Ready(chain, u0) && Fill(env, chain, u0, signer) == (u, Success(hash))
    ensures Printable(u) && u.initCode == InitCodeOfFactory(u) <==> BodyWillAgree(env, chain, u0)
  {
    FillIsTheUniqueSolution(env, chain, u0, signer, u, hash);
    CheckMatchesPrepared(env, chain, u0, signer, u);
  }

  /** A packed operation whose window and two signatures, cut out at their places, are those of the operation itself. */
  ghost predicate CarriesItsSignatures(env: Env, p: PackedUserOp, signer: PrivateKey) {
    && |p.paymasterAndData| == 181
    && p.paymasterAndData[..20] == env.config.paymasterAddress
    && Number(p.paymasterAndData[52..84]) == 2147483647
    && Number(p.paymasterAndData[84..116]) == 0
    && IsSignature(env.crypto, env.config.verifyingSigner,
                   PaymasterDigest(env.crypto, p, env.chainId, 2147483647, 0), p.paymasterAndData[116..181])
    && IsSignature(env.crypto, signer, SigningDigest(env.crypto, p, env.config.entrypoint, env.chainId), p.signature)
  }

  lemma SignedOperationCarriesItsSignatures(env: Env, u: UserOp, signer: PrivateKey, hash: Hash)
    requires u.NumbersSet() && u.LimitsInRange()
    requires SignedBy(env, u, signer, hash) && u.paymaster == env.config.paymasterAddress
    ensures CarriesItsSignatures(env, PackUserOperation(u), signer)
  {
    PaymasterDataAtOffsets(
      u.paymaster, u.paymasterVerificationGasLimit.value, u.paymasterPostOpGasLimit.value, u.paymasterData);
  }

  /**
   The whole pipeline seen from the other end: the operation a bundler rebuilds hashes to the
   returned hash, carries the owner's signature of that hash, and carries in its paymaster data the
   verifying signer's signature of its own paymaster hash.
   */
  lemma BundlerSeesWhatWasSigned(env: Env, chain: Chain, u0: UserOp, signer: PrivateKey, u: UserOp, hash: Hash)
    requires Ready(chain, u0) && Fill(env, chain, u0, signer) == (u, Success(hash))
    requires BodyWillAgree(env, chain, u0)
    ensures
      var rebuilt := Rebuild(BodyOf(env.crypto, u));
      && rebuilt.Some?
      && UserOpHash(env.crypto, rebuilt.value, env.config.entrypoint, env.chainId) == hash
      && CarriesItsSignatures(env, rebuilt.value, signer)
  {
    FilledBodyAgreesIff(env, chain, u0, signer, u, hash);
    FillIsTheUniqueSolution(env, chain, u0, signer, u, hash);
    SignedOperationCarriesItsSignatures(env, u, signer, hash);
  }

  lemma SigningSucceeds(env: Env, chain: Chain, u0: UserOp, signer: PrivateKey)
    requires forall key, h :: env.crypto.sign(key, h).Some?
    requires Ready(chain, u0) && Prepare(env, chain, u0, signer).1.None?
    ensures Fill(env, chain, u0, signer).1.Success?
  {
    var prepared := Prepare(env, chain, u0, signer).0;
    SignaturesAreNotHashed(env, prepared, [], []);
    PlaceholderStability(env.crypto, prepared, [], [], env.chainId, VALID_UNTIL, VALID_AFTER);
  }

  /**
   Whatever the operation: when it is filled before its account is deployed and again afterwards,
   and the first body is true to its signature, then the second one is not.
   */
  lemma StaleFactoryBreaksTheBody(
    env: Env, before: Chain, after: Chain, u0: UserOp, signer: PrivateKey,
    u: UserOp, hash: Hash, w: UserOp, hash': Hash)
    requires Ready(before, u0) && Fill(env, before, u0, signer) == (u, Success(hash))
    requires Ready(after, u) && Fill(env, after, u, signer) == (w, Success(hash'))
    requires before.code(u0.sender) == Some([]) && after.code(u0.sender) != Some([])
    requires Rebuild(BodyOf(env.crypto, u)) == Some(PackUserOperation(u))
    ensures Rebuild(BodyOf(env.crypto, w)) != Some(PackUserOperation(w))
  {
    FillIsTheUniqueSolution(env, before, u0, signer, u, hash);
    FilledBodyAgreesIff(env, before, u0, signer, u, hash);
    FilledBodyAgreesIff(env, after, u, signer, w, hash');
  }

  // An example with constant cryptography, to show that the situation arises.

  function Account(last: byte): (a: Address)
    ensures 0 < last ==> a != ZERO_ADDRESS
  {
    assert (Zeros(19) + [last])[19] == last && ZERO_ADDRESS[19] == 0;
    Zeros(19) + [last]
  }

  const NOT_DEPLOYED := Chain((_, _) => Some(0), _ => Some([]))
  const DEPLOYED := Chain((_, _) => Some(0), _ => Some([0xfe]))
  const EXAMPLE_KEY := PrivateKey(1)
  const EXAMPLE_ENV := Env(
    Crypto(_ => Zeros(32), (_, _) => Some(Zeros(65)), _ => Account(2)),
    Config(Account(3), Account(4), Account(5), EXAMPLE_KEY),
    1)
  const EXAMPLE_OP := DefaultUserOp(Account(1), [], Some(0))

  lemma ExampleBefore(u: UserOp)
    requires Ready(NOT_DEPLOYED, EXAMPLE_OP) && u == Fill(EXAMPLE_ENV, NOT_DEPLOYED, EXAMPLE_OP, EXAMPLE_KEY).0
    ensures Fill(EXAMPLE_ENV, NOT_DEPLOYED, EXAMPLE_OP, EXAMPLE_KEY).1.Success?
    ensures Rebuild(BodyOf(EXAMPLE_ENV.crypto, u)) == Some(PackUserOperation(u))
    ensures u.sender == Account(1) && u.salt == Some(0)
  {
    SigningSucceeds(EXAMPLE_ENV, NOT_DEPLOYED, EXAMPLE_OP, EXAMPLE_KEY);
    var hash := Fill(EXAMPLE_ENV, NOT_DEPLOYED, EXAMPLE_OP, EXAMPLE_KEY).1.value;
    FillIsTheUniqueSolution(EXAMPLE_ENV, NOT_DEPLOYED, EXAMPLE_OP, EXAMPLE_KEY, u, hash);
    FilledBodyAgreesIff(EXAMPLE_ENV, NOT_DEPLOYED, EXAMPLE_OP, EXAMPLE_KEY, u, hash);
  }

  /** The default operation filled before and after deployment: both calls succeed, only the first body is true. */
  lemma StaleFactoryExample() returns (u: UserOp, w: UserOp)
    ensures Ready(NOT_DEPLOYED, EXAMPLE_OP) && Fill(EXAMPLE_ENV, NOT_DEPLOYED, EXAMPLE_OP, EXAMPLE_KEY).1.Success?
    ensures u == Fill(EXAMPLE_ENV, NOT_DEPLOYED, EXAMPLE_OP, EXAMPLE_KEY).0
    ensures Rebuild(BodyOf(EXAMPLE_ENV.crypto, u)) == Some(PackUserOperation(u))
    ensures Ready(DEPLOYED, u) && Fill(EXAMPLE_ENV, DEPLOYED, u, EXAMPLE_KEY).1.Success?
    ensures w == Fill(EXAMPLE_ENV, DEPLOYED, u, EXAMPLE_KEY).0
    ensures Rebuild(BodyOf(EXAMPLE_ENV.crypto, w)) != Some(PackUserOperation(w))
  {
    var r := Fill(EXAMPLE_ENV, NOT_DEPLOYED, EXAMPLE_OP, EXAMPLE_KEY);
    u := r.0;
    ExampleBefore(u);
    SigningSucceeds(EXAMPLE_ENV, DEPLOYED, u, EXAMPLE_KEY);
    var r' := Fill(EXAMPLE_ENV, DEPLOYED, u, EXAMPLE_KEY);
    w := r'.0;
    StaleFactoryBreaksTheBody(
      EXAMPLE_ENV, NOT_DEPLOYED, DEPLOYED, EXAMPLE_OP, EXAMPLE_KEY, u, r.1.value, w, r'.1.value);
  }
}
