/**
 The hashes of utils.go and paymaster.go, and what equality of hashes says about operations.
 Keccak-256 is not assumed injective, so every conclusion names the pairs of byte strings
 that would have to collide for it to fail.
 */
module Hashing {
  import opened Wrappers
  import opened ByteStrings
  import opened Abi
  import opened Signing
  import opened UserOps
  import opened Packing

  function UserOpWords(K: Crypto, p: PackedUserOp): seq<Hash> {
    [AddressWord(p.sender), UintWord(p.nonce), K.keccak(p.initCode), K.keccak(p.callData),
     p.accountGasLimits, UintWord(p.preVerificationGas), p.gasFees, K.keccak(p.paymasterAndData)]
  }

  function UserOpPreimage(K: Crypto, p: PackedUserOp): Bytes {
    Abi.Pack(UserOpWords(K, p))
  }

  /** `HashedUserOp`: the inner hash, without entry point and chain. */
  function HashedUserOp(K: Crypto, p: PackedUserOp): Hash {
    K.keccak(UserOpPreimage(K, p))
  }

  function DomainWords(K: Crypto, p: PackedUserOp, entrypoint: Address, chainId: int): seq<Hash> {
    [HashedUserOp(K, p), AddressWord(entrypoint), UintWord(chainId)]
  }

  function DomainPreimage(K: Crypto, p: PackedUserOp, entrypoint: Address, chainId: int): Bytes {
    Abi.Pack(DomainWords(K, p, entrypoint, chainId))
  }

  /** `GetUserOpHash`: the hash the account owner signs. */
  function UserOpHash(K: Crypto, p: PackedUserOp, entrypoint: Address, chainId: int): Hash {
    K.keccak(DomainPreimage(K, p, entrypoint, chainId))
  }

  function PaymasterWords(K: Crypto, p: PackedUserOp, chainId: int, validUntil: int, validAfter: int): seq<Hash>
    requires PAYMASTER_DATA_OFFSET <= |p.paymasterAndData|
  {
    [AddressWord(p.sender), UintWord(p.nonce), K.keccak(p.initCode), K.keccak(p.callData),
     p.accountGasLimits,
     UintWord(Number(p.paymasterAndData[PAYMASTER_VALIDATION_GAS_OFFSET..PAYMASTER_DATA_OFFSET])),
     UintWord(p.preVerificationGas), p.gasFees, UintWord(chainId),
     AddressWord(p.paymasterAndData[..PAYMASTER_VALIDATION_GAS_OFFSET]),
     UintWord(validUntil), UintWord(validAfter)]
  }

  function PaymasterPreimage(K: Crypto, p: PackedUserOp, chainId: int, validUntil: int, validAfter: int): Bytes
    requires PAYMASTER_DATA_OFFSET <= |p.paymasterAndData|
  {
    Abi.Pack(PaymasterWords(K, p, chainId, validUntil, validAfter))
  }

  /** `GetPaymasterHash`: the hash the verifying signer signs; None is the "too short" error. */
  function PaymasterHash(K: Crypto, p: PackedUserOp, chainId: int, validUntil: int, validAfter: int)
    : (r: Option<Hash>)
    ensures r.None? <==> |p.paymasterAndData| < 52
  {
    if |p.paymasterAndData| < PAYMASTER_DATA_OFFSET then None
    else Some(K.keccak(PaymasterPreimage(K, p, chainId, validUntil, validAfter)))
  }

  /** Where everything sits in the preimage of the inner hash, as ERC-4337 hashes an operation. */
  lemma UserOpPreimageLayout(K: Crypto, p: PackedUserOp)
    ensures
      var x := UserOpPreimage(K, p);
      && |x| == 256
      && x[0..32] == Zeros(12) + p.sender
      && Number(x[32..64]) == p.nonce % TWO_256
      && x[64..96] == K.keccak(p.initCode)
      && x[96..128] == K.keccak(p.callData)
      && x[128..160] == p.accountGasLimits
      && Number(x[160..192]) == p.preVerificationGas % TWO_256
      && x[192..224] == p.gasFees
      && x[224..256] == K.keccak(p.paymasterAndData)
      && HashedUserOp(K, p) == K.keccak(x)
  {
    var ws := UserOpWords(K, p);
    WordAt(ws, 0);
    WordAt(ws, 1);
    WordAt(ws, 2);
    WordAt(ws, 3);
    WordAt(ws, 4);
    WordAt(ws, 5);
    WordAt(ws, 6);
    WordAt(ws, 7);
    UintWordReadsBack(p.nonce);
    UintWordReadsBack(p.preVerificationGas);
  }

  lemma DomainPreimageLayout(K: Crypto, p: PackedUserOp, entrypoint: Address, chainId: int)
    ensures
      var x := DomainPreimage(K, p, entrypoint, chainId);
      && |x| == 96
      && x[0..32] == HashedUserOp(K, p)
      && x[32..64] == Zeros(12) + entrypoint
      && Number(x[64..96]) == chainId % TWO_256
      && UserOpHash(K, p, entrypoint, chainId) == K.keccak(x)
  {
    var ws := DomainWords(K, p, entrypoint, chainId);
    WordAt(ws, 0);
    WordAt(ws, 1);
    WordAt(ws, 2);
    UintWordReadsBack(chainId);
  }

  /** Where everything sits in the preimage of the paymaster hash. */
  lemma PaymasterPreimageLayout(K: Crypto, p: PackedUserOp, chainId: int, validUntil: int, validAfter: int)
    requires PAYMASTER_DATA_OFFSET <= |p.paymasterAndData|
    ensures
      var x := PaymasterPreimage(K, p, chainId, validUntil, validAfter);
      && |x| == 384
      && x[0..32] == Zeros(12) + p.sender
      && Number(x[32..64]) == p.nonce % TWO_256
      && x[64..96] == K.keccak(p.initCode)
      && x[96..128] == K.keccak(p.callData)
      && x[128..160] == p.accountGasLimits
      && x[160..192] == p.paymasterAndData[20..52]
      && Number(x[192..224]) == p.preVerificationGas % TWO_256
      && x[224..256] == p.gasFees
      && Number(x[256..288]) == chainId % TWO_256
      && x[288..320] == Zeros(12) + p.paymasterAndData[..20]
      && Number(x[320..352]) == validUntil % TWO_256
      && Number(x[352..384]) == validAfter % TWO_256
      && PaymasterHash(K, p, chainId, validUntil, validAfter) == Some(K.keccak(x))
  {
    var ws := PaymasterWords(K, p, chainId, validUntil, validAfter);
    WordAt(ws, 0);
    WordAt(ws, 1);
    WordAt(ws, 2);
    WordAt(ws, 3);
    WordAt(ws, 4);
    WordAt(ws, 5);
    WordAt(ws, 6);
    WordAt(ws, 7);
    WordAt(ws, 8);
    WordAt(ws, 9);
    WordAt(ws, 10);
    WordAt(ws, 11);
    UintWordReadsBack(p.nonce);
    UintWordOfNumber(p.paymasterAndData[20..52]);
    UintWordReadsBack(p.preVerificationGas);
    UintWordReadsBack(chainId);
    UintWordReadsBack(validUntil);
    UintWordReadsBack(validAfter);
  }

  /** Integers that are the same uint256. */
  predicate SameUint256(x: int, y: int) {
    x % TWO_256 == y % TWO_256
  }

  lemma UintWordInjective(x: int, y: int)
    ensures UintWord(x) == UintWord(y) <==> SameUint256(x, y)
  {
    UintWordReadsBack(x);
    UintWordReadsBack(y);
  }

  /** What both hashes read outside paymasterAndData. */
  ghost predicate SameCommonFields(p: PackedUserOp, q: PackedUserOp) {
    && p.sender == q.sender && SameUint256(p.nonce, q.nonce)
    && p.initCode == q.initCode && p.callData == q.callData
    && p.accountGasLimits == q.accountGasLimits
    && SameUint256(p.preVerificationGas, q.preVerificationGas)
    && p.gasFees == q.gasFees
  }

  ghost predicate SameHashedFields(p: PackedUserOp, q: PackedUserOp) {
    SameCommonFields(p, q) && p.paymasterAndData == q.paymasterAndData
  }

  /** One of the pairs hashed on the way to two inner hashes collides. */
  ghost predicate InnerCollision(K: Crypto, p: PackedUserOp, q: PackedUserOp) {
    || Collides(K, p.initCode, q.initCode)
    || Collides(K, p.callData, q.callData)
    || Collides(K, p.paymasterAndData, q.paymasterAndData)
    || Collides(K, UserOpPreimage(K, p), UserOpPreimage(K, q))
  }

  /** One of the five pairs hashed on the way to two user operation hashes collides. */
  ghost predicate UserOpCollision(
    K: Crypto, p: PackedUserOp, e: Address, c: int, q: PackedUserOp, f: Address, d: int)
  {
    InnerCollision(K, p, q) || Collides(K, DomainPreimage(K, p, e, c), DomainPreimage(K, q, f, d))
  }

  lemma HashedUserOpBinding(K: Crypto, p: PackedUserOp, q: PackedUserOp)
    ensures SameHashedFields(p, q) ==> HashedUserOp(K, p) == HashedUserOp(K, q)
    ensures HashedUserOp(K, p) == HashedUserOp(K, q) ==> SameHashedFields(p, q) || InnerCollision(K, p, q)
  {
    UintWordInjective(p.nonce, q.nonce);
    UintWordInjective(p.preVerificationGas, q.preVerificationGas);
    var ws, vs := UserOpWords(K, p), UserOpWords(K, q);
    if UserOpPreimage(K, p) == UserOpPreimage(K, q) {
      PackInjective(ws, vs);
      assert ws[0] == vs[0] && ws[1] == vs[1] && ws[2] == vs[2] && ws[3] == vs[3];
      assert ws[4] == vs[4] && ws[5] == vs[5] && ws[6] == vs[6] && ws[7] == vs[7];
      AddressWordInjective(p.sender, q.sender);
    }
  }

  /**
   Equal user operation hashes mean the same operation, entry point and chain, unless one of the
   five pairs of hashed byte strings is a Keccak collision. Integers are compared as uint256.
   */
  lemma UserOpHashBinding(K: Crypto, p: PackedUserOp, e: Address, c: int, q: PackedUserOp, f: Address, d: int)
    ensures SameHashedFields(p, q) && e == f && SameUint256(c, d) ==>
            UserOpHash(K, p, e, c) == UserOpHash(K, q, f, d)
    ensures UserOpHash(K, p, e, c) == UserOpHash(K, q, f, d) ==>
            (SameHashedFields(p, q) && e == f && SameUint256(c, d)) || UserOpCollision(K, p, e, c, q, f, d)
  {
    HashedUserOpBinding(K, p, q);
    UintWordInjective(c, d);
    var ws, vs := DomainWords(K, p, e, c), DomainWords(K, q, f, d);
    if DomainPreimage(K, p, e, c) == DomainPreimage(K, q, f, d) {
      PackInjective(ws, vs);
      assert ws[0] == vs[0] && ws[1] == vs[1] && ws[2] == vs[2];
      AddressWordInjective(e, f);
    }
  }

  lemma Uint256Unique(x: int, y: int)
    requires IsUint256(x) && IsUint256(y) && SameUint256(x, y)
    ensures x == y
  {
  }

  lemma HashedFieldsFixOperation(u: UserOp, w: UserOp)
    requires u.NumbersSet() && u.LimitsInRange() && u.Uint256Numbers()
    requires w.NumbersSet() && w.LimitsInRange() && w.Uint256Numbers()
    requires SameHashedFields(PackUserOperation(u), PackUserOperation(w))
    ensures SamePackedFields(u, w)
  {
    Uint256Unique(u.nonce.value, w.nonce.value);
    Uint256Unique(u.preVerificationGas.value, w.preVerificationGas.value);
    PackUserOperationInjective(u, w.(signature := u.signature));
  }

  /** The digest an account owner's key signs for an operation. */
  function SigningDigest(K: Crypto, p: PackedUserOp, entrypoint: Address, chainId: int): Hash {
    K.keccak(Frame(UserOpHash(K, p, entrypoint, chainId)))
  }

  /** One of the six pairs hashed on the way to two signing digests collides. */
  ghost predicate DigestCollision(
    K: Crypto, p: PackedUserOp, e: Address, c: int, q: PackedUserOp, f: Address, d: int)
  {
    || UserOpCollision(K, p, e, c, q, f, d)
    || Collides(K, Frame(UserOpHash(K, p, e, c)), Frame(UserOpHash(K, q, f, d)))
  }

  lemma FramedHashBinding(K: Crypto, h: Hash, g: Hash)
    requires K.keccak(Frame(h)) == K.keccak(Frame(g))
    ensures h == g || Collides(K, Frame(h), Frame(g))
  {
    if Frame(h) == Frame(g) {
      FrameInjective(h, g);
    }
  }

  lemma SigningDigestBinding(K: Crypto, p: PackedUserOp, e: Address, c: int, q: PackedUserOp, f: Address, d: int)
    requires SigningDigest(K, p, e, c) == SigningDigest(K, q, f, d)
    ensures (SameHashedFields(p, q) && e == f && SameUint256(c, d)) || DigestCollision(K, p, e, c, q, f, d)
  {
    FramedHashBinding(K, UserOpHash(K, p, e, c), UserOpHash(K, q, f, d));
    if UserOpHash(K, p, e, c) == UserOpHash(K, q, f, d) {
      UserOpHashBinding(K, p, e, c, q, f, d);
    }
  }

  /**
   What one account signature fixes: if the digests signed for two operations agree, then the
   operations agree on every field the packed form carries, or a named pair collides.
   */
  lemma SignatureFixesOperation(K: Crypto, u: UserOp, e: Address, c: int, w: UserOp, f: Address, d: int)
    requires u.NumbersSet() && u.LimitsInRange() && u.Uint256Numbers() && IsUint256(c)
    requires w.NumbersSet() && w.LimitsInRange() && w.Uint256Numbers() && IsUint256(d)
    requires SigningDigest(K, PackUserOperation(u), e, c) == SigningDigest(K, PackUserOperation(w), f, d)
    ensures
      || (SamePackedFields(u, w) && e == f && c == d)
      || DigestCollision(K, PackUserOperation(u), e, c, PackUserOperation(w), f, d)
  {
    var p, q := PackUserOperation(u), PackUserOperation(w);
    SigningDigestBinding(K, p, e, c, q, f, d);
    if SameHashedFields(p, q) && e == f && SameUint256(c, d) {
      HashedFieldsFixOperation(u, w);
      Uint256Unique(c, d);
    }
  }

  /** The paymaster hash reads the first 52 bytes of paymasterAndData and ignores the signature. */
  lemma PaymasterHashReadsHead(
    K: Crypto, p: PackedUserOp, q: PackedUserOp, chainId: int, validUntil: int, validAfter: int)
    requires PAYMASTER_DATA_OFFSET <= |p.paymasterAndData| && PAYMASTER_DATA_OFFSET <= |q.paymasterAndData|
    requires p.paymasterAndData[..PAYMASTER_DATA_OFFSET] == q.paymasterAndData[..PAYMASTER_DATA_OFFSET]
    requires SameCommonFields(p, q)
    ensures PaymasterHash(K, p, chainId, validUntil, validAfter) ==
            PaymasterHash(K, q, chainId, validUntil, validAfter)
  {
    UintWordInjective(p.nonce, q.nonce);
    UintWordInjective(p.preVerificationGas, q.preVerificationGas);
    var x, y := p.paymasterAndData, q.paymasterAndData;
    assert x[..20] == x[..52][..20] && y[..20] == y[..52][..20];
    assert x[20..52] == x[..52][20..] && y[20..52] == y[..52][20..];
  }

  /** Replacing the paymaster data or the signature of an operation keeps its paymaster hash. */
  lemma PlaceholderStability(
    K: Crypto, u: UserOp, data: Bytes, sig: Bytes, chainId: int, validUntil: int, validAfter: int)
    requires u.NumbersSet()
    ensures PaymasterHash(K, PackUserOperation(u), chainId, validUntil, validAfter).Some?
    ensures
      var v := u.(paymasterData := data, signature := sig);
      PaymasterHash(K, PackUserOperation(v), chainId, validUntil, validAfter) ==
      PaymasterHash(K, PackUserOperation(u), chainId, validUntil, validAfter)
  {
    var v, o := u.paymasterVerificationGasLimit.value, u.paymasterPostOpGasLimit.value;
    DataOffset(u.paymaster, v, o, data);
    DataOffset(u.paymaster, v, o, u.paymasterData);
    var p, q := PackUserOperation(u.(paymasterData := data, signature := sig)), PackUserOperation(u);
    var head := PaymasterAndData(u.paymaster, v, o, []);
    assert p.paymasterAndData[..52] == head[..52] == q.paymasterAndData[..52];
    PaymasterHashReadsHead(K, p, q, chainId, validUntil, validAfter);
  }

  /** What one paymaster signature fixes: all of this, up to the pairs that would have to collide. */
  lemma PaymasterHashBinding(
    K: Crypto, p: PackedUserOp, c: int, until: int, after: int, q: PackedUserOp, d: int, until': int, after': int)
    requires PaymasterHash(K, p, c, until, after).Some?
    requires PaymasterHash(K, p, c, until, after) == PaymasterHash(K, q, d, until', after')
    ensures
      || (&& SameCommonFields(p, q)
          && p.paymasterAndData[..PAYMASTER_DATA_OFFSET] == q.paymasterAndData[..PAYMASTER_DATA_OFFSET]
          && SameUint256(c, d) && SameUint256(until, until') && SameUint256(after, after'))
      || Collides(K, p.initCode, q.initCode)
      || Collides(K, p.callData, q.callData)
      || Collides(K, PaymasterPreimage(K, p, c, until, after), PaymasterPreimage(K, q, d, until', after'))
  {
    var ws, vs := PaymasterWords(K, p, c, until, after), PaymasterWords(K, q, d, until', after');
    if Abi.Pack(ws) == Abi.Pack(vs) {
      PackInjective(ws, vs);
      assert ws[0] == vs[0] && ws[1] == vs[1] && ws[2] == vs[2] && ws[3] == vs[3];
      assert ws[4] == vs[4] && ws[5] == vs[5] && ws[6] == vs[6] && ws[7] == vs[7];
      assert ws[8] == vs[8] && ws[9] == vs[9] && ws[10] == vs[10] && ws[11] == vs[11];
      AddressWordInjective(p.sender, q.sender);
      UintWordInjective(p.nonce, q.nonce);
      UintWordInjective(p.preVerificationGas, q.preVerificationGas);
      UintWordInjective(c, d);
      UintWordInjective(until, until');
      UintWordInjective(after, after');
      PaymasterHeadInjective(p.paymasterAndData, q.paymasterAndData);
    }
  }

  lemma PaymasterHeadInjective(x: Bytes, y: Bytes)
    requires PAYMASTER_DATA_OFFSET <= |x| && PAYMASTER_DATA_OFFSET <= |y|
    requires UintWord(Number(x[20..52])) == UintWord(Number(y[20..52]))
    requires AddressWord(x[..20]) == AddressWord(y[..20])
    ensures x[..PAYMASTER_DATA_OFFSET] == y[..PAYMASTER_DATA_OFFSET]
  {
    AddressWordInjective(x[..20], y[..20]);
    UintWordOfNumber(x[20..52]);
    UintWordOfNumber(y[20..52]);
    assert x[..52] == x[..20] + x[20..52] && y[..52] == y[..20] + y[20..52];
  }

  /** The digest the verifying signer's key signs for an operation. */
  function PaymasterDigest(K: Crypto, p: PackedUserOp, chainId: int, validUntil: int, validAfter: int): Hash
    requires PAYMASTER_DATA_OFFSET <= |p.paymasterAndData|
  {
    K.keccak(Frame(PaymasterHash(K, p, chainId, validUntil, validAfter).value))
  }

  ghost predicate PaymasterCollision(
    K: Crypto, p: PackedUserOp, c: int, until: int, after: int, q: PackedUserOp, d: int, until': int, after': int)
    requires PAYMASTER_DATA_OFFSET <= |p.paymasterAndData| && PAYMASTER_DATA_OFFSET <= |q.paymasterAndData|
  {
    || Collides(K, p.initCode, q.initCode)
    || Collides(K, p.callData, q.callData)
    || Collides(K, PaymasterPreimage(K, p, c, until, after), PaymasterPreimage(K, q, d, until', after'))
    || Collides(
         K, Frame(PaymasterHash(K, p, c, until, after).value), Frame(PaymasterHash(K, q, d, until', after').value))
  }

  lemma PaymasterDigestBinding(
    K: Crypto, p: PackedUserOp, c: int, until: int, after: int, q: PackedUserOp, d: int, until': int, after': int)
    requires PAYMASTER_DATA_OFFSET <= |p.paymasterAndData| && PAYMASTER_DATA_OFFSET <= |q.paymasterAndData|
    requires PaymasterDigest(K, p, c, until, after) == PaymasterDigest(K, q, d, until', after')
    ensures
      || (&& SameCommonFields(p, q)
          && p.paymasterAndData[..PAYMASTER_DATA_OFFSET] == q.paymasterAndData[..PAYMASTER_DATA_OFFSET]
          && SameUint256(c, d) && SameUint256(until, until') && SameUint256(after, after'))
      || PaymasterCollision(K, p, c, until, after, q, d, until', after')
  {
    var h, g := PaymasterHash(K, p, c, until, after), PaymasterHash(K, q, d, until', after');
    FramedHashBinding(K, h.value, g.value);
    if h == g {
      PaymasterHashBinding(K, p, c, until, after, q, d, until', after');
    }
  }

  lemma PaddedTo52(u: UserOp)
    requires u.NumbersSet() && u.LimitsInRange()
    ensures
      var x := PackUserOperation(u).paymasterAndData;
      x[..PAYMASTER_DATA_OFFSET] == PaymasterAndData(
           u.paymaster, u.paymasterVerificationGasLimit.value, u.paymasterPostOpGasLimit.value, [])
  {
    DataOffset(u.paymaster, u.paymasterVerificationGasLimit.value, u.paymasterPostOpGasLimit.value, u.paymasterData);
  }

  /** Everything `SamePackedFields` compares except the paymaster data, which carries the signature itself. */
  ghost predicate SameSponsoredFields(u: UserOp, w: UserOp) {
    SamePackedFields(u.(paymasterData := []), w.(paymasterData := []))
  }

  lemma HeadFixesSponsoredFields(u: UserOp, w: UserOp)
    requires u.NumbersSet() && u.LimitsInRange() && u.Uint256Numbers()
    requires w.NumbersSet() && w.LimitsInRange() && w.Uint256Numbers()
    requires SameCommonFields(PackUserOperation(u), PackUserOperation(w))
    requires PackUserOperation(u).paymasterAndData[..PAYMASTER_DATA_OFFSET] ==
             PackUserOperation(w).paymasterAndData[..PAYMASTER_DATA_OFFSET]
    ensures SameSponsoredFields(u, w)
  {
    PaddedTo52(u);
    PaddedTo52(w);
    HashedFieldsFixOperation(u.(paymasterData := []), w.(paymasterData := []));
  }

  /**
   What one paymaster signature fixes: if the digests the verifying signer signed for two operations
   agree, then the operations agree on every field but data and signature, and so do the chain and
   the validity window, or a named pair collides. The entry point is not among the fixed things.
   */
  lemma PaymasterSignatureFixesOperation(
    K: Crypto, u: UserOp, c: int, until: int, after: int, w: UserOp, d: int, until': int, after': int)
    requires u.NumbersSet() && u.LimitsInRange() && u.Uint256Numbers()
    requires w.NumbersSet() && w.LimitsInRange() && w.Uint256Numbers()
    requires IsUint256(c) && IsUint256(until) && IsUint256(after)
    requires IsUint256(d) && IsUint256(until') && IsUint256(after')
    requires PaymasterDigest(K, PackUserOperation(u), c, until, after) ==
             PaymasterDigest(K, PackUserOperation(w), d, until', after')
    ensures
      || (SameSponsoredFields(u, w) && c == d && until == until' && after == after')
      || PaymasterCollision(K, PackUserOperation(u), c, until, after, PackUserOperation(w), d, until', after')
  {
    var p, q := PackUserOperation(u), PackUserOperation(w);
    PaymasterDigestBinding(K, p, c, until, after, q, d, until', after');
    if !PaymasterCollision(K, p, c, until, after, q, d, until', after') {
      HeadFixesSponsoredFields(u, w);
      Uint256Unique(c, d);
      Uint256Unique(until, until');
      Uint256Unique(after, after');
    }
  }

  /**
   A paymaster signature is no account signature and the other way round: if the two signed digests
   agree, then either the framed hashes collide or the two preimages do, which have different lengths.
   */
  lemma HashDomainsAreSeparate(
    K: Crypto, p: PackedUserOp, c: int, until: int, after: int, q: PackedUserOp, e: Address, d: int)
    requires PAYMASTER_DATA_OFFSET <= |p.paymasterAndData|
    requires PaymasterDigest(K, p, c, until, after) == SigningDigest(K, q, e, d)
    ensures
      || Collides(K, Frame(PaymasterHash(K, p, c, until, after).value), Frame(UserOpHash(K, q, e, d)))
      || Collides(K, PaymasterPreimage(K, p, c, until, after), DomainPreimage(K, q, e, d))
  {
    FramedHashBinding(K, PaymasterHash(K, p, c, until, after).value, UserOpHash(K, q, e, d));
    assert |PaymasterPreimage(K, p, c, until, after)| == 384;
    assert |DomainPreimage(K, q, e, d)| == 96;
  }

  /** What the two keys sign: Keccak-256 of the version 0x45 prefix of ERC-191 and the hash, byte by byte. */
  lemma DigestsAreFramed(K: Crypto, p: PackedUserOp, e: Address, c: int, validUntil: int, validAfter: int)
    ensures
      SigningDigest(K, p, e, c) == K.keccak(
        [0x19, 0x45, 0x74, 0x68, 0x65, 0x72, 0x65, 0x75, 0x6d, 0x20, 0x53, 0x69, 0x67, 0x6e,
         0x65, 0x64, 0x20, 0x4d, 0x65, 0x73, 0x73, 0x61, 0x67, 0x65, 0x3a, 0x0a, 0x33, 0x32]
        + UserOpHash(K, p, e, c))
    ensures
      52 <= |p.paymasterAndData| ==>
      PaymasterDigest(K, p, c, validUntil, validAfter) == K.keccak(
        [0x19, 0x45, 0x74, 0x68, 0x65, 0x72, 0x65, 0x75, 0x6d, 0x20, 0x53, 0x69, 0x67, 0x6e,
         0x65, 0x64, 0x20, 0x4d, 0x65, 0x73, 0x73, 0x61, 0x67, 0x65, 0x3a, 0x0a, 0x33, 0x32]
        + PaymasterHash(K, p, c, validUntil, validAfter).value)
  {
    FrameOfHash(UserOpHash(K, p, e, c));
    if 52 <= |p.paymasterAndData| {
      FrameOfHash(PaymasterHash(K, p, c, validUntil, validAfter).value);
    }
  }

  /**
   The inner hashes that `HandleOps` reports are never the hashes that `FillAndSign` returns, short
   of a collision between preimages of different lengths.
   */
  lemma InnerHashIsNotUserOpHash(K: Crypto, p: PackedUserOp, q: PackedUserOp, e: Address, c: int)
    requires HashedUserOp(K, p) == UserOpHash(K, q, e, c)
    ensures Collides(K, UserOpPreimage(K, p), DomainPreimage(K, q, e, c))
  {
    assert |UserOpPreimage(K, p)| == 256 && |DomainPreimage(K, q, e, c)| == 96;
  }
}
