/**
 `ToBody` of types.go, and the reader on the other side: a bundler that rebuilds the
 PackedUserOperation from the JSON body as ERC-4337 lays it out.
 */
module JsonBody {
  import opened Wrappers
  import opened Positional
  import opened ByteStrings
  import opened Text
  import opened Abi
  import opened Signing
  import opened UserOps
  import opened Packing

  /** The fields of an operation that the body may hold. */
  datatype Field =
    | SenderField | NonceField | CallDataField | CallGasLimitField | VerificationGasLimitField
    | PreVerificationGasField | MaxFeePerGasField | MaxPriorityFeePerGasField | SignatureField
    | PaymasterField | PaymasterDataField | PaymasterVerificationGasLimitField
    | PaymasterPostOpGasLimitField | FactoryField | FactoryDataField

  function Name(f: Field): string {
    match f
    case SenderField => "sender"
    case NonceField => "nonce"
    case CallDataField => "callData"
    case CallGasLimitField => "callGasLimit"
    case VerificationGasLimitField => "verificationGasLimit"
    case PreVerificationGasField => "preVerificationGas"
    case MaxFeePerGasField => "maxFeePerGas"
    case MaxPriorityFeePerGasField => "maxPriorityFeePerGas"
    case SignatureField => "signature"
    case PaymasterField => "paymaster"
    case PaymasterDataField => "paymasterData"
    case PaymasterVerificationGasLimitField => "paymasterVerificationGasLimit"
    case PaymasterPostOpGasLimitField => "paymasterPostOpGasLimit"
    case FactoryField => "factory"
    case FactoryDataField => "factoryData"
  }

  /** No two fields share a key. */
  lemma NameInjective(f: Field, g: Field)
    requires Name(f) == Name(g)
    ensures f == g
  {
  }

  function AddressText(K: Crypto, a: Address): (text: Option<string>)
    ensures text.None? <==> a == ZERO_ADDRESS
  {
    if a == ZERO_ADDRESS then None else Some(AddressHex(K, a))
  }

  function DataText(bs: Bytes): (text: Option<string>)
    ensures text.None? <==> bs == []
  {
    if |bs| == 0 then None else Some("0x" + HexEncode(bs))
  }

  function NumberText(x: Option<int>): (text: Option<string>)
    ensures text.None? <==> x.None?
  {
    if x.None? then None else Some("0x" + IntText(x.value, 16))
  }

  /** What an operation prints for a field, if anything. */
  function Printed(K: Crypto, u: UserOp, f: Field): Option<string> {
    match f
    case SenderField => AddressText(K, u.sender)
    case NonceField => NumberText(u.nonce)
    case CallDataField => DataText(u.callData)
    case CallGasLimitField => NumberText(u.callGasLimit)
    case VerificationGasLimitField => NumberText(u.verificationGasLimit)
    case PreVerificationGasField => NumberText(u.preVerificationGas)
    case MaxFeePerGasField => NumberText(u.maxFeePerGas)
    case MaxPriorityFeePerGasField => NumberText(u.maxPriorityFeePerGas)
    case SignatureField => DataText(u.signature)
    case PaymasterField => AddressText(K, u.paymaster)
    case PaymasterDataField => DataText(u.paymasterData)
    case PaymasterVerificationGasLimitField => NumberText(u.paymasterVerificationGasLimit)
    case PaymasterPostOpGasLimitField => NumberText(u.paymasterPostOpGasLimit)
    case FactoryField => AddressText(K, u.factory)
    case FactoryDataField => DataText(u.factoryData)
  }

  type Body = map<string, string>

  function Find(body: Body, key: string): Option<string> {
    if key in body then Some(body[key]) else None
  }

  /** Where a field comes in the order in which the body is filled. */
  function Rank(f: Field): nat {
    match f
    case SenderField => 0
    case NonceField => 1
    case CallDataField => 2
    case CallGasLimitField => 3
    case VerificationGasLimitField => 4
    case PreVerificationGasField => 5
    case MaxFeePerGasField => 6
    case MaxPriorityFeePerGasField => 7
    case SignatureField => 8
    case PaymasterField => 9
    case PaymasterDataField => 10
    case PaymasterVerificationGasLimitField => 11
    case PaymasterPostOpGasLimitField => 12
    case FactoryField => 13
    case FactoryDataField => 14
  }

  const FIELD_COUNT := 15

  function FieldAt(i: nat): (f: Field)
    requires i < FIELD_COUNT
    ensures Rank(f) == i
  {
    match i
    case 0 => SenderField
    case 1 => NonceField
    case 2 => CallDataField
    case 3 => CallGasLimitField
    case 4 => VerificationGasLimitField
    case 5 => PreVerificationGasField
    case 6 => MaxFeePerGasField
    case 7 => MaxPriorityFeePerGasField
    case 8 => SignatureField
    case 9 => PaymasterField
    case 10 => PaymasterDataField
    case 11 => PaymasterVerificationGasLimitField
    case 12 => PaymasterPostOpGasLimitField
    case 13 => FactoryField
    case 14 => FactoryDataField
  }

  lemma RankInjective(f: Field, g: Field)
    requires Rank(f) == Rank(g)
    ensures f == g
  {
  }

  /** What the first n fields print. */
  function BodyUpTo(K: Crypto, u: UserOp, n: nat): Body
    requires n <= FIELD_COUNT
  {
    if n == 0 then map[] else
      var f := FieldAt(n - 1);
      if Printed(K, u, f).Some? then BodyUpTo(K, u, n - 1)[Name(f) := Printed(K, u, f).value]
      else BodyUpTo(K, u, n - 1)
  }

  function BodyOf(K: Crypto, u: UserOp): Body {
    BodyUpTo(K, u, FIELD_COUNT)
  }

  method PutAddress(K: Crypto, ghost u: UserOp, body: Body, f: Field, a: Address) returns (r: Body)
    requires body == BodyUpTo(K, u, Rank(f)) && Printed(K, u, f) == AddressText(K, a)
    ensures r == BodyUpTo(K, u, Rank(f) + 1)
  {
    RankInjective(FieldAt(Rank(f)), f);
    r := body;
    if a != ZERO_ADDRESS {
      r := r[Name(f) := AddressHex(K, a)];
    }
  }

  method PutNumber(ghost K: Crypto, ghost u: UserOp, body: Body, f: Field, x: Option<int>) returns (r: Body)
    requires body == BodyUpTo(K, u, Rank(f)) && Printed(K, u, f) == NumberText(x)
    ensures r == BodyUpTo(K, u, Rank(f) + 1)
  {
    RankInjective(FieldAt(Rank(f)), f);
    r := body;
    if x.Some? {
      r := r[Name(f) := "0x" + IntText(x.value, 16)];
    }
  }

  method PutData(ghost K: Crypto, ghost u: UserOp, body: Body, f: Field, bs: Bytes) returns (r: Body)
    requires body == BodyUpTo(K, u, Rank(f)) && Printed(K, u, f) == DataText(bs)
    ensures r == BodyUpTo(K, u, Rank(f) + 1)
  {
    RankInjective(FieldAt(Rank(f)), f);
    r := body;
    if |bs| > 0 {
      r := r[Name(f) := "0x" + HexEncode(bs)];
    }
  }

  method PutAccountFields(K: Crypto, body: Body, u: UserOperation) returns (r: Body)
    requires body == BodyUpTo(K, u.Snapshot(), 0)
    ensures r == BodyUpTo(K, u.Snapshot(), 5)
  {
    ghost var v := u.Snapshot();
    r := PutAddress(K, v, body, SenderField, u.sender);
    r := PutNumber(K, v, r, NonceField, u.nonce);
    r := PutData(K, v, r, CallDataField, u.callData);
    r := PutNumber(K, v, r, CallGasLimitField, u.callGasLimit);
    r := PutNumber(K, v, r, VerificationGasLimitField, u.verificationGasLimit);
  }

  method PutFeeFields(K: Crypto, body: Body, u: UserOperation) returns (r: Body)
    requires body == BodyUpTo(K, u.Snapshot(), 5)
    ensures r == BodyUpTo(K, u.Snapshot(), 9)
  {
    ghost var v := u.Snapshot();
    r := PutNumber(K, v, body, PreVerificationGasField, u.preVerificationGas);
    r := PutNumber(K, v, r, MaxFeePerGasField, u.maxFeePerGas);
    r := PutNumber(K, v, r, MaxPriorityFeePerGasField, u.maxPriorityFeePerGas);
    r := PutData(K, v, r, SignatureField, u.signature);
  }

  method PutPaymaster(K: Crypto, body: Body, u: UserOperation) returns (r: Body)
    requires body == BodyUpTo(K, u.Snapshot(), 9)
    ensures r == BodyUpTo(K, u.Snapshot(), 11)
  {
    ghost var v := u.Snapshot();
    r := PutAddress(K, v, body, PaymasterField, u.paymaster);
    r := PutData(K, v, r, PaymasterDataField, u.paymasterData);
  }

  method PutPaymasterLimits(K: Crypto, body: Body, u: UserOperation) returns (r: Body)
    requires body == BodyUpTo(K, u.Snapshot(), 11)
    ensures r == BodyUpTo(K, u.Snapshot(), 13)
  {
    ghost var v := u.Snapshot();
    r := PutNumber(K, v, body, PaymasterVerificationGasLimitField, u.paymasterVerificationGasLimit);
    r := PutNumber(K, v, r, PaymasterPostOpGasLimitField, u.paymasterPostOpGasLimit);
  }

  method PutFactoryFields(K: Crypto, body: Body, u: UserOperation) returns (r: Body)
    requires body == BodyUpTo(K, u.Snapshot(), 13)
    ensures r == BodyUpTo(K, u.Snapshot(), FIELD_COUNT)
  {
    ghost var v := u.Snapshot();
    r := PutAddress(K, v, body, FactoryField, u.factory);
    r := PutData(K, v, r, FactoryDataField, u.factoryData);
  }

  /** `ToBody`: one conditional entry after the other. */
  method ToBody(K: Crypto, u: UserOperation) returns (body: Body)
    ensures body == BodyOf(K, u.Snapshot())
  {
    body := map[];
    body := PutAccountFields(K, body, u);
    body := PutFeeFields(K, body, u);
    body := PutPaymaster(K, body, u);
    body := PutPaymasterLimits(K, body, u);
    body := PutFactoryFields(K, body, u);
  }

  lemma FoundOneMore(K: Crypto, u: UserOp, body: Body, f: Field, g: Field)
    requires Find(body, Name(f)) == if Rank(f) < Rank(g) then Printed(K, u, f) else None
    ensures
      var more := if Printed(K, u, g).Some? then body[Name(g) := Printed(K, u, g).value] else body;
      Find(more, Name(f)) == if Rank(f) < Rank(g) + 1 then Printed(K, u, f) else None
  {
    if Name(f) == Name(g) {
      NameInjective(f, g);
    } else if Rank(f) == Rank(g) {
      RankInjective(f, g);
    }
  }

  lemma {:induction false} FoundUpTo(K: Crypto, u: UserOp, n: nat, f: Field)
    requires n <= FIELD_COUNT
    ensures Find(BodyUpTo(K, u, n), Name(f)) == if Rank(f) < n then Printed(K, u, f) else None
  {
    if n != 0 {
      FoundUpTo(K, u, n - 1, f);
      FoundOneMore(K, u, BodyUpTo(K, u, n - 1), f, FieldAt(n - 1));
    }
  }

  lemma {:induction false} KeysUpTo(K: Crypto, u: UserOp, n: nat, key: string)
    requires n <= FIELD_COUNT && key in BodyUpTo(K, u, n)
    ensures exists f: Field :: key == Name(f)
  {
    if key != Name(FieldAt(n - 1)) {
      KeysUpTo(K, u, n - 1, key);
    }
  }

  // The body under the literal keys of ERC-4337.

  ghost predicate AccountEntries(K: Crypto, u: UserOp, body: Body) {
    && Find(body, "sender") == AddressText(K, u.sender)
    && Find(body, "nonce") == NumberText(u.nonce)
    && Find(body, "callData") == DataText(u.callData)
    && Find(body, "callGasLimit") == NumberText(u.callGasLimit)
    && Find(body, "verificationGasLimit") == NumberText(u.verificationGasLimit)
    && Find(body, "preVerificationGas") == NumberText(u.preVerificationGas)
  }

  ghost predicate FeeEntries(K: Crypto, u: UserOp, body: Body) {
    && Find(body, "maxFeePerGas") == NumberText(u.maxFeePerGas)
    && Find(body, "maxPriorityFeePerGas") == NumberText(u.maxPriorityFeePerGas)
    && Find(body, "signature") == DataText(u.signature)
    && Find(body, "factory") == AddressText(K, u.factory)
    && Find(body, "factoryData") == DataText(u.factoryData)
  }

  ghost predicate PaymasterEntries(K: Crypto, u: UserOp, body: Body) {
    && Find(body, "paymaster") == AddressText(K, u.paymaster)
    && Find(body, "paymasterData") == DataText(u.paymasterData)
    && Find(body, "paymasterVerificationGasLimit") == NumberText(u.paymasterVerificationGasLimit)
    && Find(body, "paymasterPostOpGasLimit") == NumberText(u.paymasterPostOpGasLimit)
  }

  lemma FoundUnder(K: Crypto, u: UserOp, f: Field, key: string)
    requires key == Name(f)
    ensures Find(BodyOf(K, u), key) == Printed(K, u, f)
  {
    FoundUpTo(K, u, FIELD_COUNT, f);
  }

  lemma HasAccountEntries(K: Crypto, u: UserOp)
    ensures AccountEntries(K, u, BodyOf(K, u))
  {
    FoundUnder(K, u, SenderField, "sender");
    FoundUnder(K, u, NonceField, "nonce");
    FoundUnder(K, u, CallDataField, "callData");
    FoundUnder(K, u, CallGasLimitField, "callGasLimit");
    FoundUnder(K, u, VerificationGasLimitField, "verificationGasLimit");
    FoundUnder(K, u, PreVerificationGasField, "preVerificationGas");
  }

  lemma HasFeeEntries(K: Crypto, u: UserOp)
    ensures FeeEntries(K, u, BodyOf(K, u))
  {
    FoundUnder(K, u, MaxFeePerGasField, "maxFeePerGas");
    FoundUnder(K, u, MaxPriorityFeePerGasField, "maxPriorityFeePerGas");
    FoundUnder(K, u, SignatureField, "signature");
    FoundUnder(K, u, FactoryField, "factory");
    FoundUnder(K, u, FactoryDataField, "factoryData");
  }

  lemma HasPaymasterEntries(K: Crypto, u: UserOp)
    ensures PaymasterEntries(K, u, BodyOf(K, u))
  {
    FoundUnder(K, u, PaymasterField, "paymaster");
    FoundUnder(K, u, PaymasterDataField, "paymasterData");
    FoundUnder(K, u, PaymasterVerificationGasLimitField, "paymasterVerificationGasLimit");
    FoundUnder(K, u, PaymasterPostOpGasLimitField, "paymasterPostOpGasLimit");
  }

  /** The body holds each field that is set under its key of ERC-4337, and nothing else. */
  lemma BodyEntries(K: Crypto, u: UserOp)
    ensures AccountEntries(K, u, BodyOf(K, u))
    ensures FeeEntries(K, u, BodyOf(K, u))
    ensures PaymasterEntries(K, u, BodyOf(K, u))
    ensures forall key :: key in BodyOf(K, u) ==> exists f: Field :: key == Name(f)
  {
    HasAccountEntries(K, u);
    HasFeeEntries(K, u);
    HasPaymasterEntries(K, u);
    forall key | key in BodyOf(K, u)
      ensures exists f: Field :: key == Name(f)
    {
      KeysUpTo(K, u, FIELD_COUNT, key);
    }
  }

  function ReadData(text: Option<string>): Option<Bytes> {
    if text.None? then Some([]) else ParseData(text.value)
  }

  function ReadUint(text: Option<string>): Option<nat> {
    if text.None? then None else ParseQuantity(text.value)
  }

  function ReadUint256(text: Option<string>): Option<nat> {
    var n :- ReadUint(text);
    if n < TWO_256 then Some(n) else None
  }

  function ReadUint128(text: Option<string>): Option<nat> {
    var n :- ReadUint(text);
    if n < TWO_128 then Some(n) else None
  }

  function ReadAddress(text: Option<string>): Option<Address> {
    if text.None? then None else ParseAddress(text.value)
  }

  /** Two uint128 values as one word, high part first. */
  function TwoSlots(high: nat, low: nat): Hash {
    UintWord(high * TWO_128 + low)
  }

  // What a reader finds in a body, by kind of field; None when missing or malformed.
  datatype Addresses = Addresses(sender: Option<Address>, paymaster: Option<Address>, factory: Option<Address>)
  datatype Gas = Gas(
    nonce: Option<nat>, preVerification: Option<nat>, verification: Option<nat>, call: Option<nat>,
    priority: Option<nat>, fee: Option<nat>, paymasterVerification: Option<nat>, postOp: Option<nat>)
  datatype Data = Data(callData: Option<Bytes>, signature: Option<Bytes>, paymasterData: Option<Bytes>,
                       factoryData: Option<Bytes>)

  function ReadAddresses(body: Body): Addresses {
    Addresses(
      sender := ReadAddress(Find(body, "sender")),
      paymaster := ReadAddress(Find(body, "paymaster")),
      factory := ReadAddress(Find(body, "factory")))
  }

  function ReadGas(body: Body): Gas {
    Gas(
      nonce := ReadUint256(Find(body, "nonce")),
      preVerification := ReadUint256(Find(body, "preVerificationGas")),
      verification := ReadUint128(Find(body, "verificationGasLimit")),
      call := ReadUint128(Find(body, "callGasLimit")),
      priority := ReadUint128(Find(body, "maxPriorityFeePerGas")),
      fee := ReadUint128(Find(body, "maxFeePerGas")),
      paymasterVerification := ReadUint128(Find(body, "paymasterVerificationGasLimit")),
      postOp := ReadUint128(Find(body, "paymasterPostOpGasLimit")))
  }

  function ReadAllData(body: Body): Data {
    Data(
      callData := ReadData(Find(body, "callData")),
      signature := ReadData(Find(body, "signature")),
      paymasterData := ReadData(Find(body, "paymasterData")),
      factoryData := ReadData(Find(body, "factoryData")))
  }

  /** initCode is the factory followed by its data, or empty without a factory. */
  function AssembleInitCode(hasFactory: bool, factory: Option<Address>, data: Option<Bytes>): Option<Bytes> {
    if !hasFactory then Some([]) else
      var f :- factory;
      var d :- data;
      Some(f + d)
  }

  /** paymasterAndData is the paymaster, its two limits and its data, or empty without a paymaster. */
  function AssemblePaymaster(hasPaymaster: bool, paymaster: Option<Address>, gas: Gas, data: Option<Bytes>)
    : Option<Bytes>
  {
    if !hasPaymaster then Some([]) else
      var p :- paymaster;
      var v :- gas.paymasterVerification;
      var o :- gas.postOp;
      var d :- data;
      Some(p + TwoSlots(v, o) + d)
  }

  function Assemble(hasFactory: bool, hasPaymaster: bool, addresses: Addresses, gas: Gas, data: Data)
    : Option<PackedUserOp>
  {
    var sender :- addresses.sender;
    var nonce :- gas.nonce;
    var initCode :- AssembleInitCode(hasFactory, addresses.factory, data.factoryData);
    var callData :- data.callData;
    var verification :- gas.verification;
    var call :- gas.call;
    var preVerification :- gas.preVerification;
    var priority :- gas.priority;
    var fee :- gas.fee;
    var paymasterAndData :- AssemblePaymaster(hasPaymaster, addresses.paymaster, gas, data.paymasterData);
    var signature :- data.signature;
    Some(PackedUserOp(sender, nonce, initCode, callData, TwoSlots(verification, call), preVerification,
                      TwoSlots(priority, fee), paymasterAndData, signature))
  }

  /** Fields that ERC-4337 allows only along with a factory or a paymaster, without it. */
  predicate HasStrayFields(body: Body) {
    || ("factory" !in body && "factoryData" in body)
    || ("paymaster" !in body && (
          || "paymasterData" in body
          || "paymasterVerificationGasLimit" in body
          || "paymasterPostOpGasLimit" in body))
  }

  /** The packed operation a bundler gets out of a body; None when a field is missing, malformed or stray. */
  function Rebuild(body: Body): Option<PackedUserOp> {
    if HasStrayFields(body) then None else
      Assemble("factory" in body, "paymaster" in body, ReadAddresses(body), ReadGas(body), ReadAllData(body))
  }

  lemma DataReadsBack(bs: Bytes)
    ensures ReadData(DataText(bs)) == Some(bs)
  {
    HexRoundTrip(bs);
    assert ("0x" + HexEncode(bs))[2..] == HexEncode(bs);
  }

  lemma AddressReadsBack(K: Crypto, a: Address)
    ensures ReadAddress(AddressText(K, a)) == if a == ZERO_ADDRESS then None else Some(a)
  {
    AddressHexReadsBack(K, a);
  }

  /** A printed number is a well-formed quantity exactly when it is not negative. */
  lemma NumberReadsBack(x: int)
    ensures ReadUint(NumberText(Some(x))) == if x < 0 then None else Some(x)
  {
    var s := "0x" + IntText(x, 16);
    assert s[2..] == IntText(x, 16);
    if x < 0 {
      assert !IsHex(s[2..][0]);
    } else {
      NatTextReadsBack(x, 16);
      assert s[2] == NatText(x, 16)[0];
    }
  }

  lemma TwoSlotsIsPackedInts(a: int, b: int)
    requires FitsIn128(a) && FitsIn128(b)
    ensures TwoSlots(a, b) == PackedInts(a, b)
  {
    PackedIntsMeaning(a, b);
    WordOfItsNumber(a * TWO_128 + b, PackedInts(a, b));
  }

  lemma SlotsInPaymasterAndData(p: Address, v: int, o: int, data: Bytes)
    requires FitsIn128(v) && FitsIn128(o)
    ensures p + TwoSlots(v, o) + data == PaymasterAndData(p, v, o, data)
  {
    TwoSlotsIsPackedInts(v, o);
    PackedIntsMeaning(v, o);
    assert p + (Padded(v, 16) + Padded(o, 16)) + data == PaymasterAndData(p, v, o, data);
  }

  // What must be read back from the body of an operation.

  function NonZero(a: Address): Option<Address> {
    if a == ZERO_ADDRESS then None else Some(a)
  }

  function Uint256(x: int): Option<nat> {
    if IsUint256(x) then Some(x) else None
  }

  function InRange(x: int): Option<nat> {
    if FitsIn128(x) then Some(x) else None
  }

  function GasOf(u: UserOp): Gas
    requires u.NumbersSet()
  {
    Gas(
      nonce := Uint256(u.nonce.value),
      preVerification := Uint256(u.preVerificationGas.value),
      verification := InRange(u.verificationGasLimit.value),
      call := InRange(u.callGasLimit.value),
      priority := InRange(u.maxPriorityFeePerGas.value),
      fee := InRange(u.maxFeePerGas.value),
      paymasterVerification := InRange(u.paymasterVerificationGasLimit.value),
      postOp := InRange(u.paymasterPostOpGasLimit.value))
  }

  function AddressesOf(u: UserOp): Addresses {
    Addresses(NonZero(u.sender), NonZero(u.paymaster), NonZero(u.factory))
  }

  function DataOf(u: UserOp): Data {
    Data(Some(u.callData), Some(u.signature), Some(u.paymasterData), Some(u.factoryData))
  }

  lemma AddressesReadBack(K: Crypto, u: UserOp, body: Body)
    requires AccountEntries(K, u, body) && FeeEntries(K, u, body) && PaymasterEntries(K, u, body)
    ensures ReadAddresses(body) == AddressesOf(u)
    ensures "paymaster" in body <==> u.paymaster != ZERO_ADDRESS
    ensures "factory" in body <==> u.factory != ZERO_ADDRESS
  {
    AddressReadsBack(K, u.sender);
    AddressReadsBack(K, u.paymaster);
    AddressReadsBack(K, u.factory);
  }

  lemma AccountGasReadsBack(K: Crypto, u: UserOp, body: Body)
    requires AccountEntries(K, u, body) && u.NumbersSet()
    ensures
      var gas := ReadGas(body);
      && gas.nonce == GasOf(u).nonce && gas.preVerification == GasOf(u).preVerification
      && gas.verification == GasOf(u).verification && gas.call == GasOf(u).call
  {
    NumberReadsBack(u.nonce.value);
    NumberReadsBack(u.preVerificationGas.value);
    NumberReadsBack(u.verificationGasLimit.value);
    NumberReadsBack(u.callGasLimit.value);
  }

  lemma FeesReadBack(K: Crypto, u: UserOp, body: Body)
    requires FeeEntries(K, u, body) && PaymasterEntries(K, u, body) && u.NumbersSet()
    ensures
      var gas := ReadGas(body);
      && gas.priority == GasOf(u).priority && gas.fee == GasOf(u).fee
      && gas.paymasterVerification == GasOf(u).paymasterVerification && gas.postOp == GasOf(u).postOp
  {
    NumberReadsBack(u.maxPriorityFeePerGas.value);
    NumberReadsBack(u.maxFeePerGas.value);
    NumberReadsBack(u.paymasterVerificationGasLimit.value);
    NumberReadsBack(u.paymasterPostOpGasLimit.value);
  }

  lemma AllDataReadsBack(K: Crypto, u: UserOp, body: Body)
    requires AccountEntries(K, u, body) && FeeEntries(K, u, body) && PaymasterEntries(K, u, body)
    ensures ReadAllData(body) == DataOf(u)
  {
    DataReadsBack(u.callData);
    DataReadsBack(u.signature);
    DataReadsBack(u.paymasterData);
    DataReadsBack(u.factoryData);
  }

  /** Factory data without a factory is printed, and so are the limits of a paymaster that is not set. */
  predicate PrintsStrayFields(u: UserOp) {
    (u.factory == ZERO_ADDRESS && u.factoryData != []) || u.paymaster == ZERO_ADDRESS
  }

  lemma StrayFieldsIn(K: Crypto, u: UserOp, body: Body)
    requires FeeEntries(K, u, body) && PaymasterEntries(K, u, body) && u.NumbersSet()
    ensures HasStrayFields(body) <==> PrintsStrayFields(u)
  {
  }

  lemma StrayFieldsPrinted(K: Crypto, u: UserOp)
    requires u.NumbersSet()
    ensures HasStrayFields(BodyOf(K, u)) <==> PrintsStrayFields(u)
  {
    BodyEntries(K, u);
    StrayFieldsIn(K, u, BodyOf(K, u));
  }

  lemma RebuiltFrom(K: Crypto, u: UserOp, body: Body)
    requires u.NumbersSet()
    requires AccountEntries(K, u, body) && FeeEntries(K, u, body) && PaymasterEntries(K, u, body)
    ensures Rebuild(body) ==
            if PrintsStrayFields(u) then None else
            Assemble(u.factory != ZERO_ADDRESS, u.paymaster != ZERO_ADDRESS, AddressesOf(u), GasOf(u), DataOf(u))
  {
    StrayFieldsIn(K, u, body);
    AddressesReadBack(K, u, body);
    AccountGasReadsBack(K, u, body);
    FeesReadBack(K, u, body);
    AllDataReadsBack(K, u, body);
  }

  /** What a bundler makes of the body of an operation. */
  lemma RebuiltIsAssembled(K: Crypto, u: UserOp)
    requires u.NumbersSet()
    ensures Rebuild(BodyOf(K, u)) ==
            if PrintsStrayFields(u) then None else
            Assemble(u.factory != ZERO_ADDRESS, u.paymaster != ZERO_ADDRESS, AddressesOf(u), GasOf(u), DataOf(u))
  {
    BodyEntries(K, u);
    RebuiltFrom(K, u, BodyOf(K, u));
  }

  /** The initCode a reader of the body arrives at. */
  function InitCodeOfFactory(u: UserOp): Bytes {
    if u.factory == ZERO_ADDRESS then [] else u.factory + u.factoryData
  }

  /** What a reader insists on: addresses set, numbers in range, no factory data without a factory. */
  predicate Printable(u: UserOp)
    requires u.NumbersSet()
  {
    && u.sender != ZERO_ADDRESS && u.paymaster != ZERO_ADDRESS
    && u.Uint256Numbers() && u.LimitsInRange()
    && (u.factory == ZERO_ADDRESS ==> u.factoryData == [])
  }

  lemma AssembledIff(u: UserOp)
    requires u.NumbersSet()
    ensures
      var rebuilt := Assemble(
        u.factory != ZERO_ADDRESS, u.paymaster != ZERO_ADDRESS, AddressesOf(u), GasOf(u), DataOf(u));
      !PrintsStrayFields(u) ==>
        (rebuilt == Some(PackUserOperation(u)) <==> Printable(u) && u.initCode == InitCodeOfFactory(u))
  {
    var v, o := u.paymasterVerificationGasLimit.value, u.paymasterPostOpGasLimit.value;
    DataOffset(u.paymaster, v, o, u.paymasterData);
    if Printable(u) {
      TwoSlotsIsPackedInts(u.verificationGasLimit.value, u.callGasLimit.value);
      TwoSlotsIsPackedInts(u.maxPriorityFeePerGas.value, u.maxFeePerGas.value);
      SlotsInPaymasterAndData(u.paymaster, v, o, u.paymasterData);
    }
  }

  /**
   The body and the packed form agree on exactly the operations whose sender and paymaster are
   set, whose numbers are in range, and whose initCode is the one the factory fields spell out,
   factory data without a factory being refused.
   */
  lemma BodyAgreesWithPackedIff(K: Crypto, u: UserOp)
    requires u.NumbersSet()
    ensures Rebuild(BodyOf(K, u)) == Some(PackUserOperation(u)) <==>
            Printable(u) && u.initCode == InitCodeOfFactory(u)
  {
    RebuiltIsAssembled(K, u);
    AssembledIff(u);
  }
}
