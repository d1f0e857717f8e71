/**
 sign.go, over uninterpreted cryptography. Keccak-256 and ECDSA are arbitrary functions of
 the right shape; in particular Keccak-256 is not assumed to be injective.
 */
module Signing {
  import opened Wrappers
  import opened Positional
  import opened ByteStrings
  import opened Text

  datatype PrivateKey = PrivateKey(d: nat)

  /** `crypto.Sign` answers 65 bytes whose last one, the recovery id, is 0 or 1. */
  type RawSignature = s: Bytes | |s| == 65 && s[64] <= 1 witness Zeros(65)

  datatype Crypto = Crypto(
    keccak: Bytes -> Hash,
    sign: (PrivateKey, Hash) -> Option<RawSignature>,
    addressOf: PrivateKey -> Address)

  /** Two different byte strings with one Keccak-256 value. */
  ghost predicate Collides(K: Crypto, x: Bytes, y: Bytes) {
    x != y && K.keccak(x) == K.keccak(y)
  }

  const MESSAGE_PREFIX := "\U{19}Ethereum Signed Message:\n"
  const RECOVERY_ID_OFFSET := 64

  /** What is hashed for a message: prefix, decimal length, message, with no delimiter in between. */
  function Frame(message: Bytes): Bytes {
    Ascii(MESSAGE_PREFIX + IntText(|message|, 10)) + message
  }

  /** The bytes are the key's signature of a digest, in the form contracts recover addresses from. */
  ghost predicate IsSignature(K: Crypto, key: PrivateKey, digest: Hash, sig: Bytes) {
    && K.sign(key, digest).Some?
    && |sig| == 65
    && sig[..64] == K.sign(key, digest).value[..64]
    && sig[64] == K.sign(key, digest).value[64] + 27
  }

  lemma SignatureUnique(K: Crypto, key: PrivateKey, digest: Hash, sig: Bytes, sig': Bytes)
    requires IsSignature(K, key, digest, sig) && IsSignature(K, key, digest, sig')
    ensures sig == sig'
  {
    assert sig == sig[..64] + [sig[64]] && sig' == sig'[..64] + [sig'[64]];
  }

  function SignedMessage(K: Crypto, key: PrivateKey, message: Bytes): (r: Option<Bytes>)
    ensures r.Some? ==> |r.value| == 65 && r.value[64] in {27, 28}
    ensures r.Some? ==> IsSignature(K, key, K.keccak(Frame(message)), r.value)
    ensures r.None? ==> K.sign(key, K.keccak(Frame(message))).None?
  {
    var raw :- K.sign(key, K.keccak(Frame(message)));
    Some(raw[..64] + [raw[64] + 27])
  }

  lemma SignedMessageIff(K: Crypto, key: PrivateKey, message: Bytes, sig: Bytes)
    ensures SignedMessage(K, key, message) == Some(sig) <==> IsSignature(K, key, K.keccak(Frame(message)), sig)
  {
    var r := SignedMessage(K, key, message);
    if r.Some? && IsSignature(K, key, K.keccak(Frame(message)), sig) {
      SignatureUnique(K, key, K.keccak(Frame(message)), sig, r.value);
    }
  }

  /** `SignMessage`: the recovery id is shifted in place. */
  method SignMessage(K: Crypto, key: PrivateKey, message: Bytes) returns (r: Option<Bytes>)
    ensures r == SignedMessage(K, key, message)
    ensures r.Some? <==> K.sign(key, K.keccak(Frame(message))).Some?
    ensures r.Some? ==> IsSignature(K, key, K.keccak(Frame(message)), r.value)
  {
    var prefixed := MESSAGE_PREFIX + IntText(|message|, 10);
    var bytes := Ascii(prefixed);
    bytes := bytes + message;
    var hash := K.keccak(bytes);
    var raw := K.sign(key, hash);
    if raw.None? {
      return None;
    }
    var sig: Bytes := raw.value;
    var signature := new byte[65](i requires 0 <= i < 65 => sig[i]);
    signature[RECOVERY_ID_OFFSET] := (signature[RECOVERY_ID_OFFSET] + 27) % 256;
    r := Some(signature[..]);
    assert signature[..] == sig[..64] + [sig[64] + 27];
  }

  /** Every framed message: the prefix byte by byte, the length in decimal digits, the message. */
  lemma FrameLayout(message: Bytes)
    ensures
      Frame(message) ==
      [0x19, 0x45, 0x74, 0x68, 0x65, 0x72, 0x65, 0x75, 0x6d, 0x20, 0x53, 0x69, 0x67,
       0x6e, 0x65, 0x64, 0x20, 0x4d, 0x65, 0x73, 0x73, 0x61, 0x67, 0x65, 0x3a, 0x0a]
      + Ascii(IntText(|message|, 10)) + message
  {
    AsciiOfConcat(MESSAGE_PREFIX, IntText(|message|, 10));
    PrefixBytes();
  }

  lemma PrefixBytes()
    ensures
      Ascii(MESSAGE_PREFIX) ==
      [0x19, 0x45, 0x74, 0x68, 0x65, 0x72, 0x65, 0x75, 0x6d, 0x20, 0x53, 0x69, 0x67,
       0x6e, 0x65, 0x64, 0x20, 0x4d, 0x65, 0x73, 0x73, 0x61, 0x67, 0x65, 0x3a, 0x0a]
  {
  }

  lemma ThirtyTwo()
    ensures IntText(32, 10) == "32"
  {
    var ds: seq<nat> := [3, 2];
    assert ds[..1] == [3] && ds[..1][..0] == [];
    assert Value(ds[..1], 10) == 3;
    assert Value(ds, 10) == Value(ds[..1], 10) * 10 + ds[1] == 32;
    DigitsOfValue(ds, 10);
    var s := NatText(32, 10);
    assert s[0] == DigitChar(3) && s[1] == DigitChar(2);
    assert s == "32";
  }

  /** The framing of a 32-byte hash, the only thing the SDK signs: version 0x45 of ERC-191. */
  lemma FrameOfHash(h: Hash)
    ensures Frame(h) ==
            [0x19, 0x45, 0x74, 0x68, 0x65, 0x72, 0x65, 0x75, 0x6d, 0x20, 0x53, 0x69, 0x67, 0x6e,
             0x65, 0x64, 0x20, 0x4d, 0x65, 0x73, 0x73, 0x61, 0x67, 0x65, 0x3a, 0x0a, 0x33, 0x32] + h
  {
    FrameLayout(h);
    ThirtyTwo();
    assert Ascii("32") == [0x33, 0x32];
  }

  lemma DecimalLengthMonotone(m: nat, n: nat)
    requires m <= n
    ensures |IntText(m, 10)| <= |IntText(n, 10)|
  {
    NatTextReadsBack(m, 10);
    NatTextReadsBack(n, 10);
    DigitCountMonotone(m, n, 10);
  }

  /** The framing is unambiguous although nothing separates the length from the message. */
  lemma FrameInjective(m: Bytes, n: Bytes)
    requires Frame(m) == Frame(n)
    ensures m == n
  {
    assert |Frame(m)| == |MESSAGE_PREFIX| + |IntText(|m|, 10)| + |m|;
    assert |Frame(n)| == |MESSAGE_PREFIX| + |IntText(|n|, 10)| + |n|;
    if |m| <= |n| {
      DecimalLengthMonotone(|m|, |n|);
    } else {
      DecimalLengthMonotone(|n|, |m|);
    }
    ConcatInjective(Ascii(MESSAGE_PREFIX + IntText(|m|, 10)), m, Ascii(MESSAGE_PREFIX + IntText(|n|, 10)), n);
  }

  /** The EIP-55 casing of one digit: a letter goes up when its nibble of the hash is above 7. */
  function Checksummed(s: string, hash: Hash): (t: string)
    requires |s| <= 64
    ensures |t| == |s|
  {
    seq(|s|, i requires 0 <= i < |s| =>
      var nibble := if i % 2 == 0 then hash[i / 2] / 16 else hash[i / 2] % 16;
      if 'a' <= s[i] <= 'f' && 7 < nibble then (s[i] as int - 32) as char else s[i])
  }

  /** `Address.Hex`. */
  function AddressHex(K: Crypto, a: Address): string {
    var lower := HexEncode(a);
    "0x" + Checksummed(lower, K.keccak(Ascii(lower)))
  }

  /** The i-th digit of an address is upper case exactly when the i-th nibble of the hash is 8 or more. */
  lemma AddressHexIsChecksummed(K: Crypto, a: Address, i: nat)
    requires i < 40
    ensures
      var lower := seq(40, j requires 0 <= j < 40 => "0123456789abcdef"[Nibble(a, j)] as int);
      && AddressHex(K, a)[..2] == "0x"
      && AddressHex(K, a)[2 + i] ==
         if 8 <= Nibble(K.keccak(lower), i) then "0123456789ABCDEF"[Nibble(a, i)] else "0123456789abcdef"[Nibble(a, i)]
  {
    var lower := seq(40, j requires 0 <= j < 40 => "0123456789abcdef"[Nibble(a, j)] as int);
    var text := HexEncode(a);
    forall j | 0 <= j < 40
      ensures text[j] == "0123456789abcdef"[Nibble(a, j)]
    {
      HexEncodeAt(a, j);
    }
    assert Ascii(text) == lower;
  }

  /** Reading an address whatever the casing of its digits. */
  function ParseAddress(s: string): Option<Address> {
    if |s| == 42 && "0x" <= s && AllHex(s[2..]) then
      PairsReadTheSameNumber(s[2..]);
      Some(Hex2Bytes(s[2..]))
    else None
  }

  lemma {:induction false} CasingIsNotRead(s: string, t: string)
    requires |s| == |t| && AllHex(s) && AllHex(t)
    requires forall i :: 0 <= i < |s| ==> HexValue(s[i]) == HexValue(t[i])
    ensures Hex2Bytes(s) == Hex2Bytes(t)
  {
    if 2 <= |s| {
      CasingIsNotRead(s[2..], t[2..]);
    }
  }

  lemma AddressHexReadsBack(K: Crypto, a: Address)
    ensures |AddressHex(K, a)| == 42
    ensures ParseAddress(AddressHex(K, a)) == Some(a)
  {
    var lower := HexEncode(a);
    var cased := Checksummed(lower, K.keccak(Ascii(lower)));
    assert AddressHex(K, a)[2..] == cased;
    forall i | 0 <= i < 40
      ensures IsHex(cased[i]) && HexValue(cased[i]) == HexValue(lower[i])
    {
      assert IsHex(lower[i]);
    }
    CasingIsNotRead(cased, lower);
    HexRoundTrip(a);
  }
}
