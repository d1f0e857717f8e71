/**
 Printing and reading numbers and byte strings: `big.Int.Text`, `big.Int.String`,
 `hex.EncodeToString`, `common.Hex2Bytes`, and the SDK's own `HexToBigInt`.
 */
module Text {
  import opened Wrappers
  import opened Positional
  import opened ByteStrings

  function DigitChar(d: nat): char
    requires d < 16
  {
    if d < 10 then ('0' as int + d) as char else ('a' as int + d - 10) as char
  }

  predicate IsHex(c: char) {
    '0' <= c <= '9' || 'a' <= c <= 'f' || 'A' <= c <= 'F'
  }

  function HexValue(c: char): (d: nat)
    requires IsHex(c)
    ensures d < 16
  {
    if c <= '9' then c as int - '0' as int
    else if c <= 'F' then c as int - 'A' as int + 10
    else c as int - 'a' as int + 10
  }

  predicate AllHex(s: string) {
    forall i :: 0 <= i < |s| ==> IsHex(s[i])
  }

  function HexValues(s: string): (ds: seq<nat>)
    requires AllHex(s)
    ensures |ds| == |s| && AllBelow(ds, 16)
  {
    seq(|s|, i requires 0 <= i < |s| => HexValue(s[i]))
  }

  lemma DigitCharIs(d: nat)
    requires d < 16
    ensures DigitChar(d) == "0123456789abcdef"[d]
  {
  }

  lemma DigitCharReadsBack(d: nat)
    requires d < 16
    ensures IsHex(DigitChar(d)) && HexValue(DigitChar(d)) == d
    ensures DigitChar(d) == '0' <==> d == 0
  {
  }

  /** `big.Int.Text` on a non-negative number: lower case, no leading zero, "0" for zero. */
  function NatText(n: nat, base: nat): (s: string)
    requires 2 <= base <= 16
    ensures 0 < |s| && AllHex(s)
  {
    var ds := if n == 0 then [0] else Digits(n, base);
    seq(|ds|, i requires 0 <= i < |ds| && ds[i] < 16 => DigitChar(ds[i]))
  }

  /** `big.Int.Text`; `big.Int.String` is base 10. */
  function IntText(x: int, base: nat): string
    requires 2 <= base <= 16
  {
    if x < 0 then "-" + NatText(-x, base) else NatText(x, base)
  }

  lemma NatTextReadsBack(n: nat, base: nat)
    requires 2 <= base <= 16
    ensures Value(HexValues(NatText(n, base)), base) == n
    ensures n != 0 ==> NatText(n, base)[0] != '0'
    ensures n != 0 ==> |NatText(n, base)| == |Digits(n, base)|
    ensures n == 0 ==> NatText(n, base) == "0"
  {
    ValueOfDigits(n, base);
    var ds := if n == 0 then [0] else Digits(n, base);
    var s := NatText(n, base);
    forall i | 0 <= i < |ds|
      ensures HexValue(s[i]) == ds[i]
    {
      DigitCharReadsBack(ds[i]);
    }
    assert HexValues(s) == ds;
    assert n == 0 ==> ds[..0] == [];
  }

  /** Numbers print in lower case. */
  lemma NatTextAt(n: nat, base: nat, i: nat)
    requires 2 <= base <= 16 && i < |NatText(n, base)|
    ensures NatText(n, base)[i] == "0123456789abcdef"[HexValue(NatText(n, base)[i])]
  {
    var ds := if n == 0 then [0] else Digits(n, base);
    assert NatText(n, base)[i] == DigitChar(ds[i]);
    DigitCharReadsBack(ds[i]);
    DigitCharIs(ds[i]);
  }

  predicate IsDecimal(c: char) {
    '0' <= c <= '9'
  }

  predicate AllDecimal(s: string) {
    forall i :: 0 <= i < |s| ==> IsDecimal(s[i])
  }

  /** The number that decimal digits stand for. */
  function DecimalValue(s: string): nat
    requires AllDecimal(s)
  {
    if s == "" then 0 else DecimalValue(s[..|s| - 1]) * 10 + (s[|s| - 1] as int - '0' as int)
  }

  lemma {:induction false} DecimalValueOfDigits(s: string, ds: seq<nat>)
    requires |s| == |ds| && AllBelow(ds, 10) && forall i :: 0 <= i < |s| ==> s[i] == DigitChar(ds[i])
    ensures AllDecimal(s) && DecimalValue(s) == Value(ds, 10)
  {
    if s != "" {
      DecimalValueOfDigits(s[..|s| - 1], ds[..|s| - 1]);
    }
  }

  lemma DecimalOfNat(n: nat)
    ensures
      var s := NatText(n, 10);
      AllDecimal(s) && DecimalValue(s) == n && (s[0] == '0' ==> |s| == 1)
  {
    var ds := if n == 0 then [0] else Digits(n, 10);
    ValueOfDigits(n, 10);
    NatTextReadsBack(n, 10);
    DecimalValueOfDigits(NatText(n, 10), ds);
    assert n == 0 ==> ds[..0] == [];
  }

  /** What decimal printing gives: a minus sign if it is due, and digits without a leading zero. */
  lemma DecimalText(x: int)
    ensures
      var s := IntText(x, 10);
      var digits := if x < 0 then s[1..] else s;
      && (x < 0 ==> s[0] == '-')
      && 0 < |digits| && AllDecimal(digits)
      && DecimalValue(digits) == (if x < 0 then -x else x)
      && (digits[0] == '0' ==> |digits| == 1)
  {
    DecimalOfNat(if x < 0 then -x else x);
    assert x < 0 ==> IntText(x, 10)[1..] == NatText(-x, 10);
  }

  /** Printing integers of any size and sign loses nothing. */
  lemma IntTextInjective(x: int, y: int, base: nat)
    requires 2 <= base <= 16
    requires IntText(x, base) == IntText(y, base)
    ensures x == y
  {
    NatTextReadsBack(Abs(x), base);
    NatTextReadsBack(Abs(y), base);
    assert x < 0 <==> IntText(x, base)[0] == '-';
    assert y < 0 <==> IntText(y, base)[0] == '-';
    if x < 0 {
      assert NatText(-x, base) == IntText(x, base)[1..] == IntText(y, base)[1..] == NatText(-y, base);
    }
  }

  /** `hex.EncodeToString`. */
  function HexEncode(bs: Bytes): (s: string)
    ensures |s| == 2 * |bs| && AllHex(s)
  {
    if bs == [] then "" else [DigitChar(bs[0] / 16), DigitChar(bs[0] % 16)] + HexEncode(bs[1..])
  }

  /**
   `common.Hex2Bytes`: decodes digit pairs from the left and drops the decoder's error,
   so it keeps what came before a bad character or an unpaired last digit.
   */
  function Hex2Bytes(s: string): Bytes {
    if |s| < 2 || !IsHex(s[0]) || !IsHex(s[1]) then []
    else [16 * HexValue(s[0]) + HexValue(s[1])] + Hex2Bytes(s[2..])
  }

  /** The text of bytes, digit by digit: lower case. */
  lemma {:induction false} HexEncodeAt(bs: Bytes, i: nat)
    requires i < 2 * |bs|
    ensures HexEncode(bs)[i] == "0123456789abcdef"[Nibble(bs, i)]
  {
    if 2 <= i {
      HexEncodeAt(bs[1..], i - 2);
    } else {
      DigitCharIs(Nibble(bs, i));
    }
  }

  /** `HexToBigInt`. */
  function HexToBigInt(hex: string): nat {
    if "0x" <= hex then Number(Hex2Bytes(hex[2..])) else Number(Hex2Bytes(hex))
  }

  lemma {:induction false} HexRoundTrip(bs: Bytes)
    ensures Hex2Bytes(HexEncode(bs)) == bs
  {
    if bs != [] {
      HexRoundTrip(bs[1..]);
      assert HexEncode(bs)[2..] == HexEncode(bs[1..]);
    }
  }

  lemma {:induction false} SquaredBase(k: nat)
    ensures Pow(256, k) == Pow(16, 2 * k)
  {
    if k != 0 {
      SquaredBase(k - 1);
      assert Pow(16, 2 * k) == Pow(16, 2 * k - 1) * 16 == Pow(16, 2 * k - 2) * 16 * 16;
    }
  }

  /** Two digits in front of an even number of digits count as one byte in front of their bytes. */
  lemma PairInFront(hi: nat, lo: nat, digits: seq<nat>, rest: Bytes)
    requires hi < 16 && lo < 16 && |digits| == 2 * |rest|
    requires Number(rest) == Value(digits, 16)
    ensures Number([16 * hi + lo] + rest) == Value([hi, lo] + digits, 16)
  {
    var pair: byte := 16 * hi + lo;
    ValueOfConcat([hi, lo], digits, 16);
    NumberOfConcat([pair], rest);
    SquaredBase(|rest|);
    assert Number([pair]) == pair by {
      var one: seq<nat> := [pair];
      assert one[..0] == [];
      assert Value(one, 256) == Value(one[..0], 256) * 256 + pair;
    }
    assert Value([hi, lo], 16) == pair by {
      assert [hi, lo][..1] == [hi] && [hi][..0] == [];
      assert Value([hi], 16) == hi;
    }
  }

  lemma {:induction false} PairsReadTheSameNumber(s: string)
    requires AllHex(s) && |s| % 2 == 0
    ensures |Hex2Bytes(s)| == |s| / 2
    ensures Number(Hex2Bytes(s)) == Value(HexValues(s), 16)
  {
    if s != "" {
      PairsReadTheSameNumber(s[2..]);
      var hi, lo := HexValue(s[0]), HexValue(s[1]);
      assert HexValues(s) == [hi, lo] + HexValues(s[2..]);
      PairInFront(hi, lo, HexValues(s[2..]), Hex2Bytes(s[2..]));
    }
  }

  lemma {:induction false} UnpairedDigitDropped(s: string)
    requires AllHex(s) && |s| % 2 == 1
    ensures Hex2Bytes(s) == Hex2Bytes(s[..|s| - 1])
  {
    if 1 < |s| {
      UnpairedDigitDropped(s[2..]);
      assert s[..|s| - 1][2..] == s[2..][..|s| - 3];
    }
  }

  lemma OddDigitsReadShort(s: string)
    requires AllHex(s) && |s| % 2 == 1
    ensures Number(Hex2Bytes(s)) == Value(HexValues(s), 16) / 16
  {
    var front := s[..|s| - 1];
    UnpairedDigitDropped(s);
    PairsReadTheSameNumber(front);
    assert HexValues(s)[..|s| - 1] == HexValues(front);
    DivModUnique(Value(HexValues(front), 16), HexValue(s[|s| - 1]), 16);
  }

  /** A quantity of the JSON-RPC "Hex value encoding": hex digits without a leading zero. */
  function ParseQuantity(s: string): Option<nat> {
    if "0x" <= s && 2 < |s| && AllHex(s[2..]) && (|s| == 3 || s[2] != '0')
    then Some(Value(HexValues(s[2..]), 16))
    else None
  }

  /** Unformatted data of the JSON-RPC "Hex value encoding": two hex digits a byte. */
  function ParseData(s: string): Option<Bytes> {
    if "0x" <= s && |s| % 2 == 0 && AllHex(s[2..]) then Some(Hex2Bytes(s[2..])) else None
  }

  /**
   What `HexToBigInt` makes of any well-formed quantity, whoever printed it and in either case:
   the number for an even length, the number without its last digit for an odd one.
   */
  lemma HexToBigIntOfQuantity(s: string)
    requires ParseQuantity(s).Some?
    ensures HexToBigInt(s) == if |s| % 2 == 0 then ParseQuantity(s).value else ParseQuantity(s).value / 16
  {
    if |s| % 2 == 0 {
      PairsReadTheSameNumber(s[2..]);
    } else {
      OddDigitsReadShort(s[2..]);
    }
  }

  lemma LeadingDigitCounts(ds: seq<nat>, base: nat)
    requires 2 <= base && AllBelow(ds, base) && 0 < |ds| && ds[0] != 0
    ensures Value(ds, base) != 0
  {
    DigitsOfValue(ds, base);
  }

  /** A well-formed quantity is read as the number it stands for exactly when its length is even or it is "0x0". */
  lemma HexToBigIntIsExactIff(s: string)
    requires ParseQuantity(s).Some?
    ensures HexToBigInt(s) == ParseQuantity(s).value <==> |s| % 2 == 0 || s == "0x0"
  {
    HexToBigIntOfQuantity(s);
    var ds := HexValues(s[2..]);
    if |s| == 3 {
      assert ds[..0] == [];
      assert s == "0x" + [s[2]];
      assert HexValue(s[2]) == 0 <==> s[2] == '0';
    } else {
      assert HexValue(s[2]) != 0;
      LeadingDigitCounts(ds, 16);
    }
  }

  /** What reading a printed quantity gives: the last digit is lost when the digit count is odd. */
  lemma HexToBigIntOfPrinted(n: nat)
    ensures HexToBigInt("0x" + NatText(n, 16)) ==
            if |NatText(n, 16)| % 2 == 0 then n else n / 16
  {
    var s := NatText(n, 16);
    NatTextReadsBack(n, 16);
    assert ("0x" + s)[2..] == s;
    if |s| % 2 == 0 {
      PairsReadTheSameNumber(s);
    } else {
      OddDigitsReadShort(s);
    }
  }

  /** Reading a printed quantity returns it exactly for zero and for the even digit counts. */
  lemma HexToBigIntIsInverseIff(n: nat)
    ensures HexToBigInt("0x" + NatText(n, 16)) == n <==> n == 0 || |NatText(n, 16)| % 2 == 0
  {
    HexToBigIntOfPrinted(n);
  }

  /** The default verification gas limit 200000 prints with five digits and is read back as 12500. */
  lemma HexToBigIntLosesTheDefaultGasLimit()
    ensures HexToBigInt("0x" + NatText(200000, 16)) == 12500
  {
    DigitCount(200000, 16, 5);
    DigitCount(200000, 16, 4);
    assert Pow(16, 4) == 65536 && Pow(16, 5) == 1048576;
    NatTextReadsBack(200000, 16);
    HexToBigIntOfPrinted(200000);
  }

  /** A printed negative number reads as zero: nothing before the minus sign can be decoded. */
  lemma HexToBigIntOfNegative(x: int)
    requires x < 0
    ensures HexToBigInt("0x" + IntText(x, 16)) == 0
  {
    assert ("0x" + IntText(x, 16))[2..] == IntText(x, 16);
    assert IntText(x, 16)[0] == '-';
  }

  /** On hex data, unlike on quantities, `HexToBigInt` is always exact. */
  lemma HexToBigIntOfData(bs: Bytes)
    ensures HexToBigInt("0x" + HexEncode(bs)) == Number(bs)
  {
    assert ("0x" + HexEncode(bs))[2..] == HexEncode(bs);
    HexRoundTrip(bs);
  }

  /** Decoding stops where no further pair of digits begins. */
  ghost predicate NoPair(s: string) {
    |s| < 2 || !IsHex(s[0]) || !IsHex(s[1])
  }

  lemma {:induction false} DecodingStops(good: string, rest: string)
    requires AllHex(good) && |good| % 2 == 0 && NoPair(rest)
    ensures Hex2Bytes(good + rest) == Hex2Bytes(good)
  {
    if good == "" {
      assert good + rest == rest;
    } else {
      assert (good + rest)[2..] == good[2..] + rest;
      DecodingStops(good[2..], rest);
    }
  }

  /**
   What `HexToBigInt` makes of any string: the number of the longest run of digit pairs at its
   start, after "0x" if that is there. So "0X1a" reads as zero.
   */
  lemma HexToBigIntOfAnyString(s: string, good: string, rest: string)
    requires s == "0x" + good + rest || (s == good + rest && !("0x" <= s))
    requires AllHex(good) && |good| % 2 == 0 && NoPair(rest)
    ensures HexToBigInt(s) == Value(HexValues(good), 16)
  {
    assert s == "0x" + good + rest ==> s[2..] == good + rest;
    DecodingStops(good, rest);
    PairsReadTheSameNumber(good);
  }
}
