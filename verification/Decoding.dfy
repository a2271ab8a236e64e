/** Primitive decoders and signal definitions (values.py, signals.py). */
module Decoding {
  import opened Wrappers
  import opened Hex
  import opened Positional

  datatype DecodeError = WrongLength | NotAscii | NotBcd | UnknownDecoder | TooShort | UnverifiedDefinition

  // ------------------------------------------------------------------------- BCD

  predicate IsDecimal(c: char) {
    '0' <= c <= '9'
  }

  /** The number a text of decimal digits spells. */
  function Reading(text: string): Option<nat> {
    if text == "" then Some(0)
    else match Reading(text[..|text| - 1])
      case None => None
      case Some(v) =>
        var c := text[|text| - 1];
        if IsDecimal(c) then Some(v * 10 + (c as int - '0' as int)) else None
  }

  /** What `bcd` must return: the unspaced hex dump of the payload, read as a decimal number. */
  function Bcd(data: Bytes): Option<nat> {
    Reading(FormatHex(data, ""))
  }

  method DecodeBcd(data: Bytes) returns (r: Result<nat, DecodeError>)
    ensures r == match Bcd(data) case Some(v) => Success(v) case None => Failure(NotBcd)
  {
    var value: nat := 0;
    for n := 0 to |data|
      invariant Bcd(data[..n]) == Some(value)
    {
      var high: nat, low: nat := data[n] / 16, data[n] % 16;
      BcdOfOneMore(data[..n], data[n]);
      assert data[..n + 1] == data[..n] + [data[n]];
      if high > 9 || low > 9 {
        BcdFailsForGood(data, n + 1);
        return Failure(NotBcd);
      }
      value := value * 100 + high * 10 + low;
    }
    assert data[..|data|] == data;
    return Success(value);
  }

  lemma {:induction false} FormatSnoc(data: Bytes, b: Byte)
    ensures FormatHex(data + [b], "") == FormatHex(data, "") + Pair(b)
  {
    if data == [] {
      assert data + [b] == [b];
    } else {
      assert data + [b] == [data[0]] + (data[1..] + [b]);
      FormatCons(data[0], data[1..] + [b], "");
      FormatCons(data[0], data[1..], "");
      assert data == [data[0]] + data[1..];
      FormatSnoc(data[1..], b);
    }
  }

  predicate DecimalByte(b: Byte) {
    b / 16 <= 9 && b % 16 <= 9
  }

  lemma ReadingSnoc(text: string, c: char)
    ensures Reading(text + [c])
         == if Reading(text).Some? && IsDecimal(c) then Some(Reading(text).value * 10 + (c as int - '0' as int))
            else None
  {
    assert (text + [c])[..|text|] == text;
  }

  lemma ReadingOfPair(text: string, b: Byte)
    ensures Reading(text + Pair(b))
         == if Reading(text).Some? && DecimalByte(b) then Some(Reading(text).value * 100 + b / 16 * 10 + b % 16)
            else None
  {
    hide Reading, Digit, IsDecimal;
    ReadingSnoc(text, Digit(b / 16));
    ReadingSnoc(text + [Digit(b / 16)], Digit(b % 16));
    assert text + Pair(b) == text + [Digit(b / 16)] + [Digit(b % 16)];
    DecimalDigit(b / 16);
    DecimalDigit(b % 16);
  }

  lemma DecimalDigit(n: nat)
    requires n < 16
    ensures IsDecimal(Digit(n)) <==> n <= 9
    ensures n <= 9 ==> Digit(n) as int - '0' as int == n
  {
  }

  lemma BcdOfOneMore(data: Bytes, b: Byte)
    ensures Bcd(data + [b])
         == if Bcd(data).Some? && DecimalByte(b) then Some(Bcd(data).value * 100 + b / 16 * 10 + b % 16) else None
  {
    FormatSnoc(data, b);
    ReadingOfPair(FormatHex(data, ""), b);
  }

  lemma {:induction false} BcdFailsForGood(data: Bytes, n: nat)
    requires n <= |data| && Bcd(data[..n]) == None
    ensures Bcd(data) == None
  {
    if n == |data| {
      assert data[..n] == data;
    } else {
      var last := |data| - 1;
      assert data[..last][..n] == data[..n];
      BcdFailsForGood(data[..last], n);
      BcdOfOneMore(data[..last], data[last]);
      assert data == data[..last] + [data[last]];
    }
  }

  /** The two decimal digits of each byte as one digit below 100. */
  function Hundreds(data: Bytes): (digits: seq<nat>)
    ensures |digits| == |data|
  {
    seq(|data|, i requires 0 <= i < |data| => data[i] / 16 * 10 + data[i] % 16)
  }

  ghost predicate AllDecimal(data: Bytes) {
    forall i :: 0 <= i < |data| ==> DecimalByte(data[i])
  }

  /** `bcd` succeeds exactly when every nibble is a decimal digit, and is then a number in base 100. */
  lemma {:induction false} BcdIsBaseHundred(data: Bytes)
    ensures Bcd(data) == if AllDecimal(data) then Some(Number(Hundred, Hundreds(data))) else None
  {
    if data == [] {
      assert FormatHex(data, "") == "" && Hundreds(data) == [];
    } else {
      var last := |data| - 1;
      BcdIsBaseHundred(data[..last]);
      BcdOfOneMore(data[..last], data[last]);
      assert data == data[..last] + [data[last]];
      assert Hundreds(data)[..last] == Hundreds(data[..last]);
      assert AllDecimal(data) <==> AllDecimal(data[..last]) && DecimalByte(data[last]);
    }
  }

  /** The byte of two decimal digits. */
  function EncodeByte(digit: nat): Byte {
    digit % 100 / 10 * 16 + digit % 10
  }

  function EncodeBcd(value: nat, n: nat): Bytes {
    var digits := Digits(Hundred, value, n);
    seq(n, i requires 0 <= i < n => EncodeByte(digits[i]))
  }

  lemma HundredsFit(data: Bytes)
    requires AllDecimal(data)
    ensures Fit(Hundred, Hundreds(data))
  {
    forall i | 0 <= i < |data| ensures Hundreds(data)[i] < 100 {
      assert DecimalByte(data[i]);
    }
  }

  lemma HundredsConcat(a: Bytes, b: Bytes)
    ensures Hundreds(a + b) == Hundreds(a) + Hundreds(b)
    ensures AllDecimal(a) && AllDecimal(b) ==> AllDecimal(a + b)
  {
  }

  /** The value lies below 100 to the number of bytes, and concatenation shifts it by two digits a byte. */
  lemma {:induction false} BcdOfConcat(a: Bytes, b: Bytes)
    requires Bcd(a).Some? && Bcd(b).Some?
    ensures Bcd(a).value < Pow(Hundred, |a|)
    ensures Bcd(a + b).Some? && Bcd(a + b).value == Bcd(a).value * Pow(Hundred, |b|) + Bcd(b).value
  {
    hide Bcd, Number, Pow, Hundreds, AllDecimal;
    BcdIsBaseHundred(a);
    BcdIsBaseHundred(b);
    BcdIsBaseHundred(a + b);
    HundredsFit(a);
    HundredsConcat(a, b);
    NumberIsBounded(Hundred, Hundreds(a));
    NumberOfConcat(Hundred, Hundreds(a), Hundreds(b));
  }

  lemma HundredsDecide(a: Bytes, digits: seq<nat>)
    requires AllDecimal(a) && Hundreds(a) == digits
    ensures a == seq(|digits|, i requires 0 <= i < |digits| => EncodeByte(digits[i]))
  {
    forall i | 0 <= i < |a| ensures a[i] == EncodeByte(digits[i]) {
      assert DecimalByte(a[i]) && digits[i] == a[i] / 16 * 10 + a[i] % 16;
    }
  }

  /** Decoding the encoder's payload gives the value back. */
  lemma BcdInvertsEncode(value: nat, n: nat)
    requires value < Pow(Hundred, n)
    ensures Bcd(EncodeBcd(value, n)) == Some(value)
  {
    hide Bcd;
    NumberOfDigits(Hundred, value, n);
    var data, digits := EncodeBcd(value, n), Digits(Hundred, value, n);
    BcdIsBaseHundred(data);
    forall i | 0 <= i < n ensures DecimalByte(data[i]) && Hundreds(data)[i] == digits[i] {
      EncodedByte(digits[i]);
    }
    assert Hundreds(data) == digits;
  }

  lemma EncodedByte(digit: nat)
    requires digit < 100
    ensures DecimalByte(EncodeByte(digit)) && EncodeByte(digit) / 16 * 10 + EncodeByte(digit) % 16 == digit
  {
  }

  /** Payloads of one length that decode to the same number are the same. */
  lemma BcdIsInjective(a: Bytes, b: Bytes)
    requires Bcd(a).Some? && Bcd(a) == Bcd(b) && |a| == |b|
    ensures a == b
  {
    hide Bcd;
    BcdIsBaseHundred(a);
    BcdIsBaseHundred(b);
    HundredsFit(a);
    HundredsFit(b);
    NumberIsInjective(Hundred, Hundreds(a), Hundreds(b));
    HundredsDecide(a, Hundreds(a));
    HundredsDecide(b, Hundreds(b));
  }

  /** Encoding the value of a payload gives the payload back. */
  lemma EncodeInvertsBcd(data: Bytes)
    requires Bcd(data).Some?
    ensures EncodeBcd(Bcd(data).value, |data|) == data
  {
    hide Bcd;
    BcdIsBaseHundred(data);
    HundredsFit(data);
    DigitsOfNumber(Hundred, Hundreds(data));
    HundredsDecide(data, Hundreds(data));
  }

  // -------------------------------------------------------------- fixed-width integers

  datatype Endian = Big | Little

  function Reverse(data: Bytes): Bytes {
    seq(|data|, i requires 0 <= i < |data| => data[|data| - 1 - i])
  }

  /** `int.from_bytes`. */
  function FromBytes(data: Bytes, endian: Endian, signed: bool): int {
    var u := Number(TwoFiftySix, if endian == Big then data else Reverse(data));
    if signed && 2 * u >= Pow(TwoFiftySix, |data|) then u - Pow(TwoFiftySix, |data|) else u
  }

  predicate InRange(v: int, n: nat, signed: bool) {
    if signed then -Pow(TwoFiftySix, n) <= 2 * v < Pow(TwoFiftySix, n) else 0 <= v < Pow(TwoFiftySix, n)
  }

  function ToBytes(v: int, n: nat, endian: Endian): Bytes
    requires -Pow(TwoFiftySix, n) <= v < Pow(TwoFiftySix, n)
  {
    var digits := Digits(TwoFiftySix, if v < 0 then v + Pow(TwoFiftySix, n) else v, n);
    var big: Bytes := seq(n, i requires 0 <= i < n => digits[i] % 256);
    if endian == Big then big else Reverse(big)
  }

  lemma UnsignedBytes(v: nat, n: nat)
    requires v < Pow(TwoFiftySix, n)
    ensures Number(TwoFiftySix, ToBytes(v, n, Big)) == v
    ensures Number(TwoFiftySix, Reverse(ToBytes(v, n, Little))) == v
  {
    hide Number, Pow, Digits;
    NumberOfDigits(TwoFiftySix, v, n);
    assert ToBytes(v, n, Big) == Digits(TwoFiftySix, v, n);
    assert Reverse(Reverse(ToBytes(v, n, Big))) == ToBytes(v, n, Big);
  }

  /** Decoding an encoded value of the type's range gives the value back. */
  lemma FromBytesInvertsToBytes(v: int, n: nat, endian: Endian, signed: bool)
    requires InRange(v, n, signed)
    ensures FromBytes(ToBytes(v, n, endian), endian, signed) == v
  {
    UnsignedBytes(if v < 0 then v + Pow(TwoFiftySix, n) else v, n);
  }

  lemma {:induction false} BigEndianBack(big: Bytes)
    ensures Number(TwoFiftySix, big) < Pow(TwoFiftySix, |big|)
    ensures ToBytes(Number(TwoFiftySix, big), |big|, Big) == big
    ensures ToBytes(Number(TwoFiftySix, big) - Pow(TwoFiftySix, |big|), |big|, Big) == big
  {
    hide Number, Pow, Digits;
    NumberIsBounded(TwoFiftySix, big);
    DigitsOfNumber(TwoFiftySix, big);
  }

  /** Decoding any payload gives a value of the type's range, and encoding that value gives the payload back. */
  lemma ToBytesInvertsFromBytes(data: Bytes, endian: Endian, signed: bool)
    ensures InRange(FromBytes(data, endian, signed), |data|, signed)
    ensures ToBytes(FromBytes(data, endian, signed), |data|, endian) == data
  {
    hide Number, Pow, Digits;
    BigEndianBack(if endian == Big then data else Reverse(data));
    assert Reverse(Reverse(data)) == data;
  }

  /** What one more byte does: at the low end, the others count 256 times as much. */
  lemma BytesWeigh(data: Bytes, b: Byte)
    ensures FromBytes([], Big, false) == FromBytes([], Little, false) == 0
    ensures FromBytes(data + [b], Big, false) == FromBytes(data, Big, false) * 256 + b
    ensures FromBytes([b] + data, Little, false) == FromBytes(data, Little, false) * 256 + b
  {
    assert (data + [b])[..|data|] == data;
    assert Reverse([b] + data) == Reverse(data) + [b];
    assert Reverse(data) == (Reverse(data) + [b])[..|data|];
    assert Reverse([]) == [];
  }

  /** Reading signed subtracts the whole range from the upper half of it, and nothing from the lower half. */
  lemma SignedIsTheNearerHalf(data: Bytes, endian: Endian)
    ensures var u, v, range := FromBytes(data, endian, false), FromBytes(data, endian, true), Pow(TwoFiftySix, |data|);
            && (v == u || v == u - range) && (v < 0 <==> 2 * u >= range) && -range <= 2 * v < range
  {
    ToBytesInvertsFromBytes(data, endian, false);
    ToBytesInvertsFromBytes(data, endian, true);
  }
}
