/** The named decoders and the signal definitions that apply them (values.py, signals.py). */
module Signals {
  import opened Wrappers
  import opened Hex
  import opened Decoding
  import Positional

  datatype Value = Whole(number: int) | Scaled(quantity: real) | Truth(flag: bool) | Words(text: string)

  // ---------------------------------------------------------------------- text

  predicate IsFiller(b: Byte) {
    b == 0 || b == 255
  }

  predicate IsBlankByte(b: Byte) {
    b == 32 || 9 <= b <= 13
  }

  /** What `str.strip` removes, among the characters Latin-1 can spell. */
  predicate IsBlankLatin1(b: Byte) {
    IsBlankByte(b) || 28 <= b <= 31 || b == 133 || b == 160
  }

  function TrimEnd(data: Bytes, drop: Byte -> bool): Bytes {
    if data != [] && drop(data[|data| - 1]) then TrimEnd(data[..|data| - 1], drop) else data
  }

  function TrimStart(data: Bytes, drop: Byte -> bool): Bytes {
    if data != [] && drop(data[0]) then TrimStart(data[1..], drop) else data
  }

  function Characters(data: Bytes): (text: string)
    ensures |text| == |data| && forall i :: 0 <= i < |data| ==> text[i] as int == data[i]
  {
    seq(|data|, i requires 0 <= i < |data| => data[i] as char)
  }

  function AsciiBody(data: Bytes): Bytes {
    TrimStart(TrimEnd(TrimEnd(data, IsFiller), IsBlankByte), IsBlankByte)
  }

  predicate IsAscii(data: Bytes) {
    forall i :: 0 <= i < |data| ==> data[i] < 128
  }

  // ------------------------------------------------------------ the decoder tables

  const VARIABLE := ["ascii", "latin1", "bcd", "raw_hex"]

  /** `DECODER_LENGTHS.get`: nothing for a decoder of variable length and for an unknown one. */
  function DecoderLength(name: string): Option<int> {
    match name
    case "uint8" => Some(1)
    case "int8" => Some(1)
    case "uint16" => Some(2)
    case "int16" => Some(2)
    case "uint16_le" => Some(2)
    case "int16_le" => Some(2)
    case "uint32" => Some(4)
    case "int32" => Some(4)
    case "uint32_le" => Some(4)
    case "boolean" => Some(1)
    case _ => None
  }

  predicate IsKnown(name: string) {
    DecoderLength(name).Some? || name in VARIABLE
  }

  function Signed(name: string): bool {
    name == "int8" || name == "int16" || name == "int16_le" || name == "int32"
  }

  function Order(name: string): Endian {
    if name == "uint16_le" || name == "int16_le" || name == "uint32_le" then Little else Big
  }

  function DecodeFixed(name: string, data: Bytes): Result<Value, DecodeError>
    requires DecoderLength(name).Some?
  {
    if |data| != DecoderLength(name).value then Failure(WrongLength)
    else if name == "boolean" then Success(Truth(data[0] != 0))
    else Success(Whole(FromBytes(data, Order(name), Signed(name))))
  }

  function DecodeVariable(name: string, data: Bytes): Result<Value, DecodeError>
    requires name in VARIABLE
  {
    if name == "ascii" then
      if IsAscii(AsciiBody(data)) then Success(Words(Characters(AsciiBody(data)))) else Failure(NotAscii)
    else if name == "latin1" then
      Success(Words(Characters(TrimStart(TrimEnd(TrimEnd(data, IsFiller), IsBlankLatin1), IsBlankLatin1))))
    else if name == "bcd" then
      match Bcd(data) case Some(v) => Success(Whole(v)) case None => Failure(NotBcd)
    else Success(Words(FormatHex(data, " ")))
  }

  /** `get_decoder(name)(data)`. */
  function Decode(name: string, data: Bytes): Result<Value, DecodeError> {
    if DecoderLength(name).Some? then DecodeFixed(name, data)
    else if name in VARIABLE then DecodeVariable(name, data)
    else Failure(UnknownDecoder)
  }

  function ApplyScaling(v: Value, scale: real, offset: real): Value {
    match v
    case Whole(n) => if scale == 1.0 && offset == 0.0 then v else Scaled(n as real * scale + offset)
    case Scaled(q) => if scale == 1.0 && offset == 0.0 then v else Scaled(q * scale + offset)
    case _ => v
  }

  // ------------------------------------------------------------ signal definitions

  datatype Definition = Definition(
    name: string, decoder: string, length: int, offsetBytes: int, scale: real, offset: real, unit: Option<string>,
    verified: bool)
  {
    predicate Constructible() {
      && length > 0 && offsetBytes >= 0
      && (DecoderLength(decoder).Some? ==> DecoderLength(decoder).value == length)
    }
  }

  /** A definition its constructor accepted. */
  type SignalDefinition = d: Definition | d.Constructible()
    witness Definition("x", "uint8", 1, 0, 1.0, 0.0, None, false)

  datatype DefinitionError = LengthNotPositive | OffsetNegative | LengthMismatch

  function Construct(d: Definition): (r: Result<SignalDefinition, DefinitionError>)
    ensures r.Success? <==> d.Constructible()
    ensures r.Success? ==> r.value == d
  {
    if d.length <= 0 then Failure(LengthNotPositive)
    else if d.offsetBytes < 0 then Failure(OffsetNegative)
    else if DecoderLength(d.decoder).Some? && DecoderLength(d.decoder).value != d.length then Failure(LengthMismatch)
    else Success(d)
  }

  datatype DecodedValue = DecodedValue(
    definition: SignalDefinition, value: Value, raw: Bytes, unit: Option<string>, verified: bool, error: Option<string>)

  const DECODER_FAILED := "decoder failed; showing raw bytes"

  function Extract(d: SignalDefinition, payload: Bytes): Result<Bytes, DecodeError> {
    if |payload| < d.offsetBytes + d.length then Failure(TooShort)
    else Success(payload[d.offsetBytes..d.offsetBytes + d.length])
  }

  function DecodeSignal(d: SignalDefinition, payload: Bytes, allowUnverified: bool): Result<DecodedValue, DecodeError> {
    if !d.verified && !allowUnverified then Failure(UnverifiedDefinition)
    else match Extract(d, payload)
      case Failure(e) => Failure(e)
      case Success(window) =>
        match Decode(d.decoder, window)
        case Failure(_) =>
          Success(DecodedValue(d, Words(FormatHex(window, " ")), window, None, false, Some(DECODER_FAILED)))
        case Success(v) =>
          Success(DecodedValue(d, ApplyScaling(v, d.scale, d.offset), window, d.unit, d.verified, None))
  }

  // -------------------------------------------------------------------- properties

  /** On a payload of the right size, a decoder fails exactly in one of these three ways. */
  predicate Undecodable(name: string, window: Bytes) {
    || !IsKnown(name)
    || (name == "bcd" && exists i :: 0 <= i < |window| && !DecimalByte(window[i]))
    || (name == "ascii" && !IsAscii(AsciiBody(window)))
  }

  lemma DecoderFailures(d: SignalDefinition, window: Bytes)
    requires |window| == d.length
    ensures Decode(d.decoder, window).Failure? <==> Undecodable(d.decoder, window)
    ensures DecoderLength(d.decoder).Some? ==> Decode(d.decoder, window).Success?
  {
    hide FromBytes, Bcd, AsciiBody;
    if DecoderLength(d.decoder) == None && d.decoder == "bcd" {
      BcdIsBaseHundred(window);
    }
  }

  /**
   * The gate and the fallback of `decode`. A result is withheld only for an unverified definition without the
   * opt-in or a short payload; it always shows the window's bytes; it is marked verified only for a verified
   * definition that decoded; and it falls back to the dump exactly when the window is undecodable.
   */
  lemma DecodeGate(d: SignalDefinition, payload: Bytes, allow: bool)
    ensures var r := DecodeSignal(d, payload, allow);
            && (r == Failure(UnverifiedDefinition) <==> !d.verified && !allow)
            && (r == Failure(TooShort) <==> (d.verified || allow) && |payload| < d.offsetBytes + d.length)
            && (r.Success? <==> (d.verified || allow) && |payload| >= d.offsetBytes + d.length)
            && (r.Success? ==>
                && r.value.raw == payload[d.offsetBytes..d.offsetBytes + d.length]
                && r.value.definition == d
                && (r.value.verified <==> d.verified && r.value.error == None)
                && r.value.unit == (if r.value.error == None then d.unit else None)
                && (r.value.error == None ==>
                    r.value.value == ApplyScaling(Decode(d.decoder, r.value.raw).value, d.scale, d.offset))
                && (r.value.error.Some? ==> r.value.value == Words(FormatHex(r.value.raw, " ")))
                && (r.value.error.Some? <==> Undecodable(d.decoder, r.value.raw)))
  {
    hide Decode, Undecodable;
    if |payload| >= d.offsetBytes + d.length {
      DecoderFailures(d, payload[d.offsetBytes..d.offsetBytes + d.length]);
    }
  }

  /** The constructor's length check makes the fallback unreachable for every fixed-width decoder. */
  lemma FixedWidthNeverFallsBack(d: SignalDefinition, payload: Bytes, allow: bool)
    requires DecoderLength(d.decoder).Some? && DecodeSignal(d, payload, allow).Success?
    ensures DecodeSignal(d, payload, allow).value.error == None
  {
    hide Decode;
    DecoderFailures(d, payload[d.offsetBytes..d.offsetBytes + d.length]);
  }

  /** The fallback loses nothing: its text parses back to the window's bytes. */
  lemma FallbackKeepsTheBytes(d: SignalDefinition, payload: Bytes, allow: bool)
    requires DecodeSignal(d, payload, allow).Success? && DecodeSignal(d, payload, allow).value.error.Some?
    ensures var v := DecodeSignal(d, payload, allow).value;
            v.value.Words? && ParseHex(v.value.text) == Success(v.raw) && v.unit == None
  {
    hide Decode;
    FormatThenParse(payload[d.offsetBytes..d.offsetBytes + d.length], " ");
  }

  // ----------------------------------------------------------------- what is decoded

  lemma NumberOfFew(a: Byte, b: Byte, c: Byte, d: Byte, e: Endian)
    ensures FromBytes([a], e, false) == a
    ensures FromBytes([a, b], Big, false) == a * 256 + b && FromBytes([a, b], Little, false) == b * 256 + a
    ensures FromBytes([a, b, c, d], Big, false) == a * 16777216 + b * 65536 + c * 256 + d
    ensures FromBytes([a, b, c, d], Little, false) == d * 16777216 + c * 65536 + b * 256 + a
  {
    hide FromBytes;
    BytesWeigh([], a);
    BytesWeigh([a], b);
    BytesWeigh([a, b], c);
    BytesWeigh([a, b, c], d);
    BytesWeigh([], d);
    BytesWeigh([d], c);
    BytesWeigh([c, d], b);
    BytesWeigh([b, c, d], a);
    BytesWeigh([], b);
    BytesWeigh([b], a);
    assert [] + [a] == [a] && [a] + [b] == [a, b] && [a, b] + [c] == [a, b, c] && [a, b, c] + [d] == [a, b, c, d];
    assert [b] + [] == [b] && [d] + [] == [d] && [c] + [d] == [c, d] && [b] + [c, d] == [b, c, d];
    assert [a] + [] == [a] && [a] + [b, c, d] == [a, b, c, d];
  }

  lemma Ranges()
    ensures Positional.Pow(Positional.TwoFiftySix, 1) == 256
    ensures Positional.Pow(Positional.TwoFiftySix, 2) == 65536
    ensures Positional.Pow(Positional.TwoFiftySix, 4) == 4294967296
  {
    assert Positional.Pow(Positional.TwoFiftySix, 3) == 16777216;
  }

  function Wrapped(n: int, range: int): int {
    if 2 * n >= range then n - range else n
  }

  lemma SignedOfFew(data: Bytes, e: Endian)
    requires |data| in {1, 2, 4}
    ensures var range := if |data| == 1 then 256 else if |data| == 2 then 65536 else 4294967296;
            FromBytes(data, e, true) == Wrapped(FromBytes(data, e, false), range)
  {
    hide FromBytes;
    Ranges();
    SignedIsTheNearerHalf(data, e);
  }

  /** The fixed-width decoders, by the bytes of the window: which end is high, and which are signed. */
  lemma FixedDecodersExactly(a: Byte, b: Byte, c: Byte, d: Byte)
    ensures var big, little := a * 256 + b, b * 256 + a;
            && Decode("uint8", [a]) == Success(Whole(a)) && Decode("int8", [a]) == Success(Whole(Wrapped(a, 256)))
            && Decode("boolean", [a]) == Success(Truth(a != 0))
            && Decode("uint16", [a, b]) == Success(Whole(big))
            && Decode("int16", [a, b]) == Success(Whole(Wrapped(big, 65536)))
            && Decode("uint16_le", [a, b]) == Success(Whole(little))
            && Decode("int16_le", [a, b]) == Success(Whole(Wrapped(little, 65536)))
    ensures var big, little := a * 16777216 + b * 65536 + c * 256 + d, d * 16777216 + c * 65536 + b * 256 + a;
            && Decode("uint32", [a, b, c, d]) == Success(Whole(big))
            && Decode("int32", [a, b, c, d]) == Success(Whole(Wrapped(big, 4294967296)))
            && Decode("uint32_le", [a, b, c, d]) == Success(Whole(little))
  {
    hide FromBytes, Wrapped;
    NumberOfFew(a, b, c, d, Big);
    SignedOfFew([a], Big);
    SignedOfFew([a, b], Big);
    SignedOfFew([a, b], Little);
    SignedOfFew([a, b, c, d], Big);
  }

  /** A decoder of a fixed width refuses every other width, and a name in no table is refused. */
  lemma DecodersRefuse(name: string, data: Bytes)
    ensures Decode(name, data) == Failure(WrongLength)
       <==> || (name in ["uint8", "int8", "boolean"] && |data| != 1)
            || (name in ["uint16", "int16", "uint16_le", "int16_le"] && |data| != 2)
            || (name in ["uint32", "int32", "uint32_le"] && |data| != 4)
    ensures Decode(name, data) == Failure(UnknownDecoder)
       <==> name !in ["uint8", "int8", "uint16", "int16", "uint16_le", "int16_le", "uint32", "int32", "uint32_le",
                      "boolean", "ascii", "latin1", "bcd", "raw_hex"]
  {
    hide FromBytes, Bcd, AsciiBody, FormatHex;
  }

  lemma {:induction false} TrimEndExactly(data: Bytes, drop: Byte -> bool) returns (n: nat)
    ensures n <= |data| && TrimEnd(data, drop) == data[..n]
    ensures (forall i :: n <= i < |data| ==> drop(data[i])) && (n > 0 ==> !drop(data[n - 1]))
  {
    if data != [] && drop(data[|data| - 1]) {
      n := TrimEndExactly(data[..|data| - 1], drop);
    } else {
      n := |data|;
    }
  }

  lemma {:induction false} TrimStartExactly(data: Bytes, drop: Byte -> bool) returns (n: nat)
    ensures n <= |data| && TrimStart(data, drop) == data[n..]
    ensures (forall i :: 0 <= i < n ==> drop(data[i])) && (n < |data| ==> !drop(data[n]))
  {
    if data != [] && drop(data[0]) {
      var m := TrimStartExactly(data[1..], drop);
      n := m + 1;
      assert forall i :: 0 < i < n ==> data[i] == data[1..][i - 1];
    } else {
      n := 0;
    }
  }

  /** Up to `n` without the filler at the end, and of that from `a` to `b` without the blanks at both ends. */
  ghost predicate Stripped(data: Bytes, blanks: seq<Byte>, n: nat, a: nat, b: nat) {
    && a <= b <= n <= |data|
    && (forall i :: n <= i < |data| ==> data[i] in {0, 255}) && (n > 0 ==> data[n - 1] !in {0, 255})
    && (forall i :: 0 <= i < a || b <= i < n ==> data[i] in blanks)
    && (a < b ==> data[a] !in blanks && data[b - 1] !in blanks)
  }

  const BLANKS: seq<Byte> := [9, 10, 11, 12, 13, 32]

  lemma StripExactly(data: Bytes, blank: Byte -> bool, blanks: seq<Byte>) returns (n: nat, a: nat, b: nat)
    requires forall x: Byte :: blank(x) <==> x in blanks
    ensures Stripped(data, blanks, n, a, b)
    ensures TrimStart(TrimEnd(TrimEnd(data, IsFiller), blank), blank) == data[a..b]
  {
    n := TrimEndExactly(data, IsFiller);
    b := TrimEndExactly(data[..n], blank);
    a := TrimStartExactly(data[..b], blank);
    assert data[..n][..b] == data[..b] && data[..b][a..] == data[a..b];
  }

  lemma StrippedIsWithin(data: Bytes, blanks: seq<Byte>, n: nat, a: nat, b: nat)
    requires Stripped(data, blanks, n, a, b)
    ensures a <= b <= |data|
  {
  }

  /** ASCII: filler goes from the end, then blanks from both; the rest is read character by character or refused. */
  lemma AsciiExactly(data: Bytes) returns (n: nat, a: nat, b: nat)
    ensures Stripped(data, BLANKS, n, a, b)
    ensures Decode("ascii", data)
         == if forall i :: a <= i < b ==> data[i] < 128 then Success(Words(Characters(data[a..b])))
            else Failure(NotAscii)
  {
    n, a, b := StripExactly(data, IsBlankByte, BLANKS);
    hide Characters, TrimEnd, TrimStart, IsFiller, IsBlankByte, Stripped, Bcd, FormatHex, FromBytes;
    assert a <= b <= |data| by { StrippedIsWithin(data, BLANKS, n, a, b); }
    var body := data[a..b];
    assert AsciiBody(data) == body;
    assert forall i :: a <= i < b ==> data[i] == body[i - a];
  }

  /** Latin-1: the same with more blanks, and nothing is refused. The dump shows every byte. */
  lemma Latin1Exactly(data: Bytes) returns (n: nat, a: nat, b: nat)
    ensures Stripped(data, BLANKS + [28, 29, 30, 31, 133, 160], n, a, b)
    ensures Decode("latin1", data) == Success(Words(Characters(data[a..b])))
    ensures Decode("raw_hex", data) == Success(Words(FormatHex(data, " ")))
  {
    n, a, b := StripExactly(data, IsBlankLatin1, BLANKS + [28, 29, 30, 31, 133, 160]);
    hide Characters, TrimEnd, TrimStart, FormatHex;
  }

  /** Scaling is linear on numbers, keeps a whole number whole exactly when it is the identity, and skips the rest. */
  lemma ScalingExactly(v: Value, scale: real, offset: real)
    ensures var r := ApplyScaling(v, scale, offset);
            && (v.Whole? ==> (r.Whole? <==> scale == 1.0 && offset == 0.0) && (r.Whole? || r.Scaled?)
                             && Quantity(r) == Quantity(v) * scale + offset)
            && (v.Scaled? ==> r.Scaled? && Quantity(r) == Quantity(v) * scale + offset)
            && (v.Truth? || v.Words? ==> r == v)
  {
  }

  function Quantity(v: Value): real {
    match v case Whole(n) => n as real case Scaled(q) => q case _ => 0.0
  }
}
