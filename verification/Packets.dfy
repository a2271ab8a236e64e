/** Packets and their JSON records: `DiagnosticPacket` of packet.py. */
module Packets {
  import opened Wrappers
  import opened Hex

  /** A JSON value, as `json.loads` returns it. */
  datatype Json =
    | Null
    | Boolean(flag: bool)
    | Number(number: real)
    | Text(text: string)
    | List(items: seq<Json>)
    | Object(fields: map<string, Json>)
  {
    /** Python's truth value. */
    predicate Truthy() {
      match this
      case Null => false
      case Boolean(b) => b
      case Number(n) => n != 0.0
      case Text(s) => s != ""
      case List(items) => items != []
      case Object(fields) => fields != map[]
    }

    /** `dict.get(key)`: absent keys read as null. */
    function Get(key: string): Json
      requires Object?
    {
      if key in fields then fields[key] else Null
    }
  }

  type Dict = map<string, Json>

  datatype Direction = TX | RX

  /** A chunk of bytes that crossed the transport boundary; `note` is null when there is none. */
  datatype Packet = Packet(
    direction: Direction,
    rawData: Bytes,
    timestamp: real,
    transport: Dict,
    decoded: Option<Dict>,
    note: Json)

  /** What the Python runtime supplies: the clock, date texts, and `str` of a number. */
  datatype Host = Host(now: real, isoText: real -> string, parseIso: string -> Option<real>, numberText: real -> string)

  function DirectionText(d: Direction): string {
    if d == TX then "TX" else "RX"
  }

  function ToDict(p: Packet, host: Host): Dict {
    map[
      "timestamp" := Number(p.timestamp),
      "iso_timestamp" := Text(host.isoText(p.timestamp)),
      "direction" := Text(DirectionText(p.direction)),
      "length" := Number(|p.rawData| as real),
      "raw_hex" := Text(FormatHex(p.rawData, " "))]
    + (if p.transport == map[] then map[] else map["transport" := Object(p.transport)])
    + (match p.decoded case None => map[] case Some(d) => map["decoded" := Object(d)])
    + (if p.note == Null then map[] else map["note" := p.note])
  }

  /** Why a record is no packet; all but the last are `ValueError`s. */
  datatype RecordError =
    | NoDirection | BadDirection | NoPayload | BadHex
    | BadTimestamp | BadTransport | BadDecoded
    | TimestampTypeError

  function ParseDirection(value: Json): Option<Direction> {
    match value
    case Text(s) =>
      if s in ["TX", "Tx", "tX", "tx"] then Some(TX)
      else if s in ["RX", "Rx", "rX", "rx"] then Some(RX)
      else None
    case _ => None
  }

  /** `parse_hex(str(value))`; the texts of null, booleans, lists and objects never are hex. */
  function ParsePayload(value: Json, host: Host): Result<Bytes, RecordError> {
    match value
    case Text(s) => HexOr(s)
    case Number(n) => HexOr(host.numberText(n))
    case _ => Failure(BadHex)
  }

  function HexOr(text: string): Result<Bytes, RecordError> {
    match ParseHex(text)
    case Success(data) => Success(data)
    case Failure(_) => Failure(BadHex)
  }

  function ParseTimestamp(value: Json, host: Host): Result<real, RecordError> {
    match value
    case Null => Success(host.now)
    case Text(s) => (match host.parseIso(s) case Some(t) => Success(t) case None => Failure(BadTimestamp))
    case Number(n) => Success(n)
    case Boolean(b) => Success(if b then 1.0 else 0.0)
    case _ => Failure(TimestampTypeError)
  }

  function FromDict(record: Dict, host: Host): Result<Packet, RecordError> {
    var r := Object(record);
    if "direction" !in record then Failure(NoDirection)
    else if ParseDirection(record["direction"]) == None then Failure(BadDirection)
    else if "raw_hex" !in record && "raw_data" !in record then Failure(NoPayload)
    else
      var payload := ParsePayload(if "raw_hex" in record then record["raw_hex"] else record["raw_data"], host);
      var timestamp := ParseTimestamp(r.Get("timestamp"), host);
      var transport := if r.Get("transport").Truthy() then r.Get("transport") else Object(map[]);
      var decoded := r.Get("decoded");
      if payload.Failure? then Failure(payload.error)
      else if timestamp == Failure(BadTimestamp) then Failure(BadTimestamp)
      else if !transport.Object? then Failure(BadTransport)
      else if !decoded.Null? && !decoded.Object? then Failure(BadDecoded)
      else if timestamp.Failure? then Failure(timestamp.error)
      else Success(Packet(
        ParseDirection(record["direction"]).value,
        payload.value,
        timestamp.value,
        transport.fields,
        if decoded.Object? then Some(decoded.fields) else None,
        r.Get("note")))
  }

  /** What a record must hold for the loader to read packet `p` from it. */
  ghost predicate Describes(d: Dict, p: Packet) {
    var r := Object(d);
    && "direction" in d && d["direction"] == Text(DirectionText(p.direction))
    && "raw_hex" in d && d["raw_hex"] == Text(FormatHex(p.rawData, " "))
    && r.Get("timestamp") == Number(p.timestamp)
    && r.Get("transport") == (if p.transport == map[] then Null else Object(p.transport))
    && r.Get("decoded") == (match p.decoded case None => Null case Some(fields) => Object(fields))
    && r.Get("note") == p.note
  }

  lemma ToDictRequired(p: Packet, host: Host)
    ensures var d := ToDict(p, host);
            && "direction" in d && d["direction"] == Text(DirectionText(p.direction))
            && "raw_hex" in d && d["raw_hex"] == Text(FormatHex(p.rawData, " "))
            && Object(d).Get("timestamp") == Number(p.timestamp)
            && "type" !in d
  {
    hide FormatHex;
  }

  lemma ToDictOptional(p: Packet, host: Host)
    ensures var r := Object(ToDict(p, host));
            && r.Get("transport") == (if p.transport == map[] then Null else Object(p.transport))
            && r.Get("decoded") == (match p.decoded case None => Null case Some(fields) => Object(fields))
            && r.Get("note") == p.note
  {
    hide FormatHex;
  }

  lemma ToDictDescribes(p: Packet, host: Host)
    ensures Describes(ToDict(p, host), p)
    ensures "type" !in ToDict(p, host)
  {
    hide ToDict, FormatHex;
    ToDictRequired(p, host);
    ToDictOptional(p, host);
  }

  lemma {:induction false} DescribedIsRead(d: Dict, p: Packet, host: Host)
    requires Describes(d, p)
    ensures FromDict(d, host) == Success(p)
  {
    assert HexOr(FormatHex(p.rawData, " ")) == Success(p.rawData) by {
      FormatThenParse(p.rawData, " ");
    }
    assert ParseDirection(d["direction"]) == Some(p.direction);
  }

  /** Saving a packet and loading it gives the same packet, whatever host loads it. */
  lemma PacketRoundTrip(p: Packet, saver: Host, loader: Host)
    ensures FromDict(ToDict(p, saver), loader) == Success(p)
  {
    ToDictDescribes(p, saver);
    DescribedIsRead(ToDict(p, saver), p, loader);
  }

  // ------------------------------------------------------------- which records are packets

  function UpperLetter(c: char): char {
    if 'a' <= c <= 'z' then c - 'a' + 'A' else c
  }

  /** A direction is its name in any case, and nothing but text. */
  lemma DirectionIgnoresCase(value: Json, d: Direction)
    ensures ParseDirection(value) == Some(d)
       <==> value.Text? && |value.text| == 2
            && [UpperLetter(value.text[0]), UpperLetter(value.text[1])] == DirectionText(d)
  {
    if value.Text? && |value.text| == 2 {
      assert value.text == [value.text[0], value.text[1]];
    }
  }

  /** The payload of a record: the hex text under raw_hex, and only without one that under raw_data. */
  function PayloadOf(record: Dict, host: Host): Option<Bytes> {
    if "raw_hex" in record && ParsePayload(record["raw_hex"], host).Success? then
      Some(ParsePayload(record["raw_hex"], host).value)
    else if "raw_hex" !in record && "raw_data" in record && ParsePayload(record["raw_data"], host).Success? then
      Some(ParsePayload(record["raw_data"], host).value)
    else None
  }

  /** Everything the loader asks of a record but its timestamp. */
  ghost predicate PacketButForTime(record: Dict, host: Host) {
    var r := Object(record);
    && "direction" in record && ParseDirection(record["direction"]).Some?
    && PayloadOf(record, host).Some?
    && (r.Get("transport").Object? || !r.Get("transport").Truthy())
    && (r.Get("decoded").Object? || r.Get("decoded").Null?)
  }

  /**
   * Which records are packets: besides a good direction, payload, transport and decoding, a timestamp that is absent,
   * a number, a truth value or a readable date. A list or an object there is the one fault with an undocumented error.
   */
  lemma RecordExactly(record: Dict, host: Host)
    ensures var r, time := FromDict(record, host), Object(record).Get("timestamp");
            && (r.Success? <==> PacketButForTime(record, host) && !time.List? && !time.Object?
                                && (time.Text? ==> host.parseIso(time.text).Some?))
            && (r == Failure(TimestampTypeError) <==> PacketButForTime(record, host) && (time.List? || time.Object?))
            && (r.Success? ==>
                && Some(r.value.direction) == ParseDirection(record["direction"])
                && Some(r.value.rawData) == PayloadOf(record, host)
                && (time.Null? ==> r.value.timestamp == host.now)
                && (time.Number? ==> r.value.timestamp == time.number)
                && (time.Boolean? ==> r.value.timestamp == if time.flag then 1.0 else 0.0)
                && (time.Text? ==> Some(r.value.timestamp) == host.parseIso(time.text)))
  {
    hide ParseHex, ParseDirection;
  }

  /** What a saved record shows besides what the loader reads, and that absent things are left out. */
  lemma ToDictShows(p: Packet, host: Host)
    ensures var r := Object(ToDict(p, host));
            && r.Get("length") == Number(|p.rawData| as real)
            && r.Get("iso_timestamp") == Text(host.isoText(p.timestamp))
            && ("transport" in r.fields <==> p.transport != map[])
            && ("decoded" in r.fields <==> p.decoded.Some?)
            && ("note" in r.fields <==> p.note != Null)
  {
    hide FormatHex;
  }
}
