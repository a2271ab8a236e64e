/** Capture files: the logger that writes them and the loader that reads them (diagnostic_logger.py, replay.py). */
module Capture {
  import opened Wrappers
  import opened Hex
  import opened Packets
  import opened Base
  import opened Layout

  // ---------------------------------------------------------------------- files

  /** A line of a file: blank, not JSON, or the JSON value it parses to. */
  datatype Line = Blank | Garbage | Value(json: Json)

  /**
   * What the loader can observe of a file's text: its lines, what the whole text parses to, whether it starts
   * with a brace, and whether the layout marker is in reach in it (`InReach`).
   */
  datatype File = File(lines: seq<Line>, whole: Option<Json>, startsWithBrace: bool, marker: bool)

  /** A file of one JSON object per line, as the logger writes it. */
  function JsonLines(records: seq<Json>, marker: bool): File {
    File(seq(|records|, i requires 0 <= i < |records| => Value(records[i])),
         if |records| == 1 then Some(records[0]) else None,
         records != [],
         marker)
  }

  /** A single document written with indentation: its first line is a lone brace. */
  function IndentedDocument(document: Json, marker: bool): File {
    File([Garbage], Some(document), true, marker)
  }

  // --------------------------------------------------------------------- loading

  /** `Malformed` is the documented error; `Crash` an error of another type that escapes the loader. */
  datatype LoadError = Malformed | Crash

  datatype Capture = Capture(packets: seq<Packet>, session: Json)

  /** The records among the lines, and the session of the last header. */
  datatype Sorted = Sorted(records: seq<Json>, session: Json)

  function SortLine(line: Line, so: Sorted): Result<Sorted, LoadError> {
    match line
    case Blank => Success(so)
    case Garbage => Failure(Malformed)
    case Value(json) =>
      if !json.Object? then Failure(Crash)
      else if json.Get("type") == Text("session") then
        Success(so.(session := if "session" in json.fields then json.fields["session"] else json))
      else Success(so.(records := so.records + [json]))
  }

  /** The first loop of the loader, over all lines. */
  function SortLines(lines: seq<Line>): Result<Sorted, LoadError> {
    if lines == [] then Success(Sorted([], Object(map[])))
    else match SortLines(lines[..|lines| - 1])
      case Failure(e) => Failure(e)
      case Success(so) => SortLine(lines[|lines| - 1], so)
  }

  function ReadPacket(record: Json, host: Host): Result<Packet, LoadError> {
    if !record.Object? then Failure(Malformed)
    else match FromDict(record.fields, host)
      case Success(p) => Success(p)
      case Failure(TimestampTypeError) => Failure(Crash)
      case Failure(_) => Failure(Malformed)
  }

  /** The second loop of the loader, over all records. */
  function ReadPackets(records: seq<Json>, host: Host): Result<seq<Packet>, LoadError> {
    if records == [] then Success([])
    else match ReadPackets(records[..|records| - 1], host)
      case Failure(e) => Failure(e)
      case Success(packets) =>
        match ReadPacket(records[|records| - 1], host)
        case Failure(e) => Failure(e)
        case Success(p) => Success(packets + [p])
  }

  function ReadSorted(so: Result<Sorted, LoadError>, host: Host): Result<Capture, LoadError> {
    match so
    case Failure(e) => Failure(e)
    case Success(found) =>
      match ReadPackets(found.records, host)
      case Failure(e) => Failure(e)
      case Success(packets) => Success(Capture(packets, found.session))
  }

  function Documented(whole: Option<Json>): Result<Sorted, LoadError> {
    match whole
    case Some(Object(fields)) =>
      var session := Object(fields).Get("session");
      var packets := if "packets" in fields then fields["packets"] else List([]);
      if packets.List? then Success(Sorted(packets.items, if session.Truthy() then session else Object(map[])))
      else Failure(Malformed)
    case _ => Failure(Malformed)
  }

  predicate AllBlank(lines: seq<Line>) {
    forall line <- lines :: line == Blank
  }

  function Load(file: File, host: Host): Result<Capture, LoadError> {
    if AllBlank(file.lines) then Failure(Malformed)
    else if file.startsWithBrace && file.marker then ReadSorted(Documented(file.whole), host)
    else ReadSorted(SortLines(file.lines), host)
  }

  method LoadCapture(file: File, host: Host) returns (r: Result<Capture, LoadError>)
    ensures r == Load(file, host)
  {
    if AllBlank(file.lines) {
      return Failure(Malformed);
    }
    var records: seq<Json>, session := [], Object(map[]);
    if file.startsWithBrace && file.marker {
      match Documented(file.whole) {
        case Failure(e) => return Failure(e);
        case Success(found) => records, session := found.records, found.session;
      }
    } else {
      for n := 0 to |file.lines|
        invariant SortLines(file.lines[..n]) == Success(Sorted(records, session))
      {
        assert file.lines[..n + 1][..n] == file.lines[..n];
        match SortLine(file.lines[n], Sorted(records, session)) {
          case Failure(e) =>
            SortingFailsForGood(file.lines, n + 1, e);
            return Failure(e);
          case Success(more) => records, session := more.records, more.session;
        }
      }
      assert file.lines[..|file.lines|] == file.lines;
    }
    r := ReadAll(Sorted(records, session), host);
  }

  /** The loader's loop over the records it found. */
  method ReadAll(found: Sorted, host: Host) returns (r: Result<Capture, LoadError>)
    ensures r == ReadSorted(Success(found), host)
  {
    hide ReadPacket;
    var packets := [];
    for n := 0 to |found.records|
      invariant ReadPackets(found.records[..n], host) == Success(packets)
    {
      assert found.records[..n + 1][..n] == found.records[..n];
      match ReadPacket(found.records[n], host) {
        case Failure(e) =>
          ReadingFailsForGood(found.records, n + 1, host, e);
          return Failure(e);
        case Success(p) => packets := packets + [p];
      }
    }
    assert found.records[..|found.records|] == found.records;
    r := Success(Capture(packets, found.session));
  }

  lemma {:induction false} SortingFailsForGood(lines: seq<Line>, n: nat, e: LoadError)
    requires n <= |lines| && SortLines(lines[..n]) == Failure(e)
    ensures SortLines(lines) == Failure(e)
  {
    if n == |lines| {
      assert lines[..n] == lines;
    } else {
      assert lines[..|lines| - 1][..n] == lines[..n];
      SortingFailsForGood(lines[..|lines| - 1], n, e);
    }
  }

  lemma {:induction false} ReadingFailsForGood(records: seq<Json>, n: nat, host: Host, e: LoadError)
    requires n <= |records| && ReadPackets(records[..n], host) == Failure(e)
    ensures ReadPackets(records, host) == Failure(e)
  {
    if n == |records| {
      assert records[..n] == records;
    } else {
      assert records[..|records| - 1][..n] == records[..n];
      ReadingFailsForGood(records[..|records| - 1], n, host, e);
    }
  }

  // ------------------------------------------------------ which files load, and why not

  /** The error of a line on its own: text that is no JSON is reported, a value that is no object escapes. */
  function LineError(line: Line): Option<LoadError> {
    match line
    case Blank => None
    case Garbage => Some(Malformed)
    case Value(json) => if json.Object? then None else Some(Crash)
  }

  /** Line `i` is the first one with an error, and this is it. */
  ghost predicate FirstBadLine(lines: seq<Line>, i: nat, e: LoadError) {
    i < |lines| && LineError(lines[i]) == Some(e) && forall j :: 0 <= j < i ==> LineError(lines[j]) == None
  }

  ghost predicate FirstBadRecord(records: seq<Json>, i: nat, e: LoadError, host: Host) {
    && i < |records| && ReadPacket(records[i], host) == Failure(e)
    && forall j :: 0 <= j < i ==> ReadPacket(records[j], host).Success?
  }

  /** The first bad line decides. */
  lemma {:induction false} SortingFails(lines: seq<Line>, e: LoadError)
    ensures SortLines(lines) == Failure(e) <==> exists i: nat :: FirstBadLine(lines, i, e)
    ensures SortLines(lines).Success? <==> forall i :: 0 <= i < |lines| ==> LineError(lines[i]) == None
  {
    if lines != [] {
      var n := |lines| - 1;
      SortingFails(lines[..n], e);
      SortingFails(lines[..n], if e == Crash then Malformed else Crash);
      if i: nat :| FirstBadLine(lines[..n], i, e) {
        assert FirstBadLine(lines, i, e);
      }
      if SortLines(lines[..n]).Success? && LineError(lines[n]) == Some(e) {
        assert forall j :: 0 <= j < n ==> LineError(lines[..n][j]) == None && lines[j] == lines[..n][j];
        assert FirstBadLine(lines, n, e);
      }
      if i: nat :| FirstBadLine(lines, i, e) {
        if i < n {
          assert FirstBadLine(lines[..n], i, e);
        }
      }
    }
  }

  /** The first bad record decides. */
  lemma {:induction false} ReadingFails(records: seq<Json>, e: LoadError, host: Host)
    ensures ReadPackets(records, host) == Failure(e) <==> exists i: nat :: FirstBadRecord(records, i, e, host)
    ensures ReadPackets(records, host).Success?
       <==> forall i :: 0 <= i < |records| ==> ReadPacket(records[i], host).Success?
  {
    hide ReadPacket;
    if records != [] {
      var n := |records| - 1;
      ReadingFails(records[..n], e, host);
      ReadingFails(records[..n], if e == Crash then Malformed else Crash, host);
      assert forall j :: 0 <= j < n ==> records[j] == records[..n][j];
      if i: nat :| FirstBadRecord(records[..n], i, e, host) {
        assert FirstBadRecord(records, i, e, host);
      }
      if ReadPackets(records[..n], host).Success? && ReadPacket(records[n], host) == Failure(e) {
        assert FirstBadRecord(records, n, e, host);
      }
      if i: nat :| FirstBadRecord(records, i, e, host) {
        if i < n {
          assert FirstBadRecord(records[..n], i, e, host);
        }
      }
    }
  }

  /** A record escapes with an undocumented error exactly when all is well but a list or an object as its timestamp. */
  lemma RecordCrashes(record: Json, host: Host)
    ensures ReadPacket(record, host) == Failure(Crash)
       <==> record.Object? && PacketButForTime(record.fields, host)
            && (record.Get("timestamp").List? || record.Get("timestamp").Object?)
  {
    hide FromDict, PacketButForTime;
    if record.Object? {
      RecordExactly(record.fields, host);
    }
  }

  /**
   * A file of lines makes the loader raise an error it does not document exactly when its first bad line is a JSON
   * value that is no object, or every line is good and the first bad record has a list or an object as its timestamp.
   */
  lemma LoaderCrashes(file: File, host: Host)
    requires !(file.startsWithBrace && file.marker)
    ensures Load(file, host) == Failure(Crash)
       <==> || (exists i: nat :: FirstBadLine(file.lines, i, Crash))
            || (SortLines(file.lines).Success?
                && exists i: nat :: FirstBadRecord(SortLines(file.lines).value.records, i, Crash, host))
  {
    hide SortLines, ReadPackets, FirstBadRecord;
    SortingFails(file.lines, Crash);
    if AllBlank(file.lines) {
      BlankFilesHoldNothing(file.lines);
      NoRecordIsBad(host);
    }
    if SortLines(file.lines).Success? {
      ReadingFails(SortLines(file.lines).value.records, Crash, host);
    }
  }

  /** When a file of lines loads: something is in it, every line is good, and every record among them is a packet. */
  lemma LinesExactly(file: File, host: Host)
    requires !(file.startsWithBrace && file.marker)
    ensures var loaded := Load(file, host);
            && (loaded.Success? <==>
                && (exists i :: 0 <= i < |file.lines| && file.lines[i] != Blank)
                && (forall i :: 0 <= i < |file.lines| ==> LineError(file.lines[i]) == None)
                && SortLines(file.lines).Success?
                && forall i :: 0 <= i < |SortLines(file.lines).value.records| ==>
                     ReadPacket(SortLines(file.lines).value.records[i], host).Success?)
            && (loaded.Success? ==>
                var found := SortLines(file.lines).value;
                && ReadPackets(found.records, host) == Success(loaded.value.packets)
                && loaded.value.session == found.session)
  {
    hide SortLines, ReadPackets, ReadPacket;
    SortingFails(file.lines, Crash);
    if SortLines(file.lines).Success? {
      ReadingFails(SortLines(file.lines).value.records, Crash, host);
    }
    BlankByPosition(file.lines);
  }

  lemma BlankByPosition(lines: seq<Line>)
    ensures AllBlank(lines) <==> forall i :: 0 <= i < |lines| ==> lines[i] == Blank
  {
    assert forall i :: 0 <= i < |lines| ==> lines[i] in lines;
  }

  lemma NoRecordIsBad(host: Host)
    ensures forall i: nat :: !FirstBadRecord([], i, Crash, host)
  {
  }

  lemma {:induction false} BlankFilesHoldNothing(lines: seq<Line>)
    requires AllBlank(lines)
    ensures SortLines(lines) == Success(Sorted([], Object(map[])))
  {
    if lines != [] {
      var front := lines[..|lines| - 1];
      assert forall i :: 0 <= i < |front| ==> front[i] == lines[i] && lines[i] in lines;
      assert lines[|lines| - 1] in lines;
      BlankFilesHoldNothing(lines[..|lines| - 1]);
    }
  }

  /** A file of one line that is a number raises an error the loader does not document. */
  lemma NumberLineCrashes(host: Host)
    ensures Load(File([Value(Number(3.0))], Some(Number(3.0)), false, false), host) == Failure(Crash)
  {
    var line := Value(Number(3.0));
    assert [line][..0] == [] && line in [line];
  }

  /** So does a packet whose timestamp is a list. */
  lemma ListTimeCrashes(host: Host)
    ensures var record := Object(map["direction" := Text("TX"), "raw_hex" := Text(""), "timestamp" := List([])]);
            Load(JsonLines([record], false), host) == Failure(Crash)
  {
    hide ParseHex, ReadPacket, SortLine;
    var record := Object(map["direction" := Text("TX"), "raw_hex" := Text(""), "timestamp" := List([])]);
    var file := JsonLines([record], false);
    FormatThenParse([], " ");
    assert FormatHex([], " ") == "";
    RecordCrashes(record, host);
    assert file.lines == [Value(record)] && file.lines[0] in file.lines;
    assert FirstBadRecord([record], 0, Crash, host);
    OneRecord(record);
    LoaderCrashes(file, host);
  }

  lemma OneRecord(record: Json)
    requires record.Object? && record.Get("type") != Text("session")
    ensures SortLines([Value(record)]) == Success(Sorted([record], Object(map[])))
  {
    assert [Value(record)][..0] == [] && [] + [record] == [record];
  }

  /** Blank lines are skipped, wherever they are. */
  lemma {:induction false} BlankLinesAreSkipped(a: seq<Line>, b: seq<Line>)
    ensures SortLines(a + [Blank] + b) == SortLines(a + b)
    decreases |b|
  {
    if b == [] {
      assert a + [Blank] + b == a + [Blank] && (a + [Blank])[..|a|] == a && a + b == a;
    } else {
      var n := |b| - 1;
      assert (a + [Blank] + b)[..|a| + 1 + n] == a + [Blank] + b[..n];
      assert (a + b)[..|a| + n] == a + b[..n];
      BlankLinesAreSkipped(a, b[..n]);
    }
  }

  /**
   * A file taken for a single document: it must be an object; its packets are those listed, none if the key is
   * missing, and a list is demanded; a session that is missing or false in Python is an empty one. The first bad
   * record decides what is raised.
   */
  lemma DocumentExactly(file: File, host: Host)
    requires file.startsWithBrace && file.marker && !AllBlank(file.lines)
    ensures var loaded := Load(file, host);
            if file.whole == None || !file.whole.value.Object? then loaded == Failure(Malformed)
            else
              var fields := file.whole.value.fields;
              var listed := if "packets" in fields then fields["packets"] else List([]);
              if !listed.List? then loaded == Failure(Malformed)
              else
                && (loaded.Success? <==>
                    forall i :: 0 <= i < |listed.items| ==> ReadPacket(listed.items[i], host).Success?)
                && (loaded == Failure(Crash) <==> exists i: nat :: FirstBadRecord(listed.items, i, Crash, host))
                && (loaded.Success? ==>
                    && ReadPackets(listed.items, host) == Success(loaded.value.packets)
                    && loaded.value.session
                       == if "session" in fields && fields["session"].Truthy() then fields["session"]
                          else Object(map[]))
  {
    hide ReadPackets, ReadPacket, FirstBadRecord;
    if file.whole.Some? && file.whole.value.Object? {
      var fields := file.whole.value.fields;
      var listed := if "packets" in fields then fields["packets"] else List([]);
      if listed.List? {
        ReadingFails(listed.items, Crash, host);
      }
    }
  }

  /** The packets are read one for one, in order. */
  lemma {:induction false} PacketsInOrder(records: seq<Json>, host: Host)
    requires ReadPackets(records, host).Success?
    ensures var packets := ReadPackets(records, host).value;
            && |packets| == |records|
            && forall i :: 0 <= i < |records| ==> ReadPacket(records[i], host) == Success(packets[i])
  {
    hide ReadPacket;
    if records != [] {
      PacketsInOrder(records[..|records| - 1], host);
    }
  }

  // ---------------------------------------------------------------------- logging

  /** `SessionMetadata`: the communication level is the one field that changes. */
  datatype Metadata = Metadata(fields: Dict, commsLevel: string) {
    function ToJson(): Json {
      Object(fields["comms_level" := Text(commsLevel)])
    }
  }

  const FORMAT := "f10diag-capture"

  function Header(m: Metadata): Json {
    Object(map["type" := Text("session"), "format" := Text(FORMAT), "version" := Number(1.0), "session" := m.ToJson()])
  }

  function EventRecord(stamp: string, event: string, fields: Dict): Json {
    Object(map["type" := Text("event"), "timestamp" := Text(stamp), "event" := Text(event)] + fields)
  }

  /** A logger and the file it appends to; `lines` outlives the logger's open/close sessions. */
  datatype Log = Log(
    hasPath: bool,
    isOpen: bool,
    metadata: Metadata,
    packets: seq<Packet>,
    counts: map<Direction, nat>,
    lines: seq<Json>)
  {
    function WriteLine(record: Json): Log {
      if isOpen then this.(lines := lines + [record]) else this
    }

    function Open(): Log {
      if !hasPath || isOpen then this else this.(isOpen := true).WriteLine(Header(metadata))
    }

    function Close(): Log {
      this.(isOpen := false)
    }

    function Count(d: Direction): nat {
      if d in counts then counts[d] else 0
    }

    function Record(p: Packet, host: Host): Log {
      this.(packets := packets + [p], counts := counts[p.direction := Count(p.direction) + 1])
          .WriteLine(Object(ToDict(p, host)))
    }

    function RecordEvent(stamp: string, event: string, fields: Dict): Log {
      WriteLine(EventRecord(stamp, event, fields))
    }

    function UpdateCommsLevel(stamp: string, level: string): Log {
      this.(metadata := metadata.(commsLevel := level)).RecordEvent(stamp, "comms_level", map["level" := Text(level)])
    }

    function ToDocument(host: Host): Json {
      Object(map["format" := Text(FORMAT), "version" := Number(1.0), "session" := metadata.ToJson(),
                 "packets" := List(Dicts(packets, host))])
    }
  }

  /** Header and document name the same format and version, and the same metadata. */
  lemma FormatIsNamed(log: Log, host: Host)
    ensures var header, document := Header(log.metadata), log.ToDocument(host);
            && header.Get("type") == Text("session") && document.Get("type") == Null
            && header.Get("format") == document.Get("format") == Text("f10diag-capture")
            && header.Get("version") == document.Get("version") == Number(1.0)
            && header.Get("session") == document.Get("session") == log.metadata.ToJson()
            && log.metadata.ToJson().Get("comms_level") == Text(log.metadata.commsLevel)
  {
  }

  function Dicts(packets: seq<Packet>, host: Host): seq<Json> {
    seq(|packets|, i requires 0 <= i < |packets| => Object(ToDict(packets[i], host)))
  }

  class CaptureFile {
    var lines: seq<Json>

    constructor ()
      ensures lines == []
    {
      lines := [];
    }
  }

  class DiagnosticLogger {
    const file: CaptureFile
    const hasPath: bool
    var isOpen: bool
    var metadata: Metadata
    var packets: seq<Packet>
    var counts: map<Direction, nat>

    function Model(): Log
      reads this, file
    {
      Log(hasPath, isOpen, metadata, packets, counts, file.lines)
    }

    constructor (file: CaptureFile, hasPath: bool, metadata: Metadata)
      ensures this.file == file
      ensures Model() == Log(hasPath, false, metadata, [], map[TX := 0, RX := 0], file.lines)
    {
      this.file, this.hasPath, this.metadata := file, hasPath, metadata;
      isOpen, packets, counts := false, [], map[TX := 0, RX := 0];
    }

    method WriteLine(record: Json)
      modifies file
      ensures Model() == old(Model()).WriteLine(record)
    {
      if isOpen {
        file.lines := file.lines + [record];
      }
    }

    method Open()
      modifies this, file
      ensures Model() == old(Model()).Open()
    {
      if !hasPath || isOpen {
        return;
      }
      isOpen := true;
      WriteLine(Header(metadata));
    }

    method Close()
      modifies this
      ensures Model() == old(Model()).Close()
    {
      isOpen := false;
    }

    method Record(p: Packet, host: Host)
      modifies this, file
      ensures Model() == old(Model()).Record(p, host)
    {
      packets := packets + [p];
      counts := counts[p.direction := (if p.direction in counts then counts[p.direction] else 0) + 1];
      WriteLine(Object(ToDict(p, host)));
    }

    method RecordEvent(stamp: string, event: string, fields: Dict)
      modifies this, file
      ensures Model() == old(Model()).RecordEvent(stamp, event, fields)
    {
      WriteLine(EventRecord(stamp, event, fields));
    }

    method UpdateCommsLevel(stamp: string, level: string)
      modifies this, file
      ensures Model() == old(Model()).UpdateCommsLevel(stamp, level)
    {
      metadata := metadata.(commsLevel := level);
      RecordEvent(stamp, "comms_level", map["level" := Text(level)]);
    }
  }

  // ------------------------------------------------------------------ whole runs

  datatype LogCall =
    | Open
    | Close
    | Record(packet: Packet)
    | RecordEvent(stamp: string, event: string, fields: Dict)
    | UpdateCommsLevel(when: string, level: string)

  function Step(log: Log, c: LogCall, host: Host): Log {
    match c
    case Open => log.Open()
    case Close => log.Close()
    case Record(p) => log.Record(p, host)
    case RecordEvent(stamp, event, fields) => log.RecordEvent(stamp, event, fields)
    case UpdateCommsLevel(stamp, level) => log.UpdateCommsLevel(stamp, level)
  }

  function Run(log: Log, calls: seq<LogCall>, host: Host): Log
    decreases calls
  {
    if calls == [] then log else Run(Step(log, calls[0], host), calls[1..], host)
  }

  // ------------------------------------------------------ how an event line reads

  /** The event's own fields make it a session header. */
  predicate ImitatesHeader(fields: Dict) {
    "type" in fields && fields["type"] == Text("session")
  }

  /** The event's own fields make it a packet. */
  predicate ImitatesPacket(stamp: string, fields: Dict, host: Host) {
    var own := Object(fields);
    && "direction" in fields && ParseDirection(fields["direction"]).Some?
    && ("raw_hex" in fields || "raw_data" in fields)
    && ParsePayload(if "raw_hex" in fields then fields["raw_hex"] else fields["raw_data"], host).Success?
    && ParseTimestamp(if "timestamp" in fields then fields["timestamp"] else Text(stamp), host).Success?
    && (own.Get("transport").Truthy() ==> own.Get("transport").Object?)
    && (own.Get("decoded").Null? || own.Get("decoded").Object?)
  }

  /** The packet such an event is read as. */
  function PacketOfEvent(stamp: string, fields: Dict, host: Host): Packet
    requires ImitatesPacket(stamp, fields, host)
  {
    var own := Object(fields);
    Packet(
      ParseDirection(fields["direction"]).value,
      ParsePayload(if "raw_hex" in fields then fields["raw_hex"] else fields["raw_data"], host).value,
      ParseTimestamp(if "timestamp" in fields then fields["timestamp"] else Text(stamp), host).value,
      if own.Get("transport").Truthy() then own.Get("transport").fields else map[],
      if own.Get("decoded").Object? then Some(own.Get("decoded").fields) else None,
      own.Get("note"))
  }

  // -------------------------------------------------------------- what a run writes

  /** What the calls alone say of a logger: whether it has a path and is open, and its metadata. */
  datatype Track = Track(hasPath: bool, open: bool, metadata: Metadata) {
    function After(c: LogCall): Track {
      match c
      case Open => this.(open := open || hasPath)
      case Close => this.(open := false)
      case UpdateCommsLevel(_, level) => this.(metadata := metadata.(commsLevel := level))
      case _ => this
    }
  }

  function TrackOf(log: Log): Track {
    Track(log.hasPath, log.isOpen, log.metadata)
  }

  /** The packets a call puts into an open file, as the loader will read them. */
  function PacketsOf(c: LogCall, loader: Host): seq<Packet> {
    match c
    case Record(p) => [p]
    case RecordEvent(stamp, _, fields) =>
      if !ImitatesHeader(fields) && ImitatesPacket(stamp, fields, loader) then [PacketOfEvent(stamp, fields, loader)]
      else []
    case _ => []
  }

  function PacketsAdded(t: Track, c: LogCall, loader: Host): seq<Packet> {
    if t.open then PacketsOf(c, loader) else []
  }

  /** Whether the call names a session in the file. */
  predicate NamesSession(t: Track, c: LogCall) {
    (c.Open? && t.hasPath && !t.open) || (c.RecordEvent? && t.open && ImitatesHeader(c.fields))
  }

  /** The session the file names after one call, given the one it named before. */
  function SessionAfter(t: Track, c: LogCall, before: Json): Json {
    if !NamesSession(t, c) then before
    else if c.Open? then t.metadata.ToJson()
    else if "session" in c.fields then c.fields["session"]
    else EventRecord(c.stamp, c.event, c.fields)
  }

  function PacketsWritten(t: Track, calls: seq<LogCall>, loader: Host): seq<Packet>
    decreases calls
  {
    if calls == [] then []
    else PacketsAdded(t, calls[0], loader) + PacketsWritten(t.After(calls[0]), calls[1..], loader)
  }

  function LastSession(t: Track, calls: seq<LogCall>, before: Json): Json
    decreases calls
  {
    if calls == [] then before else LastSession(t.After(calls[0]), calls[1..], SessionAfter(t, calls[0], before))
  }

  /** Whether the call writes an event that imitates neither a header nor a packet. */
  predicate Spoils(t: Track, c: LogCall, loader: Host) {
    && t.open
    && match c
       case RecordEvent(stamp, _, fields) => !ImitatesHeader(fields) && !ImitatesPacket(stamp, fields, loader)
       case UpdateCommsLevel(_, _) => true
       case _ => false
  }

  predicate EverSpoils(t: Track, calls: seq<LogCall>, loader: Host)
    decreases calls
  {
    calls != [] && (Spoils(t, calls[0], loader) || EverSpoils(t.After(calls[0]), calls[1..], loader))
  }

  /** The logger does what the calls say. */
  lemma StepTracks(log: Log, c: LogCall, host: Host)
    ensures TrackOf(Step(log, c, host)) == TrackOf(log).After(c)
  {
  }

  function AsLines(records: seq<Json>): seq<Line> {
    seq(|records|, i requires 0 <= i < |records| => Value(records[i]))
  }

  /** What reading the file line by line gives. */
  function ReadLines(records: seq<Json>, host: Host): Result<Capture, LoadError> {
    ReadSorted(SortLines(AsLines(records)), host)
  }

  lemma SortOneMore(records: seq<Json>, line: Json)
    ensures SortLines(AsLines(records + [line]))
         == match SortLines(AsLines(records))
            case Failure(e) => Failure(e)
            case Success(so) => SortLine(Value(line), so)
  {
    assert AsLines(records + [line])[..|records|] == AsLines(records);
  }

  lemma ReadOneMore(records: seq<Json>, r: Json, host: Host)
    ensures ReadPackets(records + [r], host)
         == match ReadPackets(records, host)
            case Failure(e) => Failure(e)
            case Success(packets) =>
              match ReadPacket(r, host) case Failure(e) => Failure(e) case Success(p) => Success(packets + [p])
  {
    assert (records + [r])[..|records|] == records;
  }

  /** A line that is a session header, appended to a readable file: same packets, new session. */
  lemma HeaderAppends(records: seq<Json>, line: Json, host: Host)
    requires line.Object? && line.Get("type") == Text("session")
    ensures ReadLines(records + [line], host)
         == match ReadLines(records, host)
            case Failure(e) => Failure(e)
            case Success(c) =>
              Success(Capture(c.packets, if "session" in line.fields then line.fields["session"] else line))
  {
    hide SortLines, ReadPackets;
    SortOneMore(records, line);
  }

  /** A line that is no header and no packet makes the file unreadable; a packet line adds its packet. */
  lemma RecordAppends(records: seq<Json>, line: Json, host: Host)
    requires line.Object? && line.Get("type") != Text("session")
    ensures ReadLines(records, host).Failure? ==> ReadLines(records + [line], host).Failure?
    ensures ReadLines(records, host).Success? ==>
              ReadLines(records + [line], host)
              == match ReadPacket(line, host)
                 case Failure(e) => Failure(e)
                 case Success(p) =>
                   var c := ReadLines(records, host).value; Success(Capture(c.packets + [p], c.session))
  {
    SortOneMore(records, line);
    match SortLines(AsLines(records))
    case Success(so) => ReadOneMore(so.records, line, host);
    case Failure(_) =>
  }

  lemma EventFields(stamp: string, event: string, fields: Dict, key: string)
    requires key !in {"type", "timestamp", "event"}
    ensures var record := EventRecord(stamp, event, fields);
            && (key in record.fields <==> key in fields)
            && (key in fields ==> record.fields[key] == fields[key])
            && record.Get(key) == Object(fields).Get(key)
            && record.Get("type") == (if "type" in fields then fields["type"] else Text("event"))
            && record.Get("timestamp") == (if "timestamp" in fields then fields["timestamp"] else Text(stamp))
  {
  }

  /** What an event line says: its own fields before everything, then type, time and name, and nothing else. */
  lemma EventSays(stamp: string, event: string, fields: Dict, key: string)
    ensures var record := EventRecord(stamp, event, fields);
            && (key in fields ==> record.Get(key) == fields[key])
            && ("event" !in fields ==> record.Get("event") == Text(event))
            && ("timestamp" !in fields ==> record.Get("timestamp") == Text(stamp))
            && ("type" !in fields ==> record.Get("type") == Text("event"))
            && (key !in fields && key !in ["event", "timestamp", "type"] ==> record.Get(key) == Null)
  {
  }

  /** An event is read as a packet exactly when its own fields imitate one, and then as that packet. */
  lemma EventReadsAsPacket(stamp: string, event: string, fields: Dict, host: Host)
    ensures var r := ReadPacket(EventRecord(stamp, event, fields), host);
            && (r.Success? <==> ImitatesPacket(stamp, fields, host))
            && (r.Success? ==> r.value == PacketOfEvent(stamp, fields, host))
  {
  }

  lemma EventIsObject(stamp: string, event: string, fields: Dict)
    ensures EventRecord(stamp, event, fields).Object?
  {
  }

  lemma PacketLinesAreReadable(p: Packet, saver: Host, loader: Host)
    ensures var record := Object(ToDict(p, saver));
            record.Get("type") == Null && ReadPacket(record, loader) == Success(p)
  {
    ToDictDescribes(p, saver);
    DescribedIsRead(ToDict(p, saver), p, loader);
  }

  /** A readable file's content after a run: the packets written added, and the last session named. */
  function ReadsOn(before: Capture, t: Track, calls: seq<LogCall>, loader: Host): Capture {
    Capture(before.packets + PacketsWritten(t, calls, loader), LastSession(t, calls, before.session))
  }

  function ReadsOnOne(before: Capture, t: Track, c: LogCall, loader: Host): Capture {
    Capture(before.packets + PacketsAdded(t, c, loader), SessionAfter(t, c, before.session))
  }

  lemma ReadsOnStep(before: Capture, t: Track, calls: seq<LogCall>, loader: Host)
    requires calls != []
    ensures ReadsOn(ReadsOnOne(before, t, calls[0], loader), t.After(calls[0]), calls[1..], loader)
         == ReadsOn(before, t, calls, loader)
  {
    hide Track.After, PacketsAdded, SessionAfter;
    var first := PacketsAdded(t, calls[0], loader);
    var rest := PacketsWritten(t.After(calls[0]), calls[1..], loader);
    assert before.packets + first + rest == before.packets + (first + rest);
  }

  lemma EventReads(log: Log, stamp: string, event: string, fields: Dict, loader: Host)
    requires log.isOpen
    ensures var c := LogCall.RecordEvent(stamp, event, fields);
            var r := ReadLines(log.lines + [EventRecord(stamp, event, fields)], loader);
            && (r.Success? <==> ReadLines(log.lines, loader).Success? && !Spoils(TrackOf(log), c, loader))
            && (r.Success? ==> r.value == ReadsOnOne(ReadLines(log.lines, loader).value, TrackOf(log), c, loader))
  {
    hide ReadLines, EventRecord, ImitatesPacket, PacketOfEvent, ReadPacket;
    var record := EventRecord(stamp, event, fields);
    EventIsObject(stamp, event, fields);
    EventFields(stamp, event, fields, "session");
    EventReadsAsPacket(stamp, event, fields, loader);
    if ReadLines(log.lines, loader).Success? {
      var packets := ReadLines(log.lines, loader).value.packets;
      assert packets + [] == packets;
    }
    if ImitatesHeader(fields) {
      HeaderAppends(log.lines, record, loader);
    } else {
      RecordAppends(log.lines, record, loader);
    }
  }

  lemma PacketReads(log: Log, p: Packet, saver: Host, loader: Host)
    requires log.isOpen
    ensures var r := ReadLines(log.lines + [Object(ToDict(p, saver))], loader);
            && (r.Success? <==> ReadLines(log.lines, loader).Success?)
            && (r.Success? ==>
                r.value == ReadsOnOne(ReadLines(log.lines, loader).value, TrackOf(log), Record(p), loader))
  {
    hide ReadLines, ToDict, ReadPacket;
    PacketLinesAreReadable(p, saver, loader);
    RecordAppends(log.lines, Object(ToDict(p, saver)), loader);
  }

  /** One call: whether the file can still be read, and what it then reads as. */
  lemma StepReads(log: Log, c: LogCall, host: Host, loader: Host)
    ensures var r := ReadLines(Step(log, c, host).lines, loader);
            && (r.Success? <==> ReadLines(log.lines, loader).Success? && !Spoils(TrackOf(log), c, loader))
            && (r.Success? ==> r.value == ReadsOnOne(ReadLines(log.lines, loader).value, TrackOf(log), c, loader))
  {
    hide ReadLines, ToDict, EventRecord, ImitatesPacket, PacketOfEvent;
    if ReadLines(log.lines, loader).Success? {
      var packets := ReadLines(log.lines, loader).value.packets;
      assert packets + [] == packets;
    }
    match c
    case Open =>
      if log.hasPath && !log.isOpen {
        HeaderAppends(log.lines, Header(log.metadata), loader);
      }
    case Close =>
    case Record(p) =>
      if log.isOpen {
        PacketReads(log, p, host, loader);
      }
    case RecordEvent(stamp, event, fields) =>
      if log.isOpen {
        EventReads(log, stamp, event, fields, loader);
      }
    case UpdateCommsLevel(stamp, level) =>
      if log.isOpen {
        LevelImitatesNothing(stamp, level, loader);
        EventReads(log, stamp, "comms_level", map["level" := Text(level)], loader);
      }
  }

  lemma LevelImitatesNothing(stamp: string, level: string, host: Host)
    ensures var fields: Dict := map["level" := Text(level)];
            !ImitatesHeader(fields) && !ImitatesPacket(stamp, fields, host)
  {
  }

  /**
   * Any number of sessions appended to a file. Read line by line, it can be read exactly when it could before and
   * every event written to it imitates a header or a packet. It then gives exactly the packets written to it, in
   * order (those recorded while open and those imitated), and the last session it names.
   */
  lemma {:induction false} RunReads(log: Log, calls: seq<LogCall>, host: Host, loader: Host)
    ensures var r := ReadLines(Run(log, calls, host).lines, loader);
            && (r.Success? <==> ReadLines(log.lines, loader).Success? && !EverSpoils(TrackOf(log), calls, loader))
            && (r.Success? ==> r.value == ReadsOn(ReadLines(log.lines, loader).value, TrackOf(log), calls, loader))
    decreases calls
  {
    hide ReadLines, Step, Track.After, Spoils, PacketsAdded, SessionAfter;
    if calls == [] {
      if ReadLines(log.lines, loader).Success? {
        var packets := ReadLines(log.lines, loader).value.packets;
        assert packets + [] == packets;
      }
    } else {
      StepReads(log, calls[0], host, loader);
      StepTracks(log, calls[0], host);
      RunReads(Step(log, calls[0], host), calls[1..], host, loader);
      if ReadLines(log.lines, loader).Success? {
        ReadsOnStep(ReadLines(log.lines, loader).value, TrackOf(log), calls, loader);
      }
    }
  }

  /** An ordinary event, with no fields of its own, makes any file unreadable. */
  lemma EventSpoilsTheFile(log: Log, stamp: string, event: string, host: Host)
    requires log.isOpen
    ensures ReadLines(log.RecordEvent(stamp, event, map[]).lines, host).Failure?
  {
    EventReads(log, stamp, event, map[], host);
  }

  /** An event with type session replaces the session of the file. */
  lemma EventCanPassForHeader(log: Log, stamp: string, event: string, host: Host)
    requires log.isOpen && ReadLines(log.lines, host).Success?
    ensures var fields: Dict := map["type" := Text("session")];
            ReadLines(log.RecordEvent(stamp, event, fields).lines, host)
            == Success(Capture(ReadLines(log.lines, host).value.packets, EventRecord(stamp, event, fields)))
  {
    hide ReadLines, EventRecord, ImitatesPacket;
    var fields: Dict := map["type" := Text("session")];
    EventReads(log, stamp, event, fields, host);
    var packets := ReadLines(log.lines, host).value.packets;
    assert packets + [] == packets;
  }

  // ------------------------------------------------- what the calls alone decide

  function AfterAll(t: Track, calls: seq<LogCall>): Track
    decreases calls
  {
    if calls == [] then t else AfterAll(t.After(calls[0]), calls[1..])
  }

  lemma {:induction false} RunTracks(log: Log, calls: seq<LogCall>, host: Host)
    ensures TrackOf(Run(log, calls, host)) == AfterAll(TrackOf(log), calls)
    decreases calls
  {
    hide Step, Track.After;
    if calls != [] {
      StepTracks(log, calls[0], host);
      RunTracks(Step(log, calls[0], host), calls[1..], host);
    }
  }

  /** Before call number `i`: opened earlier and not closed since, or open from the start and never closed. */
  ghost predicate OpenBefore(t: Track, calls: seq<LogCall>, i: nat)
    requires i <= |calls|
  {
    || (t.open && forall k :: 0 <= k < i ==> !calls[k].Close?)
    || (t.hasPath && exists j :: 0 <= j < i && calls[j].Open? && forall k :: j < k < i ==> !calls[k].Close?)
  }

  /** The level named by the last call before number `i` to name one, if any. */
  ghost predicate LevelBefore(t: Track, calls: seq<LogCall>, i: nat, level: string)
    requires i <= |calls|
  {
    || (level == t.metadata.commsLevel && forall k :: 0 <= k < i ==> !calls[k].UpdateCommsLevel?)
    || (exists j :: 0 <= j < i && calls[j].UpdateCommsLevel? && calls[j].level == level
                    && forall k :: j < k < i ==> !calls[k].UpdateCommsLevel?)
  }

  lemma {:induction false} AfterAllSnoc(t: Track, calls: seq<LogCall>, c: LogCall)
    ensures AfterAll(t, calls + [c]) == AfterAll(t, calls).After(c)
    decreases calls
  {
    if calls == [] {
      assert (calls + [c])[1..] == [];
    } else {
      assert (calls + [c])[1..] == calls[1..] + [c];
      AfterAllSnoc(t.After(calls[0]), calls[1..], c);
    }
  }

  /** After any run, a logger is open exactly if the calls opened it and did not close it since. */
  lemma OpenExactly(log: Log, calls: seq<LogCall>, host: Host)
    ensures Run(log, calls, host).isOpen <==> OpenBefore(TrackOf(log), calls, |calls|)
  {
    RunTracks(log, calls, host);
    TrackExactly(TrackOf(log), calls);
  }

  /** When the logger is open, and which level its metadata show, in terms of the calls made. */
  lemma {:induction false} TrackExactly(t: Track, calls: seq<LogCall>)
    ensures var u := AfterAll(t, calls);
            && (u.open <==> OpenBefore(t, calls, |calls|))
            && LevelBefore(t, calls, |calls|, u.metadata.commsLevel)
            && u.hasPath == t.hasPath && u.metadata.fields == t.metadata.fields
    decreases |calls|
  {
    if calls != [] {
      var n := |calls| - 1;
      TrackExactly(t, calls[..n]);
      assert calls == calls[..n] + [calls[n]];
      AfterAllSnoc(t, calls[..n], calls[n]);
      OpenOneLater(t, calls);
      LevelOneLater(t, calls);
    }
  }

  lemma OpenOneLater(t: Track, calls: seq<LogCall>)
    requires calls != []
    ensures var n := |calls| - 1;
            OpenBefore(t, calls, |calls|)
            <==> (OpenBefore(t, calls[..n], n) && !calls[n].Close?) || (t.hasPath && calls[n].Open?)
  {
    var n := |calls| - 1;
    assert forall k :: 0 <= k < n ==> calls[..n][k] == calls[k];
    if OpenBefore(t, calls[..n], n) && !calls[n].Close? && !(t.open && forall k :: 0 <= k < n ==> !calls[k].Close?) {
      var j :| 0 <= j < n && calls[..n][j].Open? && forall k :: j < k < n ==> !calls[..n][k].Close?;
      assert calls[j].Open? && forall k :: j < k < n + 1 ==> !calls[k].Close?;
    }
  }

  lemma LevelOneLater(t: Track, calls: seq<LogCall>)
    requires calls != []
    ensures var n := |calls| - 1;
            forall level :: LevelBefore(t, calls, |calls|, level)
                       <==> if calls[n].UpdateCommsLevel? then level == calls[n].level
                            else LevelBefore(t, calls[..n], n, level)
  {
    var n := |calls| - 1;
    assert forall k :: 0 <= k < n ==> calls[..n][k] == calls[k];
  }

  /** The packets of the calls made while open, by position. */
  ghost function WrittenWhileOpen(t: Track, calls: seq<LogCall>, loader: Host): seq<Packet>
    decreases |calls|
  {
    if calls == [] then []
    else
      var n := |calls| - 1;
      WrittenWhileOpen(t, calls[..n], loader)
      + if OpenBefore(t, calls[..n], n) then PacketsOf(calls[n], loader) else []
  }

  lemma {:induction false} PacketsWrittenSnoc(t: Track, calls: seq<LogCall>, c: LogCall, loader: Host)
    ensures PacketsWritten(t, calls + [c], loader)
         == PacketsWritten(t, calls, loader) + PacketsAdded(AfterAll(t, calls), c, loader)
    decreases calls
  {
    hide PacketsAdded, Track.After;
    if calls == [] {
      assert (calls + [c])[1..] == [];
    } else {
      assert (calls + [c])[1..] == calls[1..] + [c];
      PacketsWrittenSnoc(t.After(calls[0]), calls[1..], c, loader);
    }
  }

  /** The packets in the file are those of the calls made between an open and the next close. */
  lemma {:induction false} WrittenExactly(t: Track, calls: seq<LogCall>, loader: Host)
    ensures PacketsWritten(t, calls, loader) == WrittenWhileOpen(t, calls, loader)
    decreases |calls|
  {
    hide PacketsOf, OpenBefore;
    if calls != [] {
      var n := |calls| - 1;
      WrittenExactly(t, calls[..n], loader);
      assert calls == calls[..n] + [calls[n]];
      PacketsWrittenSnoc(t, calls[..n], calls[n], loader);
      TrackExactly(t, calls[..n]);
    }
  }

  lemma {:induction false} LastSessionSnoc(t: Track, calls: seq<LogCall>, c: LogCall, before: Json)
    ensures LastSession(t, calls + [c], before) == SessionAfter(AfterAll(t, calls), c, LastSession(t, calls, before))
    decreases calls
  {
    hide SessionAfter, Track.After;
    if calls == [] {
      assert (calls + [c])[1..] == [];
    } else {
      assert (calls + [c])[1..] == calls[1..] + [c];
      LastSessionSnoc(t.After(calls[0]), calls[1..], c, SessionAfter(t, calls[0], before));
    }
  }

  /** Call number `i` names a session, and none after it does. */
  ghost predicate NamesLast(t: Track, calls: seq<LogCall>, i: nat) {
    && i < |calls| && NamesSession(AfterAll(t, calls[..i]), calls[i])
    && forall k :: i < k < |calls| ==> !NamesSession(AfterAll(t, calls[..k]), calls[k])
  }

  /** When the last call to name a session is an `open`, it is that of the logger's metadata at that moment. */
  lemma {:induction false} SessionExactly(t: Track, calls: seq<LogCall>, before: Json, i: nat)
    requires NamesLast(t, calls, i) && calls[i].Open?
    ensures !OpenBefore(t, calls[..i], i) && t.hasPath
    ensures var metadata := AfterAll(t, calls[..i]).metadata;
            && LastSession(t, calls, before) == metadata.ToJson()
            && metadata.fields == t.metadata.fields && LevelBefore(t, calls[..i], i, metadata.commsLevel)
    decreases |calls|
  {
    hide OpenBefore, LevelBefore, SessionAfter, ImitatesHeader;
    var n := |calls| - 1;
    assert calls == calls[..n] + [calls[n]];
    LastSessionSnoc(t, calls[..n], calls[n], before);
    TrackExactly(t, calls[..i]);
    if i < n {
      assert forall k :: 0 <= k <= n ==> calls[..n][..k] == calls[..k];
      SessionExactly(t, calls[..n], before, i);
      NotNamedKeeps(AfterAll(t, calls[..n]), calls[n], LastSession(t, calls[..n], before));
    } else {
      OpenNames(AfterAll(t, calls[..n]), LastSession(t, calls[..n], before));
    }
  }

  lemma NotNamedKeeps(t: Track, c: LogCall, before: Json)
    requires !NamesSession(t, c)
    ensures SessionAfter(t, c, before) == before
  {
  }

  lemma OpenNames(t: Track, before: Json)
    requires NamesSession(t, LogCall.Open)
    ensures SessionAfter(t, LogCall.Open, before) == t.metadata.ToJson()
  {
  }

  // ---------------------------------------------------------------------- counts

  /** `counts` is, per direction, how many of the logger's packets go that way. */
  ghost predicate CountsMatch(log: Log) {
    forall d: Direction :: log.Count(d) == |PayloadsOf(log.packets, d)|
  }

  function Recorded(calls: seq<LogCall>): seq<Packet> {
    if calls == [] then []
    else (if calls[0].Record? then [calls[0].packet] else []) + Recorded(calls[1..])
  }

  lemma StepKeepsCounts(log: Log, c: LogCall, host: Host)
    requires CountsMatch(log)
    ensures CountsMatch(Step(log, c, host))
    ensures Step(log, c, host).packets == log.packets + if c.Record? then [c.packet] else []
  {
    if c.Record? {
      forall d: Direction ensures Step(log, c, host).Count(d) == |PayloadsOf(log.packets + [c.packet], d)| {
        PayloadsOfConcat(log.packets, [c.packet], d);
        assert [c.packet][1..] == [];
      }
    }
  }

  /** Memory keeps every packet recorded, open or not, and the counts stay in step with it. */
  lemma {:induction false} RunKeepsCounts(log: Log, calls: seq<LogCall>, host: Host)
    requires CountsMatch(log)
    ensures CountsMatch(Run(log, calls, host))
    ensures Run(log, calls, host).packets == log.packets + Recorded(calls)
    decreases calls
  {
    hide Step, CountsMatch;
    if calls != [] {
      StepKeepsCounts(log, calls[0], host);
      RunKeepsCounts(Step(log, calls[0], host), calls[1..], host);
      var first, rest := if calls[0].Record? then [calls[0].packet] else [], Recorded(calls[1..]);
      assert Recorded(calls) == first + rest;
      assert log.packets + first + rest == log.packets + (first + rest);
    } else {
      assert Recorded(calls) == [] && log.packets + [] == log.packets;
    }
  }

  // --------------------------------------------------------------- whole files

  ghost predicate StartsWithHeader(records: seq<Json>) {
    records == [] || exists m: Metadata :: records[0] == Header(m)
  }

  lemma {:induction false} RunStartsWithHeader(log: Log, calls: seq<LogCall>, host: Host)
    requires StartsWithHeader(log.lines) && (log.lines == [] ==> !log.isOpen)
    ensures StartsWithHeader(Run(log, calls, host).lines)
    decreases calls
  {
    hide Header, EventRecord, ToDict;
    if calls != [] {
      var next := Step(log, calls[0], host);
      if log.lines != [] {
        assert next.lines[0] == log.lines[0];
      } else if next.lines != [] {
        assert next.lines[0] == Header(log.metadata);
      }
      RunStartsWithHeader(next, calls[1..], host);
    }
  }

  lemma LoneHeader(m: Metadata, host: Host)
    ensures ReadSorted(Documented(Some(Header(m))), host) == ReadLines([Header(m)], host)
  {
    assert [Header(m)] == [] + [Header(m)] && AsLines([]) == [];
    HeaderAppends([], Header(m), host);
    assert "comms_level" in m.ToJson().fields;
    assert Documented(Some(Header(m))) == Success(Sorted([], m.ToJson()));
  }

  /** On a file the logger started, the marker in the first 4096 characters spoils everything but a lone header. */
  lemma LayoutDecides(records: seq<Json>, marker: bool, host: Host)
    requires StartsWithHeader(records)
    ensures Load(JsonLines(records, marker), host)
         == if records == [] || (marker && |records| > 1) then Failure(Malformed) else ReadLines(records, host)
  {
    var file := JsonLines(records, marker);
    assert file.lines == AsLines(records);
    if records == [] {
      assert AllBlank(file.lines);
    } else {
      assert file.lines[0] == Value(records[0]) && file.lines[0] in file.lines;
      if marker && |records| == 1 {
        var m: Metadata :| records[0] == Header(m);
        LoneHeader(m, host);
        assert records == [Header(m)];
      }
    }
  }

  /**
   * Save and load, for any number of sessions appended to a readable file: loading succeeds exactly when something
   * was written, no event that imitates nothing was, and the layout is not mistaken; it then returns exactly the
   * packets written, in order, with the last session named.
   */
  lemma SaveAndLoad(log: Log, calls: seq<LogCall>, marker: bool, saver: Host, loader: Host, before: Capture)
    requires StartsWithHeader(log.lines) && (log.lines == [] ==> !log.isOpen)
    requires ReadLines(log.lines, loader) == Success(before)
    ensures var records := Run(log, calls, saver).lines;
            var loaded := Load(JsonLines(records, marker), loader);
            && (loaded.Success? <==>
                records != [] && !EverSpoils(TrackOf(log), calls, loader) && (!marker || |records| == 1))
            && (loaded.Success? ==> loaded.value == ReadsOn(before, TrackOf(log), calls, loader))
  {
    hide ReadLines, Load;
    RunReads(log, calls, saver, loader);
    RunStartsWithHeader(log, calls, saver);
    LayoutDecides(Run(log, calls, saver).lines, marker, loader);
  }

  /**
   * A header whose note is the word packets, not too far into the file, and one packet: they cannot be loaded,
   * though they read well line by line. `before` and `after` are the text of the file around the note.
   */
  lemma {:induction false} MarkerSpoilsTheFile(
      fields: Dict, level: string, p: Packet, before: string, after: string, saver: Host, loader: Host)
    requires |before| + |MARKER| <= REACH
    ensures var m := Metadata(fields["notes" := Text("packets")], level);
            var text := before + MARKER + after;
            var records := [Header(m), Object(ToDict(p, saver))];
            && ReadLines(records, loader) == Success(Capture([p], m.ToJson()))
            && Load(JsonLines(records, InReach(text)), loader) == Failure(Malformed)
  {
    hide ReadLines, ToDict;
    var m := Metadata(fields["notes" := Text("packets")], level);
    var log := Log(true, false, m, [], map[], []);
    var open := log.Open();
    assert [] + [Header(m)] == [Header(m)];
    assert [Header(m)] + [Object(ToDict(p, saver))] == [Header(m), Object(ToDict(p, saver))];
    EmptyFileReads(loader);
    StepReads(log, LogCall.Open, saver, loader);
    PacketReads(open, p, saver, loader);
    assert [] + [] + [p] == [p];
    MarkerItself();
    FoundWithin(before, MARKER, after, 0);
    assert InReach(before + MARKER + after) by { assert OccursAt(before + MARKER + after, |before|); }
    LayoutDecides([Header(m), Object(ToDict(p, saver))], true, loader);
  }

  lemma EmptyFileReads(host: Host)
    ensures ReadLines([], host) == Success(Capture([], Object(map[])))
  {
    assert AsLines([]) == [];
  }

  /** An event naming a direction and a payload in its own fields is loaded as a packet that never existed. */
  lemma EventCanPassForPacket(stamp: string, host: Host)
    requires host.parseIso(stamp).Some?
    ensures var fields := map["direction" := Text("TX"), "raw_hex" := Text("")];
            ReadPacket(EventRecord(stamp, "note", fields), host)
            == Success(Packet(TX, [], host.parseIso(stamp).value, map[], None, Null))
  {
    var fields := map["direction" := Text("TX"), "raw_hex" := Text("")];
    var record := EventRecord(stamp, "note", fields).fields;
    assert record["direction"] == Text("TX") && record["raw_hex"] == Text("") && record["timestamp"] == Text(stamp);
    assert FormatHex([], " ") == "";
    FormatThenParse([], " ");
    assert Object(record).Get("transport") == Object(record).Get("decoded") == Object(record).Get("note") == Null;
  }

  // ---------------------------------------------------------------------- export

  /** The document `export_capture` writes for a capture it loaded. */
  function ExportDocument(c: Capture, host: Host): Json {
    Object(map["format" := Text(FORMAT), "version" := Number(1.0), "session" := c.session,
               "packets" := List(Dicts(c.packets, host))])
  }

  lemma {:induction false} DictsAreReadable(packets: seq<Packet>, saver: Host, loader: Host)
    ensures ReadPackets(Dicts(packets, saver), loader) == Success(packets)
  {
    hide ReadPacket, ToDict;
    if packets != [] {
      var n := |packets| - 1;
      var records := Dicts(packets, saver);
      assert records[..n] == Dicts(packets[..n], saver);
      DictsAreReadable(packets[..n], saver, loader);
      PacketLinesAreReadable(packets[n], saver, loader);
      assert packets == packets[..n] + [packets[n]];
    }
  }

  lemma ExportIsADocument(c: Capture, host: Host)
    ensures Documented(Some(ExportDocument(c, host)))
         == Success(Sorted(Dicts(c.packets, host), if c.session.Truthy() then c.session else Object(map[])))
  {
  }

  /**
   * Exporting to JSON and loading again gives the same packets and the same session, an empty one for a session
   * that is false in Python, exactly when the marker is within the first 4096 characters.
   */
  lemma {:induction false} ExportRoundTrip(c: Capture, marker: bool, saver: Host, loader: Host)
    ensures Load(IndentedDocument(ExportDocument(c, saver), marker), loader)
         == if marker then Success(Capture(c.packets, if c.session.Truthy() then c.session else Object(map[])))
            else Failure(Malformed)
  {
    hide ReadPackets, FromDict, ToDict, Documented, ExportDocument;
    var file := IndentedDocument(ExportDocument(c, saver), marker);
    assert file.lines[0] == Garbage && file.lines[0] in file.lines && file.lines[..0] == [];
    assert SortLines(file.lines) == Failure(Malformed);
    ExportIsADocument(c, saver);
    DictsAreReadable(c.packets, saver, loader);
  }

  /**
   * The text of the exported document, given the texts of its session and of its packet list: an export can be
   * loaded exactly when the marker occurs early in the session or the session is no longer than 4021 characters.
   */
  lemma ExportLoads(c: Capture, session: string, packets: string, saver: Host, loader: Host)
    ensures var file := IndentedDocument(ExportDocument(c, saver), InReach(ExportText(session, packets)));
            Load(file, loader)
            == if |session| <= 4021 || exists i | 0 <= i <= 4025 :: OccursAt(session, i)
               then Success(Capture(c.packets, if c.session.Truthy() then c.session else Object(map[])))
               else Failure(Malformed)
  {
    hide Load, InReach, ExportText, OccursAt;
    MarkerOfExport(session, packets);
    ExportRoundTrip(c, InReach(ExportText(session, packets)), saver, loader);
  }

  /** An export of a session with one long note cannot be loaded, whatever its packets. */
  lemma UnmarkedExportIsLost(n: nat, packets: seq<Packet>, packetText: string, saver: Host, loader: Host)
    requires n >= 4096
    ensures var note := seq(n, _ => 'x');
            var c := Capture(packets, Object(map["notes" := Text(note)]));
            var session := "{\n    \"notes\": \"" + note + "\"\n  }";
            Load(IndentedDocument(ExportDocument(c, saver), InReach(ExportText(session, packetText))), loader)
            == Failure(Malformed)
  {
    hide Load, ExportText, InReach, ExportDocument;
    var note := seq(n, _ => 'x');
    var opening, closing := "{\n    \"notes\": \"", "\"\n  }";
    var session := opening + note + closing;
    assert forall i :: 0 <= i < |session| ==> session[i] != 'p' by {
      assert forall i :: 0 <= i < |opening| ==> opening[i] != 'p';
      assert forall i :: 0 <= i < |closing| ==> closing[i] != 'p';
    }
    forall i | 0 <= i <= 4025 ensures !OccursAt(session, i) {
      if OccursAt(session, i) {
        CharacterOfMarker(session, i, 1);
        assert false;
      }
    }
    ExportLoads(Capture(packets, Object(map["notes" := Text(note)])), session, packetText, saver, loader);
  }

  /**
   * The document of the logger itself, with the marker in reach, loads as everything in its memory, also what was
   * recorded while closed; out of reach, it does not load.
   */
  lemma {:induction false} DocumentRoundTrip(log: Log, marker: bool, saver: Host, loader: Host)
    ensures Load(IndentedDocument(log.ToDocument(saver), marker), loader)
         == if marker then Success(Capture(log.packets, log.metadata.ToJson())) else Failure(Malformed)
  {
    var c := Capture(log.packets, log.metadata.ToJson());
    assert log.ToDocument(saver) == ExportDocument(c, saver);
    assert "comms_level" in c.session.fields;
    ExportRoundTrip(c, marker, saver, loader);
  }
}
