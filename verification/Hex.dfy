/** The hex text of a payload: `format_hex` and `parse_hex` of packet.py. */
module Hex {
  import opened Wrappers

  type Byte = b: int | 0 <= b < 256
  type Bytes = seq<Byte>

  datatype HexError = OddDigits | InvalidDigit

  // ---------------------------------------------------------------- printing

  predicate IsDigit(c: char) {
    '0' <= c <= '9' || 'A' <= c <= 'F' || 'a' <= c <= 'f'
  }

  function Nibble(c: char): (n: int)
    requires IsDigit(c)
    ensures 0 <= n < 16
  {
    if c <= '9' then c as int - '0' as int
    else if c <= 'F' then c as int - 'A' as int + 10
    else c as int - 'a' as int + 10
  }

  function Digit(n: int): (c: char)
    requires 0 <= n < 16
    ensures IsDigit(c) && Nibble(c) == n && !('a' <= c <= 'f')
  {
    if n < 10 then '0' + n as char else 'A' + (n - 10) as char
  }

  function Pair(b: Byte): string {
    [Digit(b / 16), Digit(b % 16)]
  }

  function FormatHex(data: Bytes, separator: string): string {
    if |data| == 0 then ""
    else if |data| == 1 then Pair(data[0])
    else Pair(data[0]) + separator + FormatHex(data[1..], separator)
  }

  // ----------------------------------------------------------------- parsing

  /** `text.replace(ab, "")`: one pass, left to right, over non-overlapping occurrences. */
  function RemovePair(text: string, a: char, b: char): string {
    if |text| < 2 then text
    else if text[0] == a && text[1] == b then RemovePair(text[2..], a, b)
    else [text[0]] + RemovePair(text[1..], a, b)
  }

  /** `text` without any character of `chars`; for one character this is `text.replace(c, "")`. */
  function Without(text: string, chars: string): string {
    if text == "" then ""
    else if text[0] in chars then Without(text[1..], chars)
    else [text[0]] + Without(text[1..], chars)
  }

  /** The characters `parse_hex` strips. */
  predicate IsSeparator(c: char) {
    c == ' ' || c == ':' || c == '-' || c == '\n' || c == '\t' || c == ','
  }

  function Cleaned(text: string): string {
    if text == "" then ""
    else if IsSeparator(text[0]) then Cleaned(text[1..])
    else [text[0]] + Cleaned(text[1..])
  }

  /** The whitespace `bytes.fromhex` tolerates between two pairs. */
  predicate IsSpace(c: char) {
    c == ' ' || '\t' <= c <= '\r'
  }

  /** `bytes.fromhex`. */
  function FromHex(text: string): Result<Bytes, HexError> {
    if text == "" then Success([])
    else if IsSpace(text[0]) then FromHex(text[1..])
    else if |text| >= 2 && IsDigit(text[0]) && IsDigit(text[1]) then
      match FromHex(text[2..])
      case Failure(e) => Failure(e)
      case Success(rest) =>
        Success([Nibble(text[0]) * 16 + Nibble(text[1])] + rest)
    else Failure(InvalidDigit)
  }

  function Unprefixed(text: string): string {
    RemovePair(RemovePair(text, '0', 'x'), '0', 'X')
  }

  function ParseHex(text: string): Result<Bytes, HexError> {
    var cleaned := Cleaned(Unprefixed(text));
    if |cleaned| % 2 == 1 then Failure(OddDigits) else FromHex(cleaned)
  }

  /** The characters stripped, in the order the source strips them. */
  const STRIPPED: string := [' ', ':', '-', '\n', '\t', ',']

  /** The parser as written: six replaces one after the other amount to a single filter. */
  method Parse(text: string) returns (r: Result<Bytes, HexError>)
    ensures r == ParseHex(text)
  {
    var cleaned := Unprefixed(text);
    WithoutNothing(cleaned);
    for i := 0 to |STRIPPED|
      invariant cleaned == Without(Unprefixed(text), STRIPPED[..i])
    {
      WithoutMore(Unprefixed(text), STRIPPED[..i], STRIPPED[i]);
      cleaned := Without(cleaned, [STRIPPED[i]]);
      assert STRIPPED[..i] + [STRIPPED[i]] == STRIPPED[..i + 1];
    }
    assert STRIPPED[..|STRIPPED|] == STRIPPED;
    WithoutStrippedIsCleaned(Unprefixed(text));
    if |cleaned| % 2 == 1 {
      r := Failure(OddDigits);
    } else {
      r := FromHex(cleaned);
    }
  }

  lemma SeparatorsAre(c: char)
    ensures IsSeparator(c) <==> c in " :-\n\t,"
  {
  }

  lemma {:induction false} WithoutNothing(text: string)
    ensures Without(text, "") == text
  {
    if text != "" {
      WithoutNothing(text[1..]);
    }
  }

  lemma {:induction false} WithoutMore(text: string, chars: string, c: char)
    ensures Without(Without(text, chars), [c]) == Without(text, chars + [c])
  {
    if text != "" {
      WithoutMore(text[1..], chars, c);
    }
  }

  lemma {:induction false} WithoutStrippedIsCleaned(text: string)
    ensures Without(text, STRIPPED) == Cleaned(text)
  {
    if text != "" {
      WithoutStrippedIsCleaned(text[1..]);
    }
  }

  lemma {:induction false} CleanedConcat(a: string, b: string)
    ensures Cleaned(a + b) == Cleaned(a) + Cleaned(b)
  {
    if a == "" {
      assert a + b == b;
    } else {
      assert (a + b)[1..] == a[1..] + b;
      CleanedConcat(a[1..], b);
    }
  }

  lemma {:induction false} CleanedGap(text: Gap)
    ensures Cleaned(text) == ""
  {
    if text != "" {
      CleanedGap(text[1..]);
    }
  }

  // ------------------------------------------- every way of writing the bytes

  datatype Mark = Bare | Lower | Upper

  type HexDigit = c: char | IsDigit(c) witness '0'
  type Gap = s: string | forall i :: 0 <= i < |s| ==> IsSeparator(s[i])

  /** One byte of a hex text: an optional 0x or 0X, two digits of either case, then separators. */
  datatype Cell = Cell(mark: Mark, high: HexDigit, low: HexDigit, gap: Gap) {
    function Value(): Byte {
      Nibble(high) * 16 + Nibble(low)
    }

    function Body(): string {
      [high, low] + gap
    }

    function Text(): string {
      (match mark case Bare => "" case Lower => "0x" case Upper => "0X") + Body()
    }
  }

  function Render(cells: seq<Cell>): string {
    if cells == [] then "" else cells[0].Text() + Render(cells[1..])
  }

  function Values(cells: seq<Cell>): Bytes {
    if cells == [] then [] else [cells[0].Value()] + Values(cells[1..])
  }

  function Unmark(cell: Cell, mark: Mark): Cell {
    if cell.mark == mark then cell.(mark := Bare) else cell
  }

  function Unmarked(cells: seq<Cell>, mark: Mark): seq<Cell> {
    if cells == [] then [] else [Unmark(cells[0], mark)] + Unmarked(cells[1..], mark)
  }

  ghost predicate Lacks(cells: seq<Cell>, mark: Mark) {
    forall i :: 0 <= i < |cells| ==> cells[i].mark != mark
  }

  lemma {:induction false} UnmarkedKeepsValues(cells: seq<Cell>, mark: Mark)
    ensures mark != Bare ==> Lacks(Unmarked(cells, mark), mark)
    ensures forall m: Mark :: m != Bare && Lacks(cells, m) ==> Lacks(Unmarked(cells, mark), m)
    ensures Values(Unmarked(cells, mark)) == Values(cells)
  {
    if cells != [] {
      UnmarkedKeepsValues(cells[1..], mark);
      forall m: Mark | Lacks(cells, m) ensures Lacks(cells[1..], m) {}
      var rest := Unmarked(cells[1..], mark);
      assert Unmarked(cells, mark)[1..] == rest;
      forall m: Mark | m != Bare && Lacks(rest, m) && cells[0].mark != m ensures Lacks(Unmarked(cells, mark), m) {}
    }
  }

  /** A stretch without `b`, followed by text not starting with `b`, survives the replace untouched. */
  lemma {:induction false} RemovePairSkips(head: string, tail: string, a: char, b: char)
    requires b !in head
    requires tail == "" || tail[0] != b
    ensures RemovePair(head + tail, a, b) == head + RemovePair(tail, a, b)
  {
    if head == "" {
      assert head + tail == tail;
    } else {
      assert (head + tail)[1..] == head[1..] + tail;
      RemovePairSkips(head[1..], tail, a, b);
      if |head + tail| >= 2 {
        assert (head + tail)[1] == if |head| > 1 then head[1] else tail[0];
      } else {
        assert tail == "" && head[1..] == "";
      }
    }
  }

  lemma RemovePairTakes(a: char, b: char, rest: string)
    ensures RemovePair([a, b] + rest, a, b) == RemovePair(rest, a, b)
  {
    assert ([a, b] + rest)[2..] == rest;
  }

  /** The replace cuts an occurrence out and joins nothing new to one. */
  lemma {:induction false} RemovePairCuts(head: string, a: char, b: char, tail: string)
    requires a != b
    ensures RemovePair(head + [a, b] + tail, a, b) == RemovePair(head, a, b) + RemovePair(tail, a, b)
  {
    hide RemovePair;
    var text := head + [a, b] + tail;
    if head == "" {
      assert text == [a, b] + tail;
      RemovePairTakes(a, b, tail);
      RemovePairLeaves("", a, b);
    } else if |head| >= 2 && head[0] == a && head[1] == b {
      assert head == [a, b] + head[2..] && text == [a, b] + (head[2..] + [a, b] + tail);
      RemovePairTakes(a, b, head[2..]);
      RemovePairTakes(a, b, head[2..] + [a, b] + tail);
      RemovePairCuts(head[2..], a, b, tail);
    } else {
      assert text[1..] == head[1..] + [a, b] + tail;
      assert text[1] == if |head| >= 2 then head[1] else a;
      RemovePairCuts(head[1..], a, b, tail);
      RemovePairPasses(head, a, b);
      RemovePairPasses(text, a, b);
    }
  }

  lemma RemovePairPasses(text: string, a: char, b: char)
    requires text != "" && !(|text| >= 2 && text[0] == a && text[1] == b)
    ensures RemovePair(text, a, b) == [text[0]] + RemovePair(text[1..], a, b)
  {
  }

  /** Text without an occurrence it leaves alone. */
  lemma {:induction false} RemovePairLeaves(text: string, a: char, b: char)
    requires forall i :: 0 <= i < |text| - 1 ==> !(text[i] == a && text[i + 1] == b)
    ensures RemovePair(text, a, b) == text
  {
    if text != "" {
      RemovePairPasses(text, a, b);
      RemovePairLeaves(text[1..], a, b);
    }
  }

  lemma RenderStart(cells: seq<Cell>)
    ensures Render(cells) == "" || IsDigit(Render(cells)[0])
  {
    if cells != [] {
      assert Render(cells)[0] == cells[0].Text()[0];
    }
  }

  lemma {:induction false} RemovePairUnmarksOne(cell: Cell, tail: string, mark: Mark)
    requires mark != Bare
    requires tail == "" || IsDigit(tail[0])
    ensures var b := if mark == Lower then 'x' else 'X';
            RemovePair(cell.Text() + tail, '0', b) == Unmark(cell, mark).Text() + RemovePair(tail, '0', b)
  {
    hide RemovePair;
    var b := if mark == Lower then 'x' else 'X';
    if cell.mark == mark {
      RemovePairSkips(cell.Body(), tail, '0', b);
      RemovePairTakes('0', b, cell.Body() + tail);
      assert cell.Text() + tail == ['0', b] + (cell.Body() + tail);
      assert Unmark(cell, mark).Text() == cell.Body();
    } else {
      RemovePairSkips(cell.Text(), tail, '0', b);
    }
  }

  lemma {:induction false} RemovePairUnmarks(cells: seq<Cell>, mark: Mark)
    requires mark != Bare
    ensures RemovePair(Render(cells), '0', if mark == Lower then 'x' else 'X') == Render(Unmarked(cells, mark))
  {
    if cells != [] {
      RemovePairUnmarks(cells[1..], mark);
      RenderStart(cells[1..]);
      RemovePairUnmarksOne(cells[0], Render(cells[1..]), mark);
      assert Unmarked(cells, mark)[1..] == Unmarked(cells[1..], mark);
    }
  }

  lemma CleanedDigit(c: HexDigit)
    ensures Cleaned([c]) == [c]
  {
    assert [c][1..] == "";
  }

  lemma CleanedCell(cell: Cell, tail: string)
    requires cell.mark == Bare
    ensures Cleaned(cell.Text() + tail) == [cell.high, cell.low] + Cleaned(tail)
  {
    hide Cleaned;
    CleanedGap(cell.gap);
    CleanedConcat(cell.gap, tail);
    CleanedConcat([cell.high, cell.low], cell.gap + tail);
    CleanedConcat([cell.high], [cell.low]);
    CleanedDigit(cell.high);
    CleanedDigit(cell.low);
    assert [cell.high] + [cell.low] == [cell.high, cell.low];
    assert cell.Text() + tail == [cell.high, cell.low] + (cell.gap + tail);
  }

  lemma {:induction false} BareCellsParse(cells: seq<Cell>)
    requires Lacks(cells, Lower) && Lacks(cells, Upper)
    ensures |Cleaned(Render(cells))| == 2 * |cells|
    ensures FromHex(Cleaned(Render(cells))) == Success(Values(cells))
  {
    if cells != [] {
      BareCellsParse(cells[1..]);
      CleanedCell(cells[0], Render(cells[1..]));
      assert Cleaned(Render(cells))[2..] == Cleaned(Render(cells[1..]));
    }
  }

  lemma OnePass(lead: Gap, cells: seq<Cell>, mark: Mark)
    requires mark != Bare
    ensures RemovePair(lead + Render(cells), '0', if mark == Lower then 'x' else 'X')
         == lead + Render(Unmarked(cells, mark))
  {
    RenderStart(cells);
    RemovePairUnmarks(cells, mark);
    RemovePairSkips(lead, Render(cells), '0', if mark == Lower then 'x' else 'X');
  }

  /** Whatever the prefixes, digit case and separators, parsing recovers exactly the bytes written. */
  lemma ParseInvertsEveryLayout(lead: Gap, cells: seq<Cell>)
    ensures ParseHex(lead + Render(cells)) == Success(Values(cells))
  {
    hide RemovePair, Unmarked, Render;
    var once := Unmarked(cells, Lower);
    var twice := Unmarked(once, Upper);
    OnePass(lead, cells, Lower);
    OnePass(lead, once, Upper);
    assert Cleaned(lead + Render(twice)) == Cleaned(Render(twice)) by {
      CleanedConcat(lead, Render(twice));
      CleanedGap(lead);
    }
    UnmarkedKeepsValues(cells, Lower);
    UnmarkedKeepsValues(once, Upper);
    BareCellsParse(twice);
  }

  function CellsOf(data: Bytes, separator: Gap): seq<Cell> {
    if data == [] then []
    else [Cell(Bare, Digit(data[0] / 16), Digit(data[0] % 16), if |data| == 1 then "" else separator)]
         + CellsOf(data[1..], separator)
  }

  lemma {:induction false} FormatIsALayout(data: Bytes, separator: Gap)
    ensures Render(CellsOf(data, separator)) == FormatHex(data, separator)
    ensures Values(CellsOf(data, separator)) == data
  {
    if data != [] {
      FormatIsALayout(data[1..], separator);
      var cells := CellsOf(data, separator);
      assert cells[1..] == CellsOf(data[1..], separator);
      assert cells[0].Text() == Pair(data[0]) + if |data| == 1 then "" else separator;
      assert cells[0].Value() == data[0];
    }
  }

  /** `parse_hex(format_hex(b, separator=s)) == b` for every separator built from stripped characters. */
  lemma FormatThenParse(data: Bytes, separator: Gap)
    ensures ParseHex(FormatHex(data, separator)) == Success(data)
  {
    FormatIsALayout(data, separator);
    assert "" + FormatHex(data, separator) == FormatHex(data, separator);
    ParseInvertsEveryLayout("", CellsOf(data, separator));
  }

  // ---------------------------------------------------------- parse, then print

  function UpperDigit(c: char): char {
    if 'a' <= c <= 'f' then c - 'a' + 'A' else c
  }

  function LowerDigit(c: char): char {
    if 'A' <= c <= 'F' then c - 'A' + 'a' else c
  }

  const DIGITS := "0123456789ABCDEF"

  /** A digit of either case is worth its place among the sixteen, and printed as the upper-case one. */
  lemma DigitsInOrder(c: HexDigit, n: nat)
    requires n < 16
    ensures DIGITS[Nibble(c)] == UpperDigit(c)
    ensures Digit(n) == DIGITS[n] && Nibble(LowerDigit(DIGITS[n])) == Nibble(DIGITS[n]) == n
  {
  }

  function UpperDigits(text: string): string {
    seq(|text|, i requires 0 <= i < |text| => UpperDigit(text[i]))
  }

  lemma {:induction false} NoPrefixToRemove(text: string, b: char)
    requires b !in text
    ensures RemovePair(text, '0', b) == text
  {
    RemovePairSkips(text, "", '0', b);
    assert text + "" == text;
  }

  lemma {:induction false} CleanedKeepsDigits(text: string)
    requires forall i :: 0 <= i < |text| ==> IsDigit(text[i]) || IsSeparator(text[i])
    ensures forall i :: 0 <= i < |Cleaned(text)| ==> IsDigit(Cleaned(text)[i])
  {
    if text != "" {
      CleanedKeepsDigits(text[1..]);
    }
  }

  lemma PairOfDigits(high: HexDigit, low: HexDigit)
    ensures Pair(Nibble(high) * 16 + Nibble(low)) == [UpperDigit(high), UpperDigit(low)]
  {
    hide Digit, Nibble, UpperDigit;
    var value := Nibble(high) * 16 + Nibble(low);
    assert value / 16 == Nibble(high) && value % 16 == Nibble(low);
    DigitsInOrder(high, Nibble(high));
    DigitsInOrder(low, Nibble(low));
  }

  /** Digits regrouped in pairs, with the separator between the pairs. */
  function InPairs(digits: string, separator: string): string {
    if |digits| <= 2 then digits else digits[..2] + separator + InPairs(digits[2..], separator)
  }

  lemma InPairsCons(pair: string, rest: string, separator: string)
    requires |pair| == 2
    ensures InPairs(pair + rest, separator) == pair + (if rest == "" then "" else separator + InPairs(rest, separator))
  {
    assert (pair + rest)[..2] == pair && (pair + rest)[2..] == rest;
  }

  lemma FromHexOfPair(text: string)
    requires |text| >= 2 && IsDigit(text[0]) && IsDigit(text[1]) && FromHex(text[2..]).Success?
    ensures FromHex(text) == Success([Nibble(text[0]) * 16 + Nibble(text[1])] + FromHex(text[2..]).value)
  {
  }

  lemma {:induction false} DigitsParse(text: string, separator: string)
    requires forall i :: 0 <= i < |text| ==> IsDigit(text[i])
    requires |text| % 2 == 0
    ensures FromHex(text).Success? && |FromHex(text).value| == |text| / 2
    ensures FormatHex(FromHex(text).value, separator) == InPairs(UpperDigits(text), separator)
  {
    if text != "" {
      hide FromHex, UpperDigit, UpperDigits, Pair, Nibble, FormatHex, InPairs;
      var rest := text[2..];
      DigitsParse(rest, separator);
      FromHexOfPair(text);
      var first := Nibble(text[0]) * 16 + Nibble(text[1]);
      PairOfDigits(text[0], text[1]);
      FormatCons(first, FromHex(rest).value, separator);
      UpperDigitsOfPair(text);
      InPairsCons(Pair(first), UpperDigits(rest), separator);
    }
  }

  lemma UpperDigitsOfPair(text: string)
    requires |text| >= 2
    ensures UpperDigits(text) == [UpperDigit(text[0]), UpperDigit(text[1])] + UpperDigits(text[2..])
  {
  }

  lemma FormatCons(first: Byte, rest: Bytes, separator: string)
    ensures FormatHex([first] + rest, separator)
         == Pair(first) + (if rest == [] then "" else separator + FormatHex(rest, separator))
  {
    assert ([first] + rest)[1..] == rest;
    assert Pair(first) + "" == Pair(first);
    var more := FormatHex(rest, separator);
    assert Pair(first) + separator + more == Pair(first) + (separator + more);
  }

  /**
   * Text of digits and separators parses iff its digits pair up; printing the bytes, with any separator, gives
   * the upper-cased digits regrouped in pairs.
   */
  lemma {:induction false} ParseThenFormat(text: string, separator: string)
    requires forall i :: 0 <= i < |text| ==> IsDigit(text[i]) || IsSeparator(text[i])
    ensures var digits := Cleaned(text);
            && (ParseHex(text).Success? <==> |digits| % 2 == 0)
            && (ParseHex(text).Success? ==>
                FormatHex(ParseHex(text).value, separator) == InPairs(UpperDigits(digits), separator))
  {
    NoPrefixToRemove(text, 'x');
    NoPrefixToRemove(text, 'X');
    CleanedKeepsDigits(text);
    if |Cleaned(text)| % 2 == 0 {
      DigitsParse(Cleaned(text), separator);
    }
  }

  // --------------------------------------------------------------- lower case

  function Lowered(text: string): string {
    seq(|text|, i requires 0 <= i < |text| => LowerDigit(text[i]))
  }

  function LowerCell(cell: Cell): Cell {
    cell.(high := LowerDigit(cell.high), low := LowerDigit(cell.low))
  }

  function LowerCells(cells: seq<Cell>): seq<Cell> {
    if cells == [] then [] else [LowerCell(cells[0])] + LowerCells(cells[1..])
  }

  lemma LoweredConcat(a: string, b: string)
    ensures Lowered(a + b) == Lowered(a) + Lowered(b)
  {
  }

  lemma LoweredCell(cell: Cell)
    requires cell.mark == Bare
    ensures LowerCell(cell).Text() == Lowered(cell.Text())
    ensures LowerCell(cell).Value() == cell.Value()
  {
    hide Nibble;
    assert Lowered([cell.high, cell.low]) == [LowerDigit(cell.high), LowerDigit(cell.low)];
    assert Lowered(cell.gap) == cell.gap;
    LoweredConcat([cell.high, cell.low], cell.gap);
    LoweredDigit(cell.high);
    LoweredDigit(cell.low);
  }

  lemma LoweredDigit(c: HexDigit)
    ensures Nibble(LowerDigit(c)) == Nibble(c)
  {
  }

  lemma {:induction false} LoweredCells(cells: seq<Cell>)
    requires forall i :: 0 <= i < |cells| ==> cells[i].mark == Bare
    ensures Render(LowerCells(cells)) == Lowered(Render(cells))
    ensures Values(LowerCells(cells)) == Values(cells)
  {
    if cells != [] {
      hide LowerCell, Lowered;
      LoweredCells(cells[1..]);
      LoweredCell(cells[0]);
      LoweredConcat(cells[0].Text(), Render(cells[1..]));
      assert LowerCells(cells)[1..] == LowerCells(cells[1..]);
    }
  }

  lemma {:induction false} CellsAreBare(data: Bytes, separator: Gap)
    ensures forall i :: 0 <= i < |CellsOf(data, separator)| ==> CellsOf(data, separator)[i].mark == Bare
  {
    if data != [] {
      CellsAreBare(data[1..], separator);
    }
  }

  /** `parse_hex(format_hex(b, separator=s).lower()) == b`. */
  lemma LowerFormatThenParse(data: Bytes, separator: Gap)
    ensures ParseHex(Lowered(FormatHex(data, separator))) == Success(data)
  {
    var cells := CellsOf(data, separator);
    FormatIsALayout(data, separator);
    CellsAreBare(data, separator);
    LoweredCells(cells);
    assert "" + Render(LowerCells(cells)) == Render(LowerCells(cells));
    ParseInvertsEveryLayout("", LowerCells(cells));
  }

  // -------------------------------------------------------- what does not parse

  /** The digits among the characters. */
  function OnlyDigits(text: string): string {
    if text == "" then ""
    else (if IsDigit(text[0]) then [text[0]] else "") + OnlyDigits(text[1..])
  }

  const WHITESPACE: string := [' ', '\t', '\n', 11 as char, 12 as char, '\r']

  /** Digits and whitespace, and wherever whitespace or the end comes, evenly many digits before it. */
  ghost predicate Paired(text: string) {
    && (forall i :: 0 <= i < |text| ==> IsDigit(text[i]) || text[i] in WHITESPACE)
    && (forall i :: 0 <= i <= |text| && (i == |text| || text[i] in WHITESPACE) ==> |OnlyDigits(text[..i])| % 2 == 0)
  }

  lemma {:induction false} OnlyDigitsConcat(a: string, b: string)
    ensures OnlyDigits(a + b) == OnlyDigits(a) + OnlyDigits(b)
  {
    hide IsDigit;
    if a == "" {
      assert a + b == b;
    } else {
      var first := if IsDigit(a[0]) then [a[0]] else "";
      assert (a + b)[1..] == a[1..] + b;
      OnlyDigitsConcat(a[1..], b);
      assert OnlyDigits(a) == first + OnlyDigits(a[1..]);
      assert OnlyDigits(a + b) == first + OnlyDigits(a[1..] + b);
    }
  }

  /** Whitespace in front, or two digits, do not change whether the rest is paired. */
  lemma PairedAfter(head: string, rest: string)
    requires (|head| == 1 && IsSpace(head[0])) || (|head| == 2 && IsDigit(head[0]) && IsDigit(head[1]))
    ensures Paired(head + rest) <==> Paired(rest)
  {
    hide OnlyDigits;
    var text, n := head + rest, |head|;
    DigitsOfHead(head);
    forall i | 0 <= i <= |rest| ensures |OnlyDigits(text[..n + i])| % 2 == |OnlyDigits(rest[..i])| % 2 {
      assert text[..n + i] == head + rest[..i];
      OnlyDigitsConcat(head, rest[..i]);
    }
    forall i | 0 <= i < |rest| ensures text[n + i] == rest[i] {}
    if Paired(text) {
      forall i | 0 <= i <= |rest| && (i == |rest| || IsSpace(rest[i])) ensures |OnlyDigits(rest[..i])| % 2 == 0 {
        assert n + i == |text| || IsSpace(text[n + i]);
      }
      forall i | 0 <= i < |rest| ensures IsDigit(rest[i]) || IsSpace(rest[i]) {
        assert IsDigit(text[n + i]) || IsSpace(text[n + i]);
      }
    }
    if Paired(rest) {
      forall i | 0 <= i <= |text| && (i == |text| || IsSpace(text[i])) ensures |OnlyDigits(text[..i])| % 2 == 0 {
        if i >= n {
          assert |OnlyDigits(text[..n + (i - n)])| % 2 == |OnlyDigits(rest[..i - n])| % 2;
        } else {
          assert text[..i] == "";
          DigitsOfHead(head);
        }
      }
      forall i | 0 <= i < |text| ensures IsDigit(text[i]) || IsSpace(text[i]) {
        if i >= n {
          assert text[i] == rest[i - n];
        }
      }
    }
  }

  lemma DigitsOfHead(head: string)
    requires (|head| == 1 && IsSpace(head[0])) || (|head| == 2 && IsDigit(head[0]) && IsDigit(head[1]))
    ensures OnlyDigits("") == ""
    ensures OnlyDigits(head) == if |head| == 1 then "" else head
  {
    assert head[1..] == if |head| == 1 then "" else [head[1]];
    if |head| == 2 {
      assert OnlyDigits([head[1]]) == [head[1]] + OnlyDigits([head[1]][1..]);
    }
  }

  /** `bytes.fromhex` accepts exactly paired digits, and reads all of them in order. */
  lemma {:induction false} FromHexExactly(text: string)
    ensures FromHex(text).Success? <==> Paired(text)
    ensures FromHex(text).Success? ==> FormatHex(FromHex(text).value, "") == UpperDigits(OnlyDigits(text))
    ensures FromHex(text).Failure? ==> FromHex(text).error == InvalidDigit
  {
    hide Paired, UpperDigit, UpperDigits, Nibble, Digit, Pair, FormatHex;
    if text == "" {
      NothingIsPaired();
    } else if IsSpace(text[0]) {
      FromHexExactly(text[1..]);
      assert text == [text[0]] + text[1..];
      PairedAfter([text[0]], text[1..]);
      OnlyDigitsConcat([text[0]], text[1..]);
      DigitsOfHead([text[0]]);
      assert "" + OnlyDigits(text[1..]) == OnlyDigits(text[1..]);
    } else if |text| >= 2 && IsDigit(text[0]) && IsDigit(text[1]) {
      FromHexExactly(text[2..]);
      assert text == text[..2] + text[2..];
      PairedAfter(text[..2], text[2..]);
      if FromHex(text).Success? {
        var first := Nibble(text[0]) * 16 + Nibble(text[1]);
        PairOfDigits(text[0], text[1]);
        FormatCons(first, FromHex(text[2..]).value, "");
        assert "" + FormatHex(FromHex(text[2..]).value, "") == FormatHex(FromHex(text[2..]).value, "");
        FormatNothing();
        OnlyDigitsConcat(text[..2], text[2..]);
        DigitsOfHead(text[..2]);
        UpperDigitsOfPair(OnlyDigits(text));
      }
    } else {
      NotPaired(text);
    }
  }

  lemma NothingIsPaired()
    ensures Paired("") && FormatHex([], "") == "" && UpperDigits("") == ""
  {
    assert ""[..0] == "";
  }

  lemma FormatNothing()
    ensures FormatHex([], "") == ""
  {
  }

  lemma NotPaired(text: string)
    requires text != "" && !IsSpace(text[0]) && !(|text| >= 2 && IsDigit(text[0]) && IsDigit(text[1]))
    ensures !Paired(text)
  {
    if Paired(text) {
      assert IsDigit(text[0]);
      if |text| >= 2 {
        assert IsDigit(text[1]) || IsSpace(text[1]);
      }
      assert text[..1] == [text[0]] && [text[0]][1..] == "";
      assert |OnlyDigits(text[..1])| == 1;
      assert false;
    }
  }

  /**
   * Exactly which texts parse: without prefixes and separators, an even number of characters, paired digits with at
   * most whitespace between the pairs. The bytes, printed, are all of these digits.
   */
  lemma ParseExactly(text: string)
    ensures var r, cleaned := ParseHex(text), Cleaned(Unprefixed(text));
            && (r.Success? <==> |cleaned| % 2 == 0 && Paired(cleaned))
            && (r.Success? ==> FormatHex(r.value, "") == UpperDigits(OnlyDigits(cleaned)))
            && (r == Failure(OddDigits) <==> |cleaned| % 2 == 1)
  {
    FromHexExactly(Cleaned(Unprefixed(text)));
  }
}
