// The screen of a text, told from its characters alone: each cell shows the last character written to it.

module TerminalScreen {
  import opened Text
  import opened TerminalProtocol

  function Front(text: string): string
    requires text != ""
  {
    text[..|text| - 1]
  }

  function End(text: string): char
    requires text != ""
  {
    text[|text| - 1]
  }

  /** The line the text ends in: one down for every line feed. */
  function Row(text: string): nat {
    if text == "" then 0 else Row(Front(text)) + if End(text) == '\n' then 1 else 0
  }

  /** The column behind the text: back to the start, one back, on to the next multiple of eight, one on, or unmoved. */
  function Column(printable: char -> bool, text: string): nat {
    if text == "" then 0
    else
      var before, c := Column(printable, Front(text)), End(text);
      if c == '\r' || c == '\n' then 0
      else if c == '\U{8}' then (if before == 0 then 0 else before - 1)
      else if c == '\t' then (before / 8 + 1) * 8
      else if printable(c) || c == '\U{A0}' then before + 1
      else before
  }

  /** The last character of the text is written to the cell: it moves the column past it. */
  predicate Writes(printable: char -> bool, text: string, row: nat, column: nat)
    requires text != ""
  {
    row == Row(Front(text)) && Column(printable, Front(text)) <= column < Column(printable, text)
  }

  /** What a cell shows: the last character written to it, a tab as blanks. */
  function CellOf(printable: char -> bool, text: string, row: nat, column: nat): Option<char> {
    if text == "" then None
    else if Writes(printable, text, row, column) then Some(if End(text) == '\t' then ' ' else End(text))
    else CellOf(printable, Front(text), row, column)
  }

  function Cell(lines: seq<string>, row: nat, column: nat): Option<char> {
    if row < |lines| && column < |lines[row]| then Some(lines[row][column]) else None
  }

  /** The screen is that of the text. */
  ghost predicate Agrees(printable: char -> bool, text: string, s: Screen) {
    && |s.lines| == Row(text) + 1 && s.cursor == Column(printable, text) && CursorInside(s)
    && forall row: nat, column: nat :: Cell(s.lines, row, column) == CellOf(printable, text, row, column)
  }

  lemma WrittenCell(line: string, cursor: nat, text: string, column: nat)
    requires cursor <= |line|
    ensures var now := Overwritten(line, cursor, text);
      && cursor + |text| <= |now|
      && (column < |now| <==> column < |line| || column < cursor + |text|)
      && (cursor <= column < cursor + |text| ==> now[column] == text[column - cursor])
      && (column < |line| && !(cursor <= column < cursor + |text|) ==> now[column] == line[column])
  {
  }

  /** Writing changes the cells from the cursor on, of the last line only. */
  lemma WriteCells(s: Screen, text: string, row: nat, column: nat)
    requires CursorInside(s)
    ensures Cell(Write(s, text).lines, row, column)
      == if row == |s.lines| - 1 && s.cursor <= column < s.cursor + |text| then Some(text[column - s.cursor]) else Cell(s.lines, row, column)
  {
    WrittenCell(s.lines[|s.lines| - 1], s.cursor, text, column);
  }

  lemma WriteStep(printable: char -> bool, text: string, s: Screen, written: string)
    requires text != "" && Agrees(printable, Front(text), s) && Row(text) == Row(Front(text))
    requires Column(printable, text) == s.cursor + |written|
    requires forall c :: c in written ==> c == if End(text) == '\t' then ' ' else End(text)
    ensures Agrees(printable, text, Write(s, written))
  {
    forall row: nat, column: nat ensures Cell(Write(s, written).lines, row, column) == CellOf(printable, text, row, column) {
      WriteCells(s, written, row, column);
      if s.cursor <= column < s.cursor + |written| {
        assert written[column - s.cursor] in written;
      }
      assert Cell(s.lines, row, column) == CellOf(printable, Front(text), row, column);
    }
    WrittenCell(s.lines[|s.lines| - 1], s.cursor, written, 0);
  }

  /** A character that writes nothing. */
  lemma MoveStep(printable: char -> bool, text: string, s: Screen, next: Screen)
    requires text != "" && Agrees(printable, Front(text), s) && Column(printable, text) <= Column(printable, Front(text))
    requires next.cursor == Column(printable, text) && CursorInside(next) && |next.lines| == Row(text) + 1
    requires forall row: nat, column: nat :: Cell(next.lines, row, column) == Cell(s.lines, row, column)
    ensures Agrees(printable, text, next)
  {
    forall row: nat, column: nat ensures Cell(next.lines, row, column) == CellOf(printable, text, row, column) {
      assert Cell(next.lines, row, column) == Cell(s.lines, row, column);
      assert Cell(s.lines, row, column) == CellOf(printable, Front(text), row, column);
    }
  }

  lemma TabStops(column: nat)
    ensures (column / 8 + 1) * 8 == column + (8 - column % 8)
  {
  }

  lemma PutStep(printable: char -> bool, text: string, s: Screen)
    requires text != "" && Agrees(printable, Front(text), s)
    ensures Agrees(printable, text, Put(printable, s, End(text)))
  {
    var c := End(text);
    if c == '\r' || c == '\n' || c == '\U{8}' {
      MoveStep(printable, text, s, Put(printable, s, c));
    } else if c == '\t' {
      TabStops(s.cursor);
      WriteStep(printable, text, s, Spaces(8 - s.cursor % 8));
    } else if printable(c) || c == '\U{A0}' {
      WriteStep(printable, text, s, [c]);
    } else {
      MoveStep(printable, text, s, s);
    }
  }

  /** After any text the screen has a line more than line feeds, the cursor stands in the column of the text,
      and every cell shows the last character written to it. */
  lemma {:induction false} ScreenIsCells(printable: char -> bool, text: string)
    ensures Agrees(printable, text, PutAll(printable, BLANK, text))
    decreases |text|
  {
    if text != "" {
      ScreenIsCells(printable, Front(text));
      PutStep(printable, text, PutAll(printable, BLANK, Front(text)));
    }
  }

  lemma AgreesAt(printable: char -> bool, text: string, s: Screen, row: nat, column: nat)
    requires Agrees(printable, text, s)
    ensures Cell(s.lines, row, column) == CellOf(printable, text, row, column)
  {
  }

  lemma LastCell(lines: seq<string>, max: nat, row: nat, column: nat)
    requires row < |Last(lines, max)|
    ensures Cell(Last(lines, max), row, column) == Cell(lines, |lines| - |Last(lines, max)| + row, column)
  {
  }

  /** `shown` is what the last `max` lines of the text's screen look like. */
  ghost predicate ShowsEnd(printable: char -> bool, max: nat, text: string, shown: Screen) {
    && |shown.lines| == (if Row(text) + 1 <= max then Row(text) + 1 else max) && shown.cursor == Column(printable, text)
    && forall row: nat, column: nat :: row < |shown.lines| ==>
      Cell(shown.lines, row, column) == CellOf(printable, text, Row(text) + 1 - |shown.lines| + row, column)
  }

  lemma TrimmedShows(printable: char -> bool, max: nat, text: string, s: Screen, shown: Screen)
    requires max > 0 && Agrees(printable, text, s) && shown == Screen(Last(s.lines, max), s.cursor)
    ensures ShowsEnd(printable, max, text, shown)
  {
    assert |shown.lines| == if Row(text) + 1 <= max then Row(text) + 1 else max;
    forall row: nat, column: nat | row < |shown.lines|
      ensures Cell(shown.lines, row, column) == CellOf(printable, text, Row(text) + 1 - |shown.lines| + row, column)
    {
      LastCell(s.lines, max, row, column);
      AgreesAt(printable, text, s, |s.lines| - |shown.lines| + row, column);
    }
  }

  /** ... and the buffer shows the end of it, however the text is cut. */
  lemma BufferIsCells(printable: char -> bool, max: nat, chunks: seq<string>)
    requires max > 0
    ensures ShowsEnd(printable, max, Concat(chunks), BufferAll(printable, max, chunks))
  {
    BufferChunking(printable, max, chunks);
    ScreenIsCells(printable, Concat(chunks));
    TrimmedShows(printable, max, Concat(chunks), PutAll(printable, BLANK, Concat(chunks)), BufferAll(printable, max, chunks));
  }
}
