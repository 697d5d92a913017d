// Stripping terminal controls from a split stream, and the text screen the result is written to.

module TerminalProtocol {
  import opened Text

  const ESC := '\U{1B}'
  const BEL := "\U{7}"
  const ST := "\U{1B}\\"

  // ---- TerminalStreamFilter ----

  predicate IsFinal(c: char) {
    '@' <= c <= '~'
  }

  /** `re.search("[@-~]", s[from:])`: the index of the first final byte, or -1. */
  function FindFinal(s: string, from: nat): (r: int)
    ensures r >= 0 ==> from <= r < |s| && IsFinal(s[r]) && forall j :: from <= j < r ==> !IsFinal(s[j])
    ensures r < 0 ==> r == -1 && forall j :: from <= j < |s| ==> !IsFinal(s[j])
    decreases |s| - from
  {
    if from >= |s| then -1 else if IsFinal(s[from]) then from else FindFinal(s, from + 1)
  }

  /** Length of the complete control at the head of the text, 0 while it is unfinished. */
  function Control(s: string): (n: nat)
    requires s != "" && s[0] == ESC
    ensures n <= |s| && n != 1
  {
    if |s| < 2 then 0
    else if s[1] == ']' then var end := Find(s, BEL, 2); if end < 0 then 0 else end + 1
    else if s[1] == '_' || s[1] == 'P' then var end := Find(s, ST, 2); if end < 0 then 0 else end + 2
    else if s[1] == '[' then var end := FindFinal(s, 2); if end < 0 then 0 else end + 1
    else 2
  }

  /** The visible text of a stream and the unfinished control at its end. */
  function Strip(s: string): (string, string)
    decreases |s|
  {
    if s == "" then ("", "")
    else if s[0] != ESC then
      var (text, pending) := Strip(s[1..]);
      ([s[0]] + text, pending)
    else
      var n := Control(s);
      if n == 0 then ("", s) else Strip(s[n..])
  }

  lemma FinalInSuffix(s: string, k: nat, from: nat)
    requires k <= |s|
    ensures FindFinal(s, k + from) == (var r := FindFinal(s[k..], from); if r < 0 then -1 else k + r)
  {
    var r, q := FindFinal(s[k..], from), FindFinal(s, k + from);
    forall j | from <= j < |s| - k ensures s[k..][j] == s[k + j] {
    }
    if r >= 0 { assert IsFinal(s[k + r]); }
    if q >= 0 { assert IsFinal(s[k..][q - k]); }
  }

  lemma Regroup(a: string, b: string, c: string)
    ensures a + (b + c) == a + b + c
  {
  }

  /** The branches of `feed` on a control at `index`: the index behind it, -1 while it is unfinished. */
  method ControlEnd(value: string, index: nat) returns (next: int)
    requires index + 1 < |value| && value[index] == ESC
    ensures next == (var n := Control(value[index..]); if n == 0 then -1 else index + n)
  {
    var kind := value[index + 1];
    if kind == ']' || kind == '_' || kind == 'P' {
      var mark := if kind == ']' then BEL else ST;
      var end := Find(value, mark, index + 2);
      FindInSuffix(value, mark, index, 2);
      return if end < 0 then -1 else end + if kind == ']' then 1 else 2;
    }
    if kind == '[' {
      var end := FindFinal(value, index + 2);
      FinalInSuffix(value, index, 2);
      return if end < 0 then -1 else end + 1;
    }
    next := index + 2;
  }

  class TerminalStreamFilter {
    var pending: string

    constructor ()
      ensures pending == ""
    {
      pending := "";
    }

    method Feed(data: string, final: bool) returns (output: string)
      modifies this
      ensures output == Strip(old(pending) + data).0
      ensures pending == if final then "" else Strip(old(pending) + data).1
    {
      var value := pending + data;
      pending := "";
      output := "";
      var index := 0;
      assert value[0..] == value && "" + Strip(value).0 == Strip(value).0;
      while index < |value|
        invariant 0 <= index <= |value| && pending == ""
        invariant Strip(value) == (output + Strip(value[index..]).0, Strip(value[index..]).1)
        decreases |value| - index
      {
        ghost var here := value[index..];
        if value[index] != ESC {
          assert here[1..] == value[index + 1..];
          Regroup(output, [value[index]], Strip(value[index + 1..]).0);
          output := output + [value[index]];
          index := index + 1;
          continue;
        }
        if index + 1 >= |value| {
          pending := value[index..];
          break;
        }
        var next := ControlEnd(value, index);
        if next < 0 {
          if !final {
            pending := value[index..];
          }
          break;
        }
        assert here[next - index..] == value[next..];
        index := next;
      }
      if final {
        pending := "";
      }
    }
  }

  lemma FinalInExtension(s: string, t: string, from: nat)
    requires FindFinal(s, from) >= 0
    ensures FindFinal(s + t, from) == FindFinal(s, from)
  {
    forall j | 0 <= j < |s| ensures (s + t)[j] == s[j] {
    }
    assert IsFinal((s + t)[FindFinal(s, from)]);
  }

  /** A complete control stays what it is when more text arrives. */
  lemma ControlInExtension(s: string, t: string)
    requires s != "" && s[0] == ESC && Control(s) > 0
    ensures Control(s + t) == Control(s)
  {
    if s[1] == ']' {
      FindInExtension(s, t, BEL, 2);
    } else if s[1] == '_' || s[1] == 'P' {
      FindInExtension(s, t, ST, 2);
    } else if s[1] == '[' {
      FinalInExtension(s, t, 2);
    }
  }

  /** Reading `a` and then `b` behind what `a` left pending is reading both at once. */
  lemma {:induction false} StripSplits(a: string, b: string)
    ensures Strip(a + b) == (Strip(a).0 + Strip(Strip(a).1 + b).0, Strip(Strip(a).1 + b).1)
    decreases |a|
  {
    if a == "" {
      assert a + b == b && "" + b == b && "" + Strip(b).0 == Strip(b).0;
    } else if a[0] != ESC {
      StripSplits(a[1..], b);
      assert (a + b)[1..] == a[1..] + b;
      var (t, p) := Strip(a[1..]);
      assert [a[0]] + (t + Strip(p + b).0) == ([a[0]] + t) + Strip(p + b).0;
    } else if Control(a) == 0 {
      assert "" + Strip(a + b).0 == Strip(a + b).0;
    } else {
      ControlInExtension(a, b);
      assert (a + b)[Control(a)..] == a[Control(a)..] + b;
      StripSplits(a[Control(a)..], b);
    }
  }

  /** The outputs of feeding the chunks one after another, and what is pending then. */
  function FeedAll(pending: string, chunks: seq<string>): (r: (seq<string>, string))
    ensures |r.0| == |chunks|
    decreases |chunks|
  {
    if chunks == [] then ([], pending)
    else
      var n := |chunks| - 1;
      var (outs, left) := FeedAll(pending, chunks[..n]);
      var (out, left') := Strip(left + chunks[n]);
      (outs + [out], left')
  }

  /** However the stream is cut, the outputs join to the one-shot output and the same text is pending. */
  lemma {:induction false} FilterChunking(chunks: seq<string>)
    ensures Concat(FeedAll("", chunks).0) == Strip(Concat(chunks)).0
    ensures FeedAll("", chunks).1 == Strip(Concat(chunks)).1
    decreases |chunks|
  {
    if chunks != [] {
      var n := |chunks| - 1;
      FilterChunking(chunks[..n]);
      StripSplits(Concat(chunks[..n]), chunks[n]);
      var outs := FeedAll("", chunks).0;
      assert outs[..n] == FeedAll("", chunks[..n]).0;
    }
  }

  // ---- what the filter recognizes, as a grammar ----

  datatype Piece =
    | Plain(c: char)
    | Osc(body: string)
    | Graphics(kind: char, body: string)
    | Csi(params: string, final: char)
    | Short(c: char)

  predicate ValidPiece(p: Piece) {
    match p
    case Plain(c) => c != ESC
    case Osc(body) => BEL[0] !in body
    case Graphics(kind, body) => (kind == '_' || kind == 'P') && Find(body, ST, 0) < 0
    case Csi(params, final) => (forall c :: c in params ==> !(0x40 <= c as int <= 0x7E)) && 0x40 <= final as int <= 0x7E
    case Short(c) => c != ']' && c != '_' && c != 'P' && c != '['
  }

  function Spell(p: Piece): string {
    match p
    case Plain(c) => [c]
    case Osc(body) => [ESC, ']'] + body + BEL
    case Graphics(kind, body) => [ESC, kind] + body + ST
    case Csi(params, final) => [ESC, '['] + params + [final]
    case Short(c) => [ESC, c]
  }

  function SpellAll(ps: seq<Piece>): string {
    if ps == [] then "" else Spell(ps[0]) + SpellAll(ps[1..])
  }

  /** Only plain characters are text. */
  function TextOf(ps: seq<Piece>): string {
    if ps == [] then "" else (if ps[0].Plain? then [ps[0].c] else "") + TextOf(ps[1..])
  }

  /** A spelled control is recognized up to exactly its end. */
  lemma ControlOfPiece(p: Piece)
    requires ValidPiece(p) && !p.Plain?
    ensures Control(Spell(p)) == |Spell(p)|
  {
    var s := Spell(p);
    match p
    case Osc(body) =>
      forall j ensures OccursAt(s, BEL, j) <==> 0 <= j < |s| && s[j] == BEL[0] {
        CharOccurs(s, BEL[0], j);
        assert BEL == [BEL[0]];
      }
      assert OccursAt(s, BEL, |body| + 2);
      assert forall j :: 2 <= j < |body| + 2 ==> s[j] == body[j - 2];
    case Graphics(kind, body) =>
      GraphicsEnd(kind, body);
    case Csi(params, final) =>
      FinalIs(final);
      assert s[|params| + 2] == final;
      forall j | 2 <= j < |params| + 2 ensures !IsFinal(s[j]) {
        assert s[j] == params[j - 2] && params[j - 2] in params;
        FinalIs(s[j]);
      }
    case Short(c) =>
  }

  lemma FinalIs(c: char)
    ensures IsFinal(c) <==> 0x40 <= c as int <= 0x7E
  {
  }

  lemma GraphicsEnd(kind: char, body: string)
    requires Find(body, ST, 0) < 0
    ensures Find([ESC, kind] + body + ST, ST, 2) == |body| + 2
  {
    var s := [ESC, kind] + body + ST;
    assert forall j :: 0 <= j < |body| ==> s[j + 2] == body[j];
    EndsOnce(s, body, |body|);
  }

  lemma EndsOnce(s: string, body: string, n: nat)
    requires |body| == n && |s| == n + 4 && s[n + 2] == ESC && s[n + 3] == '\\'
    requires Find(body, ST, 0) < 0 && forall j :: 0 <= j < n ==> s[j + 2] == body[j]
    ensures Find(s, ST, 2) == n + 2
  {
    assert ST == [ESC, '\\'];
    PairOccurs(s, ESC, '\\', n + 2);
    forall j | 2 <= j < n + 2 ensures !OccursAt(s, ST, j) {
      PairOccurs(s, ESC, '\\', j);
      PairOccurs(body, ESC, '\\', j - 2);
      assert s[j] == body[j - 2];
      if j < n + 1 {
        assert s[j + 1] == body[j - 1];
      }
    }
  }

  /** The filter keeps exactly the plain characters of a well-formed stream. */
  lemma {:induction false} StripKeepsText(ps: seq<Piece>)
    requires forall p :: p in ps ==> ValidPiece(p)
    ensures Strip(SpellAll(ps)) == (TextOf(ps), "")
    decreases |ps|
  {
    if ps != [] {
      var p, rest := ps[0], SpellAll(ps[1..]);
      StripKeepsText(ps[1..]);
      var s := Spell(p) + rest;
      assert s[|Spell(p)|..] == rest;
      if !p.Plain? {
        ControlOfPiece(p);
        ControlInExtension(Spell(p), rest);
        assert "" + TextOf(ps[1..]) == TextOf(ps[1..]);
      }
    }
  }

  lemma OscAt(s: string, n: nat) returns (p: Piece)
    requires |s| >= 2 && s[0] == ESC && s[1] == ']' && Find(s, BEL, 2) >= 0 && n == Find(s, BEL, 2) + 1
    ensures n <= |s| && ValidPiece(p) && p.Osc? && Spell(p) == s[..n]
  {
    var body := s[2..n - 1];
    forall j ensures OccursAt(s, BEL, j) <==> 0 <= j < |s| && s[j] == BEL[0] {
      CharOccurs(s, BEL[0], j);
      assert BEL == [BEL[0]];
    }
    assert forall j :: 0 <= j < |body| ==> body[j] == s[j + 2];
    p := Osc(body);
  }

  lemma GraphicsAt(s: string, n: nat) returns (p: Piece)
    requires |s| >= 2 && s[0] == ESC && (s[1] == '_' || s[1] == 'P') && Find(s, ST, 2) >= 0 && n == Find(s, ST, 2) + 2
    ensures n <= |s| && ValidPiece(p) && p.Graphics? && Spell(p) == s[..n]
  {
    var body := s[2..n - 2];
    assert ST == [ESC, '\\'];
    forall j ensures !OccursAt(body, ST, j) {
      PairOccurs(body, ESC, '\\', j);
      PairOccurs(s, ESC, '\\', j + 2);
      if 0 <= j && j + 2 <= |body| {
        assert body[j] == s[j + 2] && body[j + 1] == s[j + 3];
        assert !OccursAt(s, ST, j + 2);
      }
    }
    p := Graphics(s[1], body);
    assert s[n - 2..n] == ST;
  }

  /** The control at the head of a text, as a piece. */
  lemma PieceAt(s: string) returns (p: Piece)
    requires s != "" && s[0] == ESC && Control(s) > 0
    ensures ValidPiece(p) && !p.Plain? && Spell(p) == s[..Control(s)]
  {
    var n := Control(s);
    if s[1] == ']' {
      p := OscAt(s, n);
    } else if s[1] == '_' || s[1] == 'P' {
      p := GraphicsAt(s, n);
    } else if s[1] == '[' {
      p := Csi(s[2..n - 1], s[n - 1]);
    } else {
      p := Short(s[1]);
    }
  }

  lemma PieceInFront(p: Piece, rest: seq<Piece>, left: string, s: string, k: nat)
    requires k <= |s| && Spell(p) == s[..k] && s[k..] == SpellAll(rest) + left
    ensures s == SpellAll([p] + rest) + left
    ensures TextOf([p] + rest) == if p.Plain? then [p.c] + TextOf(rest) else TextOf(rest)
  {
    assert ([p] + rest)[1..] == rest;
    assert s == s[..k] + s[k..];
  }

  lemma StripPassesControl(s: string, k: nat)
    requires s != "" && s[0] == ESC && Control(s) == k > 0
    ensures k <= |s| && Strip(s) == Strip(s[k..])
  {
    assert "" + Strip(s[k..]).0 == Strip(s[k..]).0;
  }

  /** Every stream is a well-formed stream followed by one unfinished control, and the filter's output
      is the plain characters of the first. */
  lemma {:induction false} EveryStreamIsPieces(s: string) returns (ps: seq<Piece>)
    ensures (forall p :: p in ps ==> ValidPiece(p)) && s == SpellAll(ps) + Strip(s).1 && TextOf(ps) == Strip(s).0
    ensures var left := Strip(s).1; left == "" || (left[0] == ESC && Control(left) == 0)
    decreases |s|
  {
    if s == "" {
      ps := [];
    } else if s[0] != ESC {
      var rest := EveryStreamIsPieces(s[1..]);
      ps := [Plain(s[0])] + rest;
      PieceInFront(Plain(s[0]), rest, Strip(s).1, s, 1);
    } else if Control(s) == 0 {
      ps := [];
    } else {
      var k := Control(s);
      var p := PieceAt(s);
      StripPassesControl(s, k);
      var rest := EveryStreamIsPieces(s[k..]);
      ps := [p] + rest;
      PieceInFront(p, rest, Strip(s).1, s, k);
    }
  }

  /** No escape sign is ever passed on. */
  lemma {:induction false} OutputHasNoEscape(s: string)
    ensures ESC !in Strip(s).0
    decreases |s|
  {
    if s != "" {
      if s[0] != ESC {
        OutputHasNoEscape(s[1..]);
      } else if Control(s) > 0 {
        OutputHasNoEscape(s[Control(s)..]);
      }
    }
  }

  // ---- TerminalTextBuffer ----

  /** The lines written so far and the column in the last one. */
  datatype Screen = Screen(lines: seq<string>, cursor: nat)

  function Spaces(n: nat): string {
    seq(n, _ => ' ')
  }

  /** `_write` on one line. */
  function Overwritten(line: string, cursor: nat, text: string): string {
    var padded := if cursor > |line| then line + Spaces(cursor - |line|) else line;
    padded[..cursor] + text + Behind(padded, cursor + |text|)
  }

  function Write(s: Screen, text: string): Screen
    requires s.lines != []
  {
    var n := |s.lines| - 1;
    Screen(s.lines[n := Overwritten(s.lines[n], s.cursor, text)], s.cursor + |text|)
  }

  /** One character; `printable` stands for `str.isprintable`. */
  function Put(printable: char -> bool, s: Screen, c: char): (r: Screen)
    requires s.lines != []
    ensures r.lines != [] && |r.lines| >= |s.lines|
  {
    if c == '\r' then Screen(s.lines, 0)
    else if c == '\n' then Screen(s.lines + [""], 0)
    else if c == '\U{8}' then Screen(s.lines, if s.cursor > 0 then s.cursor - 1 else 0)
    else if c == '\t' then Write(s, Spaces(8 - s.cursor % 8))
    else if printable(c) || c == '\U{A0}' then Write(s, [c])
    else s
  }

  /** The untrimmed screen after a text. */
  function PutAll(printable: char -> bool, s: Screen, data: string): (r: Screen)
    requires s.lines != []
    ensures r.lines != [] && |r.lines| >= |s.lines|
    decreases |data|
  {
    if data == "" then s else Put(printable, PutAll(printable, s, data[..|data| - 1]), data[|data| - 1])
  }

  /** The last `max` lines. */
  function Last(lines: seq<string>, max: nat): seq<string> {
    if |lines| > max then lines[|lines| - max..] else lines
  }

  const BLANK := Screen([""], 0)

  class TerminalTextBuffer {
    const maxLines: nat
    const printable: char -> bool
    var lines: seq<string>
    var cursor: nat

    constructor (maxLines: int, printable: char -> bool)
      ensures Screen(lines, cursor) == BLANK && this.printable == printable
      ensures this.maxLines == if maxLines < 20 then 20 else maxLines
    {
      this.lines, this.cursor := [""], 0;
      this.maxLines := if maxLines < 20 then 20 else maxLines;
      this.printable := printable;
    }

    method Feed(data: string) returns (shown: seq<string>)
      requires lines != []
      modifies this`lines, this`cursor
      ensures shown == lines
      ensures var s := PutAll(printable, Screen(old(lines), old(cursor)), data);
        lines == Last(s.lines, maxLines) && cursor == s.cursor
    {
      for i := 0 to |data|
        invariant lines != []
        invariant Screen(lines, cursor) == PutAll(printable, Screen(old(lines), old(cursor)), data[..i])
      {
        assert data[..i + 1][..i] == data[..i];
        PutChar(data[i]);
      }
      assert data[..|data|] == data;
      if |lines| > maxLines {
        lines := lines[|lines| - maxLines..];
      }
      shown := lines;
    }

    /** One turn of the loop. */
    method PutChar(c: char)
      requires lines != []
      modifies this`lines, this`cursor
      ensures lines != [] && Screen(lines, cursor) == Put(printable, Screen(old(lines), old(cursor)), c)
    {
      if c == '\r' {
        cursor := 0;
      } else if c == '\n' {
        lines := lines + [""];
        cursor := 0;
      } else if c == '\U{8}' {
        cursor := if cursor > 0 then cursor - 1 else 0;
      } else if c == '\t' {
        var spaces := 8 - cursor % 8;
        WriteText(Spaces(spaces));
      } else if printable(c) || c == '\U{A0}' {
        WriteText([c]);
      }
    }

    method WriteText(text: string)
      requires lines != []
      modifies this`lines, this`cursor
      ensures Screen(lines, cursor) == Write(Screen(old(lines), old(cursor)), text)
    {
      var n := |lines| - 1;
      var line := lines[n];
      if cursor > |line| {
        line := line + Spaces(cursor - |line|);
      }
      var end := cursor + |text|;
      lines := lines[n := line[..cursor] + text + Behind(line, end)];
      cursor := end;
    }
  }

  /** The cursor stays inside the last line, so `_write` never has to pad. */
  predicate CursorInside(s: Screen) {
    s.lines != [] && s.cursor <= |s.lines[|s.lines| - 1]|
  }

  lemma {:induction false} CursorStaysInside(printable: char -> bool, s: Screen, data: string)
    requires CursorInside(s)
    ensures CursorInside(PutAll(printable, s, data))
    decreases |data|
  {
    if data != "" {
      CursorStaysInside(printable, s, data[..|data| - 1]);
    }
  }

  /** Lines above the last one are never touched. */
  lemma {:induction false} LinesAboveStay(printable: char -> bool, above: seq<string>, s: Screen, data: string)
    requires s.lines != []
    ensures var r := PutAll(printable, s, data);
      PutAll(printable, Screen(above + s.lines, s.cursor), data) == Screen(above + r.lines, r.cursor)
    decreases |data|
  {
    if data != "" {
      var n := |data| - 1;
      LinesAboveStay(printable, above, s, data[..n]);
      PutBelow(printable, above, PutAll(printable, s, data[..n]), data[n]);
    }
  }

  lemma PutBelow(printable: char -> bool, above: seq<string>, s: Screen, c: char)
    requires s.lines != []
    ensures var r := Put(printable, s, c); Put(printable, Screen(above + s.lines, s.cursor), c) == Screen(above + r.lines, r.cursor)
  {
    var n := |s.lines| - 1;
    assert (above + s.lines)[|above| + n] == s.lines[n];
    if c == '\n' {
      assert above + s.lines + [""] == above + (s.lines + [""]);
    } else if c == '\t' {
      WriteBelow(above, s, Spaces(8 - s.cursor % 8));
    } else {
      WriteBelow(above, s, [c]);
    }
  }

  lemma WriteBelow(above: seq<string>, s: Screen, text: string)
    requires s.lines != []
    ensures Write(Screen(above + s.lines, s.cursor), text) == Screen(above + Write(s, text).lines, s.cursor + |text|)
  {
    var n := |s.lines| - 1;
    assert (above + s.lines)[|above| + n] == s.lines[n];
    var line := Overwritten(s.lines[n], s.cursor, text);
    assert (above + s.lines)[|above| + n := line] == above + s.lines[n := line];
  }

  lemma LastPut(printable: char -> bool, s: Screen, text: string, front: string, c: char, before: Screen)
    requires s.lines != [] && text != "" && front == text[..|text| - 1] && c == text[|text| - 1]
    requires before == PutAll(printable, s, front)
    ensures PutAll(printable, s, text) == Put(printable, before, c)
  {
  }

  lemma {:induction false} PutAllSplits(printable: char -> bool, s: Screen, a: string, b: string)
    requires s.lines != []
    ensures PutAll(printable, s, a + b) == PutAll(printable, PutAll(printable, s, a), b)
    decreases |b|
  {
    if b == "" {
      assert a + b == a;
    } else {
      var n := |b| - 1;
      PutAllSplits(printable, s, a, b[..n]);
      assert (a + b)[..|a + b| - 1] == a + b[..n] && (a + b)[|a + b| - 1] == b[n];
      LastPut(printable, s, a + b, a + b[..n], b[n], PutAll(printable, s, a + b[..n]));
      LastPut(printable, PutAll(printable, s, a), b, b[..n], b[n], PutAll(printable, PutAll(printable, s, a), b[..n]));
    }
  }

  /** The buffer after feeding the chunks one after another, trimming after each. */
  function BufferAll(printable: char -> bool, max: nat, chunks: seq<string>): (r: Screen)
    requires max > 0
    ensures r.lines != []
    decreases |chunks|
  {
    if chunks == [] then BLANK
    else
      var n := |chunks| - 1;
      var s := PutAll(printable, BufferAll(printable, max, chunks[..n]), chunks[n]);
      Screen(Last(s.lines, max), s.cursor)
  }

  lemma {:induction false} BufferTrims(printable: char -> bool, max: nat, chunks: seq<string>)
    requires max > 0
    ensures var whole := PutAll(printable, BLANK, Concat(chunks));
      BufferAll(printable, max, chunks) == Screen(Last(whole.lines, max), whole.cursor)
    decreases |chunks|
  {
    if chunks != [] {
      var n := |chunks| - 1;
      BufferTrims(printable, max, chunks[..n]);
      PutAllSplits(printable, BLANK, Concat(chunks[..n]), chunks[n]);
      TrimmingCommutes(printable, max, PutAll(printable, BLANK, Concat(chunks[..n])), chunks[n]);
    }
  }

  /** However the text is cut, the buffer shows the last `max` lines of the untrimmed screen of the whole
      text, with the same cursor, inside its line. */
  lemma BufferChunking(printable: char -> bool, max: nat, chunks: seq<string>)
    requires max > 0
    ensures var whole := PutAll(printable, BLANK, Concat(chunks));
      BufferAll(printable, max, chunks) == Screen(Last(whole.lines, max), whole.cursor)
    ensures CursorInside(BufferAll(printable, max, chunks))
  {
    BufferTrims(printable, max, chunks);
    CursorStaysInside(printable, BLANK, Concat(chunks));
    TrimmedInside(PutAll(printable, BLANK, Concat(chunks)), max);
  }

  lemma TrimmedInside(s: Screen, max: nat)
    requires max > 0 && CursorInside(s)
    ensures CursorInside(Screen(Last(s.lines, max), s.cursor))
  {
  }

  /** Trimming before more text is written changes nothing once it is trimmed again. */
  lemma TrimmingCommutes(printable: char -> bool, max: nat, s: Screen, data: string)
    requires max > 0 && s.lines != []
    ensures var trimmed, whole := PutAll(printable, Screen(Last(s.lines, max), s.cursor), data), PutAll(printable, s, data);
      Last(trimmed.lines, max) == Last(whole.lines, max) && trimmed.cursor == whole.cursor
  {
    var kept := Last(s.lines, max);
    var above := s.lines[..|s.lines| - |kept|];
    assert above + kept == s.lines;
    LinesAboveStay(printable, above, Screen(kept, s.cursor), data);
    LastOfBoth(above, PutAll(printable, Screen(kept, s.cursor), data).lines, max);
  }

  lemma LastOfBoth(above: seq<string>, lines: seq<string>, max: nat)
    requires |lines| >= max || above == []
    ensures Last(above + lines, max) == Last(lines, max)
  {
    if above == [] {
      assert above + lines == lines;
    }
  }

  /** The stream filter in front of the buffer: the picture on the screen does not depend on the reads. */
  lemma PipelineChunking(printable: char -> bool, max: nat, chunks: seq<string>)
    requires max > 0
    ensures var whole := PutAll(printable, BLANK, Strip(Concat(chunks)).0);
      BufferAll(printable, max, FeedAll("", chunks).0) == Screen(Last(whole.lines, max), whole.cursor)
  {
    FilterChunking(chunks);
    BufferChunking(printable, max, FeedAll("", chunks).0);
  }

  /** A line after `text` was printed over it from the cursor on. */
  function Overlaid(line: string, cursor: nat, text: string): string
    requires cursor <= |line|
  {
    line[..cursor] + text + Behind(line, cursor + |text|)
  }

  lemma OverlayOneMore(line: string, cursor: nat, done: string, c: char)
    requires cursor <= |line|
    ensures Overwritten(Overlaid(line, cursor, done), cursor + |done|, [c]) == Overlaid(line, cursor, done + [c])
  {
    var at, whole := cursor + |done|, Overlaid(line, cursor, done);
    OverlayParts(line[..cursor], done, Behind(line, at), whole);
    BehindBehind(line, at);
    OverwrittenInside(whole, at, c);
    OverlaidWith(line, cursor, done, c, at + 1);
  }

  lemma OverlaidWith(line: string, cursor: nat, done: string, c: char, end: nat)
    requires cursor <= |line| && end == cursor + |done| + 1
    ensures Overlaid(line, cursor, done + [c]) == (line[..cursor] + done) + [c] + Behind(line, end)
  {
    Joined(line[..cursor], done, [c], Behind(line, end));
  }

  lemma OverwrittenInside(line: string, cursor: nat, c: char)
    requires cursor <= |line|
    ensures Overwritten(line, cursor, [c]) == line[..cursor] + [c] + Behind(line, cursor + 1)
  {
  }

  lemma OverlayParts(head: string, done: string, rest: string, whole: string)
    requires whole == head + done + rest
    ensures |head| + |done| <= |whole| && whole[..|head| + |done|] == head + done
    ensures Behind(whole, |head| + |done| + 1) == Behind(rest, 1)
  {
  }

  lemma BehindBehind(s: string, k: nat)
    ensures Behind(Behind(s, k), 1) == Behind(s, k + 1)
  {
  }

  lemma Joined(a: string, b: string, c: string, d: string)
    ensures (a + b) + c + d == a + (b + c) + d
  {
  }

  predicate Printing(printable: char -> bool, text: string) {
    forall c :: c in text ==> printable(c) && c != '\r' && c != '\n' && c != '\U{8}' && c != '\t'
  }

  lemma PutPrintable(printable: char -> bool, line: string, cursor: nat, c: char)
    requires Printing(printable, [c])
    ensures Put(printable, Screen([line], cursor), c) == Screen([Overwritten(line, cursor, [c])], cursor + 1)
  {
    assert c in [c];
  }

  /** A one-line screen. */
  predicate Shows(s: Screen, line: string, cursor: nat) {
    s.lines == [line] && s.cursor == cursor
  }

  lemma PutOn(printable: char -> bool, s: Screen, over: string, at: nat, c: char, after: string)
    requires Shows(s, over, at) && Printing(printable, [c]) && after == Overwritten(over, at, [c])
    ensures Shows(Put(printable, s, c), after, at + 1)
  {
    assert s == Screen([over], at);
    PutPrintable(printable, over, at, c);
  }

  /** Printable text overwrites from the cursor on. */
  lemma {:induction false} PrintedText(printable: char -> bool, s: Screen, line: string, cursor: nat, text: string)
    requires Shows(s, line, cursor) && cursor <= |line| && Printing(printable, text)
    ensures Shows(PutAll(printable, s, text), Overlaid(line, cursor, text), cursor + |text|)
    decreases |text|
  {
    if text == "" {
      assert line[..cursor] + "" + line[cursor..] == line;
    } else {
      var n := |text| - 1;
      var front, c := text[..n], text[n];
      assert text == front + [c];
      assert c in text && forall d :: d in front ==> d in text;
      PrintedText(printable, s, line, cursor, front);
      LastPut(printable, s, text, front, c, PutAll(printable, s, front));
      PrintOne(printable, PutAll(printable, s, front), line, cursor, front, c);
    }
  }

  lemma PrintOne(printable: char -> bool, s: Screen, line: string, cursor: nat, front: string, c: char)
    requires cursor <= |line| && Shows(s, Overlaid(line, cursor, front), cursor + |front|) && Printing(printable, [c])
    ensures Shows(Put(printable, s, c), Overlaid(line, cursor, front + [c]), cursor + |front| + 1)
  {
    OverlayOneMore(line, cursor, front, c);
    PutOn(printable, s, Overlaid(line, cursor, front), cursor + |front|, c, Overlaid(line, cursor, front + [c]));
  }

  /** A status line redrawn behind a carriage return shows the new text over the old one, not a new line. */
  lemma CarriageReturnRedraws(printable: char -> bool, first: string, second: string)
    requires Printing(printable, first) && Printing(printable, second)
    ensures PutAll(printable, BLANK, first + "\r" + second) == Screen([second + Behind(first, |second|)], |second|)
  {
    PrintedAndReturned(printable, first);
    PutAllSplits(printable, BLANK, first + "\r", second);
    PrintedOver(printable, first, second);
  }

  lemma PrintedOver(printable: char -> bool, first: string, second: string)
    requires Printing(printable, second)
    ensures PutAll(printable, Screen([first], 0), second) == Screen([second + Behind(first, |second|)], |second|)
  {
    PrintedFromStart(printable, Screen([first], 0), first, second);
  }

  lemma PrintedFromStart(printable: char -> bool, s: Screen, first: string, second: string)
    requires Shows(s, first, 0) && Printing(printable, second)
    ensures Shows(PutAll(printable, s, second), second + Behind(first, |second|), |second|)
  {
    PrintedText(printable, s, first, 0, second);
    OverlaidAtStart(first, second);
  }

  lemma OverlaidAtStart(first: string, second: string)
    ensures Overlaid(first, 0, second) == second + Behind(first, |second|)
  {
  }

  lemma PrintedAndReturned(printable: char -> bool, first: string)
    requires Printing(printable, first)
    ensures PutAll(printable, BLANK, first + "\r") == Screen([first], 0)
  {
    PrintedFromStart(printable, BLANK, "", first);
    assert first + Behind("", |first|) == first;
    Returned(printable, PutAll(printable, BLANK, first));
    PutAllSplits(printable, BLANK, first, "\r");
  }

  lemma Returned(printable: char -> bool, s: Screen)
    requires s.lines != []
    ensures PutAll(printable, s, "\r") == Screen(s.lines, 0)
  {
    assert "\r"[..0] == "";
  }
}
