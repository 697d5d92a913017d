// The multiline prompt editor: one flat string, a cursor, a selection anchor and a preferred column.

module PromptEditor {
  import opened Text

  const BREAK := "\n"

  datatype Editor = Editor(text: string, cursor: nat, anchor: Option<nat>, preferred: Option<nat>)

  const EMPTY := Editor("", 0, None, None)

  function Min(a: nat, b: nat): nat {
    if a <= b then a else b
  }

  // ---- line arithmetic, as the code does it ----

  /** `s.count("\n")` */
  function Count(s: string): nat {
    if s == "" then 0 else Count(s[..|s| - 1]) + if s[|s| - 1] == '\n' then 1 else 0
  }

  /** `s.rfind("\n") + 1` */
  function LastBreak(s: string): (k: nat)
    ensures k <= |s|
  {
    if s == "" then 0 else if s[|s| - 1] == '\n' then |s| else LastBreak(s[..|s| - 1])
  }

  function LineBounds(e: Editor): (nat, nat)
    requires e.cursor <= |e.text|
  {
    (LastBreak(e.text[..e.cursor]), LineEnd(e.text, e.cursor))
  }

  function LineAndColumn(e: Editor): (nat, nat)
    requires e.cursor <= |e.text|
  {
    (Count(e.text[..e.cursor]), e.cursor - LastBreak(e.text[..e.cursor]))
  }

  /** The loop of `_line_start` with `n` lines to go. */
  function LineStartFrom(text: string, position: nat, n: nat): nat
    decreases n
  {
    if n == 0 then position
    else
      var p := Find(text, BREAK, position);
      if p < 0 then |text| else LineStartFrom(text, p + 1, n - 1)
  }

  function LineEnd(text: string, start: nat): nat {
    var end := Find(text, BREAK, start);
    if end < 0 then |text| else end
  }

  // ---- what each key does ----

  /** `selection`: the two ends in order. */
  function Selection(e: Editor): Option<(nat, nat)> {
    if e.anchor.None? || e.anchor.value == e.cursor then None
    else Some((Min(e.anchor.value, e.cursor), if e.anchor.value < e.cursor then e.cursor else e.anchor.value))
  }

  /** `selected_text` */
  function Selected(e: Editor): string
    requires e.cursor <= |e.text|
  {
    if Selection(e).None? then "" else
      var (from, to) := Selection(e).value;
      e.text[Min(from, |e.text|)..Min(to, |e.text|)]
  }

  function Insert(e: Editor, value: string): Editor
    requires e.cursor <= |e.text|
  {
    var (from, to) := Selection(e).UnwrapOr((e.cursor, e.cursor));
    Editor(e.text[..from] + value + Behind(e.text, to), from + |value|, None, None)
  }

  function Backspace(e: Editor): Editor
    requires e.cursor <= |e.text|
  {
    if Selection(e).Some? then Insert(e, "")
    else if e.cursor > 0 then
      Editor(e.text[..e.cursor - 1] + e.text[e.cursor..], e.cursor - 1, e.anchor, None)
    else e.(preferred := None)
  }

  function Delete(e: Editor): Editor
    requires e.cursor <= |e.text|
  {
    if Selection(e).Some? then Insert(e, "")
    else if e.cursor < |e.text| then e.(text := e.text[..e.cursor] + e.text[e.cursor + 1..], preferred := None)
    else e.(preferred := None)
  }

  function MoveLeft(e: Editor, select: bool): Editor {
    Editor(e.text, if e.cursor > 0 then e.cursor - 1 else 0, Anchored(e, select), None)
  }

  function MoveRight(e: Editor, select: bool): Editor {
    Editor(e.text, Min(|e.text|, e.cursor + 1), Anchored(e, select), None)
  }

  function Anchored(e: Editor, select: bool): Option<nat> {
    if !select then None else if e.anchor.None? then Some(e.cursor) else e.anchor
  }

  function Home(e: Editor): Editor
    requires e.cursor <= |e.text|
  {
    Editor(e.text, LineBounds(e).0, None, None)
  }

  function End(e: Editor): Editor
    requires e.cursor <= |e.text|
  {
    Editor(e.text, LineBounds(e).1, None, None)
  }

  /** The column `up` and `down` aim for. */
  function Aim(e: Editor): nat
    requires e.cursor <= |e.text|
  {
    e.preferred.UnwrapOr(LineAndColumn(e).1)
  }

  function ToLine(e: Editor, line: nat): Editor
    requires e.cursor <= |e.text|
  {
    var start := LineStartFrom(e.text, 0, line);
    Editor(e.text, Min(start + Aim(e), LineEnd(e.text, start)), None, Some(Aim(e)))
  }

  function Up(e: Editor): Editor
    requires e.cursor <= |e.text|
  {
    var line := LineAndColumn(e).0;
    if line == 0 then e.(anchor := None, preferred := Some(Aim(e))) else ToLine(e, line - 1)
  }

  function Down(e: Editor): Editor
    requires e.cursor <= |e.text|
  {
    var line := LineAndColumn(e).0;
    if line >= Count(e.text) then e.(anchor := None, preferred := Some(Aim(e))) else ToLine(e, line + 1)
  }

  class PromptEditor {
    var text: string
    var cursor: nat
    var selectionAnchor: Option<nat>
    var preferredColumn: Option<nat>

    ghost function Value(): Editor
      reads this
    {
      Editor(text, cursor, selectionAnchor, preferredColumn)
    }

    ghost predicate Valid()
      reads this
    {
      cursor <= |text|
    }

    constructor ()
      ensures Value() == EMPTY && Valid()
    {
      text, cursor, selectionAnchor, preferredColumn := "", 0, None, None;
    }

    method SelectedText() returns (selected: string)
      requires Valid()
      ensures selected == Selected(Value())
    {
      selected := "";
      if selectionAnchor.Some? && selectionAnchor.value != cursor {
        var from := Min(selectionAnchor.value, cursor);
        var to := if selectionAnchor.value < cursor then cursor else selectionAnchor.value;
        selected := text[Min(from, |text|)..Min(to, |text|)];
      }
    }

    method InsertText(value: string)
      requires Valid()
      modifies this
      ensures Value() == Insert(old(Value()), value) && Valid()
    {
      if selectionAnchor.Some? && selectionAnchor.value != cursor {
        var from := Min(selectionAnchor.value, cursor);
        var to := if selectionAnchor.value < cursor then cursor else selectionAnchor.value;
        text := text[..from] + value + Behind(text, to);
        cursor := from + |value|;
      } else {
        text := text[..cursor] + value + text[cursor..];
        cursor := cursor + |value|;
      }
      selectionAnchor, preferredColumn := None, None;
    }

    method BackspaceKey()
      requires Valid()
      modifies this
      ensures Value() == Backspace(old(Value())) && Valid()
    {
      if selectionAnchor.Some? && selectionAnchor.value != cursor {
        InsertText("");
        return;
      }
      if cursor > 0 {
        text := text[..cursor - 1] + text[cursor..];
        cursor := cursor - 1;
      }
      preferredColumn := None;
    }

    method DeleteKey()
      requires Valid()
      modifies this
      ensures Value() == Delete(old(Value())) && Valid()
    {
      if selectionAnchor.Some? && selectionAnchor.value != cursor {
        InsertText("");
        return;
      }
      if cursor < |text| {
        text := text[..cursor] + text[cursor + 1..];
      }
      preferredColumn := None;
    }

    /** `left` is this without selecting. */
    method MoveLeftKey(select: bool)
      requires Valid()
      modifies this
      ensures Value() == MoveLeft(old(Value()), select) && Valid()
    {
      if select && selectionAnchor.None? {
        selectionAnchor := Some(cursor);
      }
      if !select {
        selectionAnchor := None;
      }
      cursor := if cursor > 0 then cursor - 1 else 0;
      preferredColumn := None;
    }

    /** `right` is this without selecting. */
    method MoveRightKey(select: bool)
      requires Valid()
      modifies this
      ensures Value() == MoveRight(old(Value()), select) && Valid()
    {
      if select && selectionAnchor.None? {
        selectionAnchor := Some(cursor);
      }
      if !select {
        selectionAnchor := None;
      }
      cursor := Min(|text|, cursor + 1);
      preferredColumn := None;
    }

    method LineNumberAndColumn() returns (line: nat, column: nat)
      requires Valid()
      ensures (line, column) == LineAndColumn(Value())
    {
      var before := text[..cursor];
      line, column := Count(before), |before| - LastBreak(before);
    }

    method LineStart(lineNumber: nat) returns (position: nat)
      ensures position == LineStartFrom(text, 0, lineNumber)
    {
      position := 0;
      for i := 0 to lineNumber
        invariant LineStartFrom(text, 0, lineNumber) == LineStartFrom(text, position, lineNumber - i)
      {
        var found := Find(text, BREAK, position);
        if found < 0 {
          return |text|;
        }
        position := found + 1;
      }
    }

    method HomeKey()
      requires Valid()
      modifies this
      ensures Value() == Home(old(Value())) && Valid()
    {
      selectionAnchor := None;
      cursor := LastBreak(text[..cursor]);
      preferredColumn := None;
    }

    method EndKey()
      requires Valid()
      modifies this
      ensures Value() == End(old(Value())) && Valid()
    {
      selectionAnchor := None;
      cursor := LineEnd(text, cursor);
      preferredColumn := None;
    }

    /** The end of `up` and `down`; `e` is the editor before the key. */
    method GoToLine(line: nat, ghost e: Editor)
      requires e.cursor <= |e.text| && text == e.text && selectionAnchor.None? && preferredColumn == Some(Aim(e))
      modifies this`cursor
      ensures Value() == ToLine(e, line) && Valid()
    {
      var start := LineStart(line);
      cursor := Min(start + preferredColumn.value, LineEnd(text, start));
    }

    method UpKey()
      requires Valid()
      modifies this
      ensures Value() == Up(old(Value())) && Valid()
    {
      ghost var e := Value();
      selectionAnchor := None;
      var line, column := LineNumberAndColumn();
      preferredColumn := Some(preferredColumn.UnwrapOr(column));
      if line == 0 {
        return;
      }
      GoToLine(line - 1, e);
    }

    method DownKey()
      requires Valid()
      modifies this
      ensures Value() == Down(old(Value())) && Valid()
    {
      ghost var e := Value();
      selectionAnchor := None;
      var line, column := LineNumberAndColumn();
      preferredColumn := Some(preferredColumn.UnwrapOr(column));
      var lineCount := Count(text);
      if line >= lineCount {
        return;
      }
      GoToLine(line + 1, e);
    }

    method Clear()
      modifies this
      ensures Value() == EMPTY && Valid()
    {
      text, cursor, selectionAnchor, preferredColumn := "", 0, None, None;
    }
  }

  // ---- the text as a list of lines ----

  function Lines(text: string): (lines: seq<string>)
    ensures lines != []
  {
    Split(text, '\n')
  }

  /** Where line `i` starts, from the lengths of the lines above it. */
  function Start(lines: seq<string>, i: nat): nat
    requires i < |lines|
  {
    if i == 0 then 0 else |lines[0]| + 1 + Start(lines[1..], i - 1)
  }

  lemma {:induction false} CountSplits(a: string, b: string)
    ensures Count(a + b) == Count(a) + Count(b)
    decreases |b|
  {
    if b == "" {
      assert a + b == a;
    } else {
      CountSplits(a, b[..|b| - 1]);
      assert (a + b)[..|a + b| - 1] == a + b[..|b| - 1];
    }
  }

  lemma {:induction false} BreakBehind(a: string, b: string)
    ensures LastBreak(a + BREAK + b) == |a| + 1 + LastBreak(b)
    decreases |b|
  {
    var s := a + BREAK + b;
    if b == "" {
      assert s[|s| - 1] == '\n';
    } else {
      BreakBehind(a, b[..|b| - 1]);
      assert s[..|s| - 1] == a + BREAK + b[..|b| - 1];
    }
  }

  lemma {:induction false} NoBreak(s: string)
    requires '\n' !in s
    ensures Count(s) == 0 && LastBreak(s) == 0
    decreases |s|
  {
    if s != "" {
      NoBreak(s[..|s| - 1]);
    }
  }

  /** The first line of a text and what is below it. */
  lemma FirstLine(text: string)
    ensures var first := Lines(text)[0];
      && '\n' !in first && first == text[..|first|] && |first| <= |text|
      && (|Lines(text)| == 1 ==> first == text && Find(text, BREAK, 0) == -1)
      && (|Lines(text)| > 1 ==>
            && text == first + BREAK + text[|first| + 1..] && Lines(text)[1..] == Lines(text[|first| + 1..])
            && Find(text, BREAK, 0) == |first|)
  {
    FindIsFirst(text, '\n');
    assert BREAK == ['\n'];
    SplitAt(text, Find(text, BREAK, 0));
  }

  lemma SplitAt(text: string, i: int)
    requires i < |text| && (i >= 0 ==> text[i] == '\n')
    ensures i >= 0 ==> text[..i] == text[..|text[..i]|] && text == text[..i] + BREAK + text[i + 1..]
  {
    if i >= 0 {
      assert text == text[..i] + [text[i]] + text[i + 1..];
    }
  }

  /** Line `l` of a text is line `l - 1` of what is below its first line. */
  lemma StartBelow(text: string, l: nat) returns (skip: nat)
    requires 0 < l < |Lines(text)|
    ensures 0 < skip <= |text| && Find(text, BREAK, 0) == skip - 1
    ensures l - 1 < |Lines(text[skip..])| && Lines(text)[l] == Lines(text[skip..])[l - 1]
    ensures Start(Lines(text), l) == skip + Start(Lines(text[skip..]), l - 1)
  {
    FirstLine(text);
    skip := |Lines(text)[0]| + 1;
  }

  lemma BelowFirst(first: string, rest: string, at: nat)
    requires '\n' !in first && at <= |rest|
    ensures var head := (first + BREAK + rest)[..|first| + 1 + at];
      Count(head) == 1 + Count(rest[..at]) && LastBreak(head) == |first| + 1 + LastBreak(rest[..at])
  {
    assert (first + BREAK + rest)[..|first| + 1 + at] == first + BREAK + rest[..at];
    CountSplits(first + BREAK, rest[..at]);
    CountSplits(first, BREAK);
    NoBreak(first);
    BreakBehind(first, rest[..at]);
  }

  lemma LocatedFirst(text: string, c: nat)
    requires c <= |Lines(text)[0]|
    ensures c <= |text| && Count(text[..c]) == 0 && LastBreak(text[..c]) == 0
  {
    FirstLine(text);
    var first := Lines(text)[0];
    assert text[..c] == first[..c];
    NoBreak(first[..c]);
  }

  /** Line `l`, column `c` is the place the code's arithmetic calls line `l`, column `c`. */
  lemma {:induction false} Located(text: string, l: nat, c: nat, at: nat)
    requires l < |Lines(text)| && c <= |Lines(text)[l]| && at == Start(Lines(text), l) + c
    ensures at <= |text| && Count(text[..at]) == l && LastBreak(text[..at]) == at - c
    decreases l
  {
    if l == 0 {
      LocatedFirst(text, c);
    } else {
      var skip := StartBelow(text, l);
      Located(text[skip..], l - 1, c, at - skip);
      LocatedBelow(text, skip, at - skip);
    }
  }

  lemma LocatedBelow(text: string, skip: nat, at: nat)
    requires 0 < skip <= |text| && Find(text, BREAK, 0) == skip - 1 && skip + at <= |text|
    ensures Count(text[..skip + at]) == 1 + Count(text[skip..][..at])
    ensures LastBreak(text[..skip + at]) == skip + LastBreak(text[skip..][..at])
  {
    var first, rest := FirstAndRest(text, skip);
    LocatedIn(text, first, rest, at);
  }

  lemma FirstAndRest(text: string, skip: nat) returns (first: string, rest: string)
    requires 0 < skip <= |text| && Find(text, BREAK, 0) == skip - 1
    ensures text == first + BREAK + rest && '\n' !in first && |first| + 1 == skip && rest == text[skip..]
  {
    FindIsFirst(text, '\n');
    assert BREAK == ['\n'];
    first, rest := text[..skip - 1], text[skip..];
    SplitAt(text, skip - 1);
  }

  lemma LocatedIn(text: string, first: string, rest: string, at: nat)
    requires text == first + BREAK + rest && '\n' !in first && at <= |rest|
    ensures Count(text[..|first| + 1 + at]) == 1 + Count(rest[..at])
    ensures LastBreak(text[..|first| + 1 + at]) == |first| + 1 + LastBreak(rest[..at])
  {
    BelowFirst(first, rest, at);
  }

  /** Every cursor stands in some line at some column. */
  lemma {:induction false} Placed(text: string, cursor: nat) returns (l: nat, c: nat)
    requires cursor <= |text|
    ensures l < |Lines(text)| && c <= |Lines(text)[l]| && Start(Lines(text), l) + c == cursor
    decreases |text|
  {
    FirstLine(text);
    var first := Lines(text)[0];
    if cursor <= |first| {
      l, c := 0, cursor;
    } else {
      l, c := Placed(text[|first| + 1..], cursor - |first| - 1);
      l := l + 1;
    }
  }

  /** (line, column) and cursor determine each other: the pair the code computes from a cursor is the
      one pair of the line list that leads back to it. */
  lemma LineAndColumnIsExact(e: Editor, l: nat, c: nat)
    requires e.cursor <= |e.text|
    ensures LineAndColumn(e) == (l, c) <==>
      l < |Lines(e.text)| && c <= |Lines(e.text)[l]| && Start(Lines(e.text), l) + c == e.cursor
  {
    var l', c' := Placed(e.text, e.cursor);
    Located(e.text, l', c', e.cursor);
    if l < |Lines(e.text)| && c <= |Lines(e.text)[l]| && Start(Lines(e.text), l) + c == e.cursor {
      Located(e.text, l, c, e.cursor);
    }
  }

  lemma {:induction false} LineStartIsStart(text: string, position: nat, l: nat)
    requires position <= |text| && l < |Lines(text[position..])|
    ensures LineStartFrom(text, position, l) == position + Start(Lines(text[position..]), l)
    decreases l
  {
    if l > 0 {
      var next := NextLine(text, position, l);
      LineStartIsStart(text, next, l - 1);
      LineStartAdvances(text, position, next, l);
    }
  }

  /** A line that the text does not have starts at its end. */
  lemma {:induction false} LineStartBeyond(text: string, position: nat, l: nat)
    requires position <= |text| && l >= |Lines(text[position..])|
    ensures LineStartFrom(text, position, l) == |text|
    decreases l
  {
    if |Lines(text[position..])| > 1 {
      var next := OneLineBelow(text, position);
      LineStartBeyond(text, next, l - 1);
      LineStartAdvances(text, position, next, l);
    } else {
      LastLine(text, position);
    }
  }

  lemma LastLine(text: string, position: nat)
    requires position <= |text| && |Lines(text[position..])| == 1
    ensures Find(text, BREAK, position) == -1
  {
    FirstLine(text[position..]);
    FindInSuffix(text, BREAK, position, 0);
  }

  lemma OneLineBelow(text: string, position: nat) returns (next: nat)
    requires position <= |text| && |Lines(text[position..])| > 1
    ensures position < next <= |text| && Find(text, BREAK, position) == next - 1
    ensures |Lines(text[next..])| == |Lines(text[position..])| - 1
  {
    var skip := FirstBreak(text[position..]);
    FindInSuffix(text, BREAK, position, 0);
    TailOfTail(text, position, skip);
    next := position + skip;
  }

  lemma FirstBreak(text: string) returns (skip: nat)
    requires |Lines(text)| > 1
    ensures 0 < skip <= |text| && Find(text, BREAK, 0) == skip - 1 && |Lines(text[skip..])| == |Lines(text)| - 1
  {
    FirstLine(text);
    skip := |Lines(text)[0]| + 1;
  }

  lemma LineStartAdvances(text: string, position: nat, next: nat, l: nat)
    requires l > 0 && next > 0 && Find(text, BREAK, position) == next - 1
    ensures LineStartFrom(text, position, l) == LineStartFrom(text, next, l - 1)
  {
  }

  /** The line below the one at `position`. */
  lemma NextLine(text: string, position: nat, l: nat) returns (next: nat)
    requires position <= |text| && 0 < l < |Lines(text[position..])|
    ensures position < next <= |text| && Find(text, BREAK, position) == next - 1
    ensures l - 1 < |Lines(text[next..])|
    ensures position + Start(Lines(text[position..]), l) == next + Start(Lines(text[next..]), l - 1)
  {
    var skip := StartBelow(text[position..], l);
    FindInSuffix(text, BREAK, position, 0);
    next := position + skip;
    TailOfTail(text, position, skip);
  }

  lemma TailOfTail(text: string, i: nat, j: nat)
    requires i + j <= |text|
    ensures text[i..][j..] == text[i + j..]
  {
  }

  lemma FirstLineEnd(text: string, c: nat)
    requires c <= |Lines(text)[0]|
    ensures LineEnd(text, c) == |Lines(text)[0]|
  {
    FirstLine(text);
    var first := Lines(text)[0];
    forall j | 0 <= j < |first| ensures !OccursAt(text, BREAK, j) {
      CharOccurs(text, '\n', j);
      assert text[j] == first[j] && BREAK == ['\n'];
    }
  }

  lemma {:induction false} LineEndIsEnd(text: string, l: nat, c: nat)
    requires l < |Lines(text)| && c <= |Lines(text)[l]|
    ensures LineEnd(text, Start(Lines(text), l) + c) == Start(Lines(text), l) + |Lines(text)[l]|
    decreases l
  {
    if l == 0 {
      FirstLineEnd(text, c);
    } else {
      var skip := StartBelow(text, l);
      LineEndIsEnd(text[skip..], l - 1, c);
      LineEndBelow(text, skip, Start(Lines(text[skip..]), l - 1) + c);
    }
  }

  lemma LineEndBelow(text: string, skip: nat, at: nat)
    requires skip <= |text|
    ensures LineEnd(text, skip + at) == skip + LineEnd(text[skip..], at)
  {
    FindInSuffix(text, BREAK, skip, at);
  }

  lemma {:induction false} CountIsLines(text: string)
    ensures Count(text) == |Lines(text)| - 1
    decreases |text|
  {
    FirstLine(text);
    var first := Lines(text)[0];
    NoBreak(first);
    if |Lines(text)| > 1 {
      CountIsLines(text[|first| + 1..]);
      CountSplits(first + BREAK, text[|first| + 1..]);
      CountSplits(first, BREAK);
    }
  }

  // ---- motions on the line list ----

  /** Line and column of an editor. */
  predicate Stands(e: Editor, l: nat, c: nat) {
    e.cursor <= |e.text| && LineAndColumn(e) == (l, c)
  }

  /** What holds in every reachable state: the cursor is in the text, and a remembered column is the
      one the cursor would be in if its line were long enough. */
  predicate Inv(e: Editor) {
    e.cursor <= |e.text| &&
    var (l, c) := LineAndColumn(e);
    l < |Lines(e.text)| && c <= |Lines(e.text)[l]| && (e.preferred.Some? ==> c == Min(e.preferred.value, |Lines(e.text)[l]|))
  }

  lemma ToLineLands(e: Editor, line: nat)
    requires e.cursor <= |e.text| && line < |Lines(e.text)|
    ensures Stands(ToLine(e, line), line, Min(Aim(e), |Lines(e.text)[line]|)) && Inv(ToLine(e, line))
  {
    var c := Min(Aim(e), |Lines(e.text)[line]|);
    ToLineIs(e.text, line, Aim(e));
    Located(e.text, line, c, Start(Lines(e.text), line) + c);
    LineAndColumnIsExact(ToLine(e, line), line, c);
  }

  lemma ToLineIs(text: string, line: nat, aim: nat)
    requires line < |Lines(text)|
    ensures var start := LineStartFrom(text, 0, line);
      && start == Start(Lines(text), line)
      && Min(start + aim, LineEnd(text, start)) == start + Min(aim, |Lines(text)[line]|)
  {
    LineStartAt(text, line);
    LineEndIsEnd(text, line, 0);
  }

  lemma LineStartAt(text: string, line: nat)
    requires line < |Lines(text)|
    ensures LineStartFrom(text, 0, line) == Start(Lines(text), line)
  {
    assert text[0..] == text;
    LineStartIsStart(text, 0, line);
  }

  /** `home` goes to the first column of the line. */
  lemma HomeGoesToColumnZero(e: Editor, l: nat, c: nat)
    requires Stands(e, l, c)
    ensures Stands(Home(e), l, 0)
  {
    LineAndColumnIsExact(e, l, c);
    Located(e.text, l, 0, Start(Lines(e.text), l));
    LineAndColumnIsExact(Home(e), l, 0);
  }

  /** `end` goes behind the last character of the line. */
  lemma EndGoesToLineLength(e: Editor, l: nat, c: nat)
    requires Stands(e, l, c)
    ensures l < |Lines(e.text)| && Stands(End(e), l, |Lines(e.text)[l]|)
  {
    LineAndColumnIsExact(e, l, c);
    LineEndIsEnd(e.text, l, c);
    Located(e.text, l, |Lines(e.text)[l]|, Start(Lines(e.text), l) + |Lines(e.text)[l]|);
    LineAndColumnIsExact(End(e), l, |Lines(e.text)[l]|);
  }

  datatype Key = UpK | DownK | InsertK(value: string) | BackspaceK | DeleteK
               | LeftK(select: bool) | RightK(select: bool) | HomeK | EndK | ClearK

  function Press(e: Editor, key: Key): (r: Editor)
    requires e.cursor <= |e.text|
    ensures r.cursor <= |r.text|
  {
    match key
    case UpK => Up(e)
    case DownK => Down(e)
    case InsertK(value) => Insert(e, value)
    case BackspaceK => Backspace(e)
    case DeleteK => Delete(e)
    case LeftK(select) => MoveLeft(e, select)
    case RightK(select) => MoveRight(e, select)
    case HomeK => Home(e)
    case EndK => End(e)
    case ClearK => EMPTY
  }

  function PressAll(e: Editor, keys: seq<Key>): (r: Editor)
    requires e.cursor <= |e.text|
    ensures r.cursor <= |r.text|
    decreases |keys|
  {
    if keys == [] then e else Press(PressAll(e, keys[..|keys| - 1]), keys[|keys| - 1])
  }

  lemma InvOf(e: Editor)
    requires e.cursor <= |e.text| && e.preferred.None?
    ensures Inv(e)
  {
    LineAndColumnIsExact(e, LineAndColumn(e).0, LineAndColumn(e).1);
  }

  /** `up` in the first line and `down` in the last only remember the column. */
  lemma StayKeepsInv(e: Editor)
    requires Inv(e)
    ensures Inv(e.(anchor := None, preferred := Some(Aim(e))))
  {
    var r := e.(anchor := None, preferred := Some(Aim(e)));
    assert LineAndColumn(r) == LineAndColumn(e);
  }

  lemma VerticalKeepsInv(e: Editor, up: bool)
    requires Inv(e)
    ensures Inv(if up then Up(e) else Down(e))
  {
    if up {
      UpKeepsInv(e);
    } else {
      DownKeepsInv(e);
    }
  }

  /** `up` and `down` stay at the edges and else go to a line. */
  lemma VerticalIs(e: Editor, line: nat)
    requires e.cursor <= |e.text| && line == LineAndColumn(e).0
    ensures Up(e) == if line == 0 then e.(anchor := None, preferred := Some(Aim(e))) else ToLine(e, line - 1)
    ensures Down(e) == if line >= Count(e.text) then e.(anchor := None, preferred := Some(Aim(e))) else ToLine(e, line + 1)
  {
  }

  lemma LandsInv(e: Editor, line: nat, r: Editor)
    requires e.cursor <= |e.text| && line <= Count(e.text) && r == ToLine(e, line)
    ensures Inv(r)
  {
    CountIsLines(e.text);
    ToLineLands(e, line);
  }

  lemma UpKeepsInv(e: Editor)
    requires Inv(e)
    ensures Inv(Up(e))
  {
    var line := LineAndColumn(e).0;
    VerticalIs(e, line);
    CountIsLines(e.text);
    if line > 0 {
      LandsInv(e, line - 1, Up(e));
    } else {
      StayKeepsInv(e);
    }
  }

  lemma DownKeepsInv(e: Editor)
    requires Inv(e)
    ensures Inv(Down(e))
  {
    var line := LineAndColumn(e).0;
    VerticalIs(e, line);
    if line < Count(e.text) {
      LandsInv(e, line + 1, Down(e));
    } else {
      StayKeepsInv(e);
    }
  }

  lemma PressKeepsInv(e: Editor, key: Key)
    requires Inv(e)
    ensures Inv(Press(e, key))
  {
    if key.UpK? || key.DownK? {
      VerticalKeepsInv(e, key.UpK?);
    } else {
      InvOf(Press(e, key));
    }
  }

  /** The invariant holds in every reachable editor. */
  lemma {:induction false} ReachableInv(keys: seq<Key>)
    ensures Inv(PressAll(EMPTY, keys))
    decreases |keys|
  {
    if keys == [] {
      InvOf(EMPTY);
    } else {
      ReachableInv(keys[..|keys| - 1]);
      PressKeepsInv(PressAll(EMPTY, keys[..|keys| - 1]), keys[|keys| - 1]);
    }
  }

  /** The line a run of vertical motions ends in, bounded by the first and the last line. */
  function LineAfter(line: nat, count: nat, keys: seq<Key>): nat {
    if keys == [] then line
    else
      var l := LineAfter(line, count, keys[..|keys| - 1]);
      if keys[|keys| - 1].UpK? then if l > 0 then l - 1 else 0
      else if l + 1 < count then l + 1 else l
  }

  /** One vertical motion keeps the text and the aimed column, and moves one line if there is one. */
  lemma VerticalStep(e: Editor, up: bool)
    requires Inv(e)
    ensures var r, l, n := if up then Up(e) else Down(e), LineAndColumn(e).0, |Lines(e.text)|;
      && r.text == e.text && r.preferred == Some(Aim(e)) && Aim(r) == Aim(e)
      && LineAndColumn(r).0 == if up then (if l > 0 then l - 1 else 0) else if l + 1 < n then l + 1 else l
  {
    if up {
      UpStep(e);
    } else {
      DownStep(e);
    }
  }

  lemma UpStep(e: Editor)
    requires Inv(e)
    ensures var l := LineAndColumn(e).0; MovedTo(e, Up(e), if l > 0 then l - 1 else 0)
  {
    var line := LineAndColumn(e).0;
    if line > 0 {
      ToLineAims(e, line - 1);
    } else {
      StayAims(e);
    }
  }

  lemma DownStep(e: Editor)
    requires Inv(e)
    ensures var l := LineAndColumn(e).0; MovedTo(e, Down(e), if l + 1 < |Lines(e.text)| then l + 1 else l)
  {
    var line := LineAndColumn(e).0;
    CountIsLines(e.text);
    if line < Count(e.text) {
      ToLineAims(e, line + 1);
    } else {
      StayAims(e);
    }
  }

  /** The same text and aim, in line `l`. */
  predicate MovedTo(e: Editor, r: Editor, l: nat) {
    && e.cursor <= |e.text| && r.cursor <= |r.text|
    && r.text == e.text && r.preferred == Some(Aim(e)) && Aim(r) == Aim(e) && LineAndColumn(r).0 == l
  }

  lemma StayAims(e: Editor)
    requires e.cursor <= |e.text|
    ensures MovedTo(e, e.(anchor := None, preferred := Some(Aim(e))), LineAndColumn(e).0)
  {
  }

  lemma ToLineAims(e: Editor, line: nat)
    requires e.cursor <= |e.text| && line < |Lines(e.text)|
    ensures MovedTo(e, ToLine(e, line), line)
  {
    ToLineLands(e, line);
  }

  predicate AllVertical(keys: seq<Key>) {
    forall i :: 0 <= i < |keys| ==> keys[i].UpK? || keys[i].DownK?
  }

  lemma {:induction false} VerticalRunInv(e: Editor, keys: seq<Key>)
    requires Inv(e) && AllVertical(keys)
    ensures Inv(PressAll(e, keys))
    decreases |keys|
  {
    if keys != [] {
      var n := |keys| - 1;
      VerticalRunInv(e, keys[..n]);
      VerticalKeepsInv(PressAll(e, keys[..n]), keys[n].UpK?);
    }
  }

  lemma {:induction false} VerticalRunAim(e: Editor, keys: seq<Key>)
    requires Inv(e) && AllVertical(keys)
    ensures PressAll(e, keys).text == e.text && Aim(PressAll(e, keys)) == Aim(e)
    ensures keys != [] ==> PressAll(e, keys).preferred == Some(Aim(e))
    decreases |keys|
  {
    if keys != [] {
      var n := |keys| - 1;
      VerticalRunAim(e, keys[..n]);
      VerticalRunInv(e, keys[..n]);
      VerticalStep(PressAll(e, keys[..n]), keys[n].UpK?);
    }
  }

  lemma {:induction false} VerticalRunLine(e: Editor, keys: seq<Key>)
    requires Inv(e) && AllVertical(keys)
    ensures LineAndColumn(PressAll(e, keys)).0 == LineAfter(LineAndColumn(e).0, |Lines(e.text)|, keys)
    decreases |keys|
  {
    if keys != [] {
      var n := |keys| - 1;
      VerticalRunLine(e, keys[..n]);
      VerticalRunAim(e, keys[..n]);
      VerticalRunInv(e, keys[..n]);
      VerticalStep(PressAll(e, keys[..n]), keys[n].UpK?);
    }
  }

  /** After any run of `up` and `down` the cursor stands in the line the run leads to, in the column
      min(aimed column, line length). */
  lemma VerticalMotionKeepsColumn(e: Editor, keys: seq<Key>)
    requires Inv(e) && keys != [] && AllVertical(keys)
    ensures var l := LineAfter(LineAndColumn(e).0, |Lines(e.text)|, keys);
      l < |Lines(e.text)| && PressAll(e, keys).text == e.text && Stands(PressAll(e, keys), l, Min(Aim(e), |Lines(e.text)[l]|))
  {
    VerticalRunInv(e, keys);
    VerticalRunAim(e, keys);
    VerticalRunLine(e, keys);
  }

  /** A vertical run that ends in its starting line restores the cursor exactly. */
  lemma VerticalRunReturns(e: Editor, keys: seq<Key>)
    requires Inv(e) && AllVertical(keys)
    requires LineAfter(LineAndColumn(e).0, |Lines(e.text)|, keys) == LineAndColumn(e).0
    ensures PressAll(e, keys).cursor == e.cursor && PressAll(e, keys).text == e.text
  {
    VerticalRunInv(e, keys);
    VerticalRunAim(e, keys);
    VerticalRunLine(e, keys);
    var r := PressAll(e, keys);
    var (l, c) := LineAndColumn(e);
    LineAndColumnIsExact(e, l, c);
    LineAndColumnIsExact(r, l, LineAndColumn(r).1);
  }

  // ---- editing ----

  function Repeated(key: Key, n: nat): seq<Key> {
    seq(n, _ => key)
  }

  lemma {:induction false} BackspacesUndo(e: Editor, value: string, n: nat)
    requires e.cursor <= |e.text| && e.anchor.None? && n <= |value|
    ensures PressAll(Insert(e, value), Repeated(BackspaceK, n)) == Insert(e, value[..|value| - n])
    decreases n
  {
    if n == 0 {
      assert value[..|value|] == value;
    } else {
      BackspacesUndo(e, value, n - 1);
      assert Repeated(BackspaceK, n)[..n - 1] == Repeated(BackspaceK, n - 1);
      BackspaceUndoesOne(e, value, |value| - n);
    }
  }

  /** Inserting without a selection and pressing backspace once per character gives the text and the
      cursor back. */
  lemma BackspaceUndoesInsert(e: Editor, value: string)
    requires e.cursor <= |e.text| && e.anchor.None?
    ensures var r := PressAll(Insert(e, value), Repeated(BackspaceK, |value|)); r.text == e.text && r.cursor == e.cursor
  {
    BackspacesUndo(e, value, |value|);
    assert e.text[..e.cursor] + "" + e.text[e.cursor..] == e.text;
  }

  lemma BackspaceUndoesOne(e: Editor, value: string, m: nat)
    requires e.cursor <= |e.text| && e.anchor.None? && m < |value|
    ensures Backspace(Insert(e, value[..m + 1])) == Insert(e, value[..m])
  {
    var before := Insert(e, value[..m + 1]);
    assert before.text[..before.cursor - 1] == e.text[..e.cursor] + value[..m];
    assert before.text[before.cursor..] == e.text[e.cursor..];
  }

  // ---- the text before, in and behind the selection ----

  /** `left` and `right` around the cursor, nothing selected. */
  predicate Around(e: Editor, left: string, right: string) {
    e.text == left + right && e.cursor == |left| && (e.anchor == None || e.anchor == Some(|left|))
  }

  /** `inner` is selected, the cursor at either end of it. */
  predicate Selects(e: Editor, left: string, inner: string, right: string) {
    && e.text == left + inner + right && inner != ""
    && ((e.cursor == |left| && e.anchor == Some(|left| + |inner|)) || (e.cursor == |left| + |inner| && e.anchor == Some(|left|)))
  }

  /** No selection, no anchor, no remembered column. */
  predicate Plain(e: Editor, left: string, right: string) {
    Around(e, left, right) && e.anchor == None && e.preferred == None
  }

  lemma SelectionSplits(e: Editor, left: string, inner: string, right: string)
    requires Selects(e, left, inner, right)
    ensures Selection(e) == Some((|left|, |left| + |inner|))
    ensures e.text[..|left|] == left && Behind(e.text, |left| + |inner|) == right && Selected(e) == inner
  {
  }

  /** Over a selection every editing key replaces exactly the selected text. */
  lemma SelectionReplaced(e: Editor, left: string, inner: string, right: string, value: string)
    requires Selects(e, left, inner, right)
    ensures Plain(Insert(e, value), left + value, right)
    ensures Plain(Backspace(e), left, right) && Plain(Delete(e), left, right)
  {
    SelectionSplits(e, left, inner, right);
    assert left + "" == left;
  }

  /** Typing puts the text between what stands left and right of the cursor. */
  lemma Typed(e: Editor, left: string, right: string, value: string)
    requires Around(e, left, right)
    ensures Plain(Insert(e, value), left + value, right)
  {
    assert e.text[..|left|] == left && Behind(e.text, |left|) == right;
  }

  /** What an anchor is after a motion. */
  predicate Anchors(e: Editor, r: Editor, select: bool) {
    r.preferred == None && r.anchor == if !select then None else if e.anchor == None then Some(e.cursor) else e.anchor
  }

  predicate Stays(r: Editor, left: string, right: string) {
    r.text == left + right && r.cursor == |left|
  }

  /** Backspace takes the last character of the left text, and `left` moves it to the right text. */
  lemma Leftwards(e: Editor, left: string, x: char, right: string, select: bool)
    requires e.text == left + [x] + right && e.cursor == |left| + 1
    ensures Stays(MoveLeft(e, select), left, [x] + right) && Anchors(e, MoveLeft(e, select), select)
    ensures Selection(e).None? ==> Stays(Backspace(e), left, right) && Backspace(e).anchor == e.anchor && Backspace(e).preferred == None
  {
    assert e.text[..e.cursor - 1] == left && e.text[e.cursor..] == right;
    assert left + [x] + right == left + ([x] + right);
  }

  /** Delete takes the first character of the right text, and `right` moves it to the left text. */
  lemma Rightwards(e: Editor, left: string, x: char, right: string, select: bool)
    requires e.text == left + ([x] + right) && e.cursor == |left|
    ensures Stays(MoveRight(e, select), left + [x], right) && Anchors(e, MoveRight(e, select), select)
    ensures Selection(e).None? ==> Stays(Delete(e), left, right) && Delete(e).anchor == e.anchor && Delete(e).preferred == None
  {
    assert e.text[..e.cursor] == left && e.text[e.cursor + 1..] == right;
    assert left + ([x] + right) == left + [x] + right;
  }

  /** At the ends of the text nothing moves and nothing is taken. */
  lemma AtTheEnds(e: Editor, select: bool)
    requires e.cursor <= |e.text|
    ensures e.cursor == 0 ==> Stays(MoveLeft(e, select), "", e.text) && Anchors(e, MoveLeft(e, select), select)
    ensures e.cursor == |e.text| ==> Stays(MoveRight(e, select), e.text, "") && Anchors(e, MoveRight(e, select), select)
    ensures e.cursor == 0 && Selection(e).None? ==> Backspace(e) == e.(preferred := None)
    ensures e.cursor == |e.text| && Selection(e).None? ==> Delete(e) == e.(preferred := None)
  {
    assert "" + e.text == e.text && e.text + "" == e.text;
  }

  /** Without a selection, backspace leaves text selected exactly when an anchor stood at the cursor: the anchor
      stays where it was while the cursor moves back. */
  lemma BackspaceSelectsIff(e: Editor)
    requires e.cursor <= |e.text| && Selection(e).None?
    ensures Selection(Backspace(e)).Some? <==> e.cursor > 0 && e.anchor == Some(e.cursor)
  {
  }

  /** ... which happens: the selection then even ends behind the text. */
  lemma BackspaceSelects()
    ensures var e := PressAll(EMPTY, [InsertK("ab"), RightK(true), BackspaceK]); e.text == "a" && Selection(e) == Some((1, 2))
  {
    var typed, right := PressAll(EMPTY, [InsertK("ab")]), PressAll(EMPTY, [InsertK("ab"), RightK(true)]);
    PressLast(EMPTY, [], InsertK("ab"), [InsertK("ab")]);
    Typed(EMPTY, "", "", "ab");
    PressLast(EMPTY, [InsertK("ab")], RightK(true), [InsertK("ab"), RightK(true)]);
    AtTheEnds(typed, true);
    PressLast(EMPTY, [InsertK("ab"), RightK(true)], BackspaceK, [InsertK("ab"), RightK(true), BackspaceK]);
    assert right.text == "a" + ['b'] + "";
    Leftwards(right, "a", 'b', "", false);
  }

  lemma PressLast(e: Editor, keys: seq<Key>, key: Key, all: seq<Key>)
    requires e.cursor <= |e.text| && all == keys + [key]
    ensures PressAll(e, all) == Press(PressAll(e, keys), key)
  {
    assert all[..|keys|] == keys;
  }

  // ---- a selection grown key by key ----

  predicate Selecting(keys: seq<Key>) {
    forall i :: 0 <= i < |keys| ==> keys[i] == LeftK(true) || keys[i] == RightK(true)
  }

  /** Where a run of motions leads: one character each, no further than the ends of the text. */
  function Walked(at: nat, length: nat, keys: seq<Key>): nat {
    if keys == [] then at
    else
      var before := Walked(at, length, keys[..|keys| - 1]);
      if keys[|keys| - 1].LeftK? then (if before == 0 then 0 else before - 1) else if before < length then before + 1 else length
  }

  lemma {:induction false} SelectingRun(e: Editor, keys: seq<Key>)
    requires e.cursor <= |e.text| && e.anchor == None && Selecting(keys)
    ensures var r := PressAll(e, keys); r.text == e.text && r.cursor == Walked(e.cursor, |e.text|, keys) <= |e.text|
    ensures PressAll(e, keys).anchor == if keys == [] then None else Some(e.cursor)
    decreases |keys|
  {
    if keys != [] {
      var n := |keys| - 1;
      SelectingRun(e, keys[..n]);
      assert keys[n] == LeftK(true) || keys[n] == RightK(true);
    }
  }

  /** A selection grown from the cursor by any run of motions is the text between the cursor's old and new
      place; typing then replaces exactly that text. */
  lemma GrownSelectionReplaced(e: Editor, keys: seq<Key>, value: string, from: nat, to: nat)
    requires e.cursor <= |e.text| && e.anchor == None && Selecting(keys) && keys != []
    requires var at := Walked(e.cursor, |e.text|, keys); from == Min(e.cursor, at) && to == e.cursor + at - from
    ensures from <= to <= |e.text| && Selected(PressAll(e, keys)) == e.text[from..to]
    ensures Plain(Insert(PressAll(e, keys), value), e.text[..from] + value, e.text[to..])
  {
    SelectingRun(e, keys);
    var r := PressAll(e, keys);
    SpanReplaced(r, e.cursor, value, from, to);
  }

  /** What lies between the anchor and the cursor is selected, and replaced. */
  lemma SpanReplaced(e: Editor, anchor: nat, value: string, from: nat, to: nat)
    requires e.cursor <= |e.text| && anchor <= |e.text| && e.anchor == Some(anchor)
    requires from == Min(anchor, e.cursor) && to == anchor + e.cursor - from
    ensures from <= to <= |e.text| && Selected(e) == e.text[from..to]
    ensures Plain(Insert(e, value), e.text[..from] + value, e.text[to..])
  {
    assert e.text == e.text[..from] + e.text[from..to] + e.text[to..];
    if from < to {
      SelectionSplits(e, e.text[..from], e.text[from..to], e.text[to..]);
      SelectionReplaced(e, e.text[..from], e.text[from..to], e.text[to..], value);
    } else {
      assert e.text == e.text[..from] + e.text[to..];
      Typed(e, e.text[..from], e.text[to..], value);
    }
  }
}
