// Rewriting the managed block of AGENTS files.

module AgentsSync {
  import opened Text

  const START := "<!-- lwa-mcp:managed:start -->"
  const END := "<!-- lwa-mcp:managed:end -->"
  const BREAK := "\n"

  // ---- Python's whitespace ----

  predicate IsSpace(c: char) {
    c == ' ' || '\t' <= c <= '\r' || '\U{1C}' <= c <= '\U{1F}' || c == '\U{85}' || c == '\U{A0}' || c == '\U{1680}'
      || '\U{2000}' <= c <= '\U{200A}' || c == '\U{2028}' || c == '\U{2029}' || c == '\U{202F}' || c == '\U{205F}' || c == '\U{3000}'
  }

  /** Length of `s.rstrip()`. */
  function Kept(s: string): (n: nat)
    ensures n <= |s| && forall k :: n <= k < |s| ==> IsSpace(s[k])
  {
    if s != "" && IsSpace(s[|s| - 1]) then Kept(s[..|s| - 1]) else |s|
  }

  function RStrip(s: string): string {
    s[..Kept(s)]
  }

  /** How many characters `s.lstrip()` drops. */
  function Leading(s: string): (n: nat)
    ensures n <= |s|
  {
    if s != "" && IsSpace(s[0]) then 1 + Leading(s[1..]) else 0
  }

  function Strip(s: string): string {
    RStrip(s[Leading(s)..])
  }

  // ---- render_agents ----

  /** `_managed_block`: what is between the markers. */
  function Body(shared: string, delta: string): string {
    var a, b := Strip(shared), Strip(delta);
    if Strip(a) == "" then (if Strip(b) == "" then "" else RStrip(b))
    else if Strip(b) == "" then RStrip(a)
    else RStrip(a) + BREAK + RStrip(b)
  }

  function ManagedBlock(shared: string, delta: string): string {
    START + BREAK + Body(shared, delta) + BREAK + END
  }

  // ---- what is between the markers ----

  predicate AllSpace(s: string) {
    forall k :: 0 <= k < |s| ==> IsSpace(s[k])
  }

  predicate Trimmed(core: string) {
    core == "" || (!IsSpace(core[0]) && !IsSpace(core[|core| - 1]))
  }

  /** The text without the whitespace around it. */
  ghost predicate IsCore(s: string, core: string) {
    Trimmed(core) && exists u, v :: Surrounds(s, u, core, v)
  }

  predicate Surrounds(s: string, u: string, core: string, v: string) {
    s == u + core + v && AllSpace(u) && AllSpace(v)
  }

  lemma {:induction false} LeadingIs(s: string)
    ensures AllSpace(s[..Leading(s)]) && (Leading(s) < |s| ==> !IsSpace(s[Leading(s)]))
    decreases |s|
  {
    if s != "" && IsSpace(s[0]) {
      LeadingIs(s[1..]);
      var n := Leading(s[1..]);
      assert s[..n + 1] == [s[0]] + s[1..][..n];
    }
  }

  lemma {:induction false} KeptIs(s: string)
    ensures AllSpace(s[Kept(s)..]) && (Kept(s) > 0 ==> !IsSpace(s[Kept(s) - 1]))
    decreases |s|
  {
    if s != "" && IsSpace(s[|s| - 1]) {
      KeptIs(s[..|s| - 1]);
    }
  }

  lemma ThreeSlices(s: string, i: nat, rest: string, n: nat)
    requires i <= |s| && rest == s[i..] && n <= |rest|
    ensures s == s[..i] + rest[..n] + rest[n..]
  {
  }

  lemma KeptIsTrimmed(rest: string)
    requires rest != "" ==> !IsSpace(rest[0])
    ensures Trimmed(RStrip(rest))
  {
    KeptIs(rest);
    var core := RStrip(rest);
    if core != "" {
      assert core[0] == rest[0] && core[|core| - 1] == rest[Kept(rest) - 1];
    }
  }

  lemma StripIsCore(s: string)
    ensures IsCore(s, Strip(s))
  {
    var i := Leading(s);
    var rest := s[i..];
    LeadingIs(s);
    KeptIs(rest);
    KeptIsTrimmed(rest);
    ThreeSlices(s, i, rest, Kept(rest));
    assert Surrounds(s, s[..i], Strip(s), rest[Kept(rest)..]);
  }

  lemma CoreBehind(s: string, u: string, core: string, v: string)
    requires Surrounds(s, u, core, v)
    ensures |s| == |u| + |core| + |v| && core == s[|u|..|u| + |core|]
    ensures forall k :: 0 <= k < |u| || |u| + |core| <= k < |s| ==> IsSpace(s[k])
  {
    forall k | 0 <= k < |u| ensures IsSpace(s[k]) {
      assert s[k] == u[k];
    }
    forall k | |u| + |core| <= k < |s| ensures IsSpace(s[k]) {
      assert s[k] == v[k - |u| - |core|];
    }
  }

  lemma CoreIsUnique(s: string, a: string, b: string)
    requires IsCore(s, a) && IsCore(s, b)
    ensures a == b
  {
    var u, v :| Surrounds(s, u, a, v);
    var x, y :| Surrounds(s, x, b, y);
    CoreBehind(s, u, a, v);
    CoreBehind(s, x, b, y);
    if a != "" {
      assert !IsSpace(s[|u|]) && !IsSpace(s[|u| + |a| - 1]);
    }
    if b != "" {
      assert !IsSpace(s[|x|]) && !IsSpace(s[|x| + |b| - 1]);
    }
  }

  /** A trimmed text stays what it is. */
  lemma CoreStays(core: string)
    requires Trimmed(core)
    ensures Strip(core) == core && RStrip(core) == core
  {
    assert Surrounds(core, "", core, "");
    StripIsCore(core);
    CoreIsUnique(core, core, Strip(core));
  }

  /** Between the markers stand the shared text and, on the next line, the delta, both without the whitespace
      around them; one that is blank is left out. */
  lemma BodyHolds(shared: string, delta: string, a: string, b: string)
    requires IsCore(shared, a) && IsCore(delta, b)
    ensures ManagedBlock(shared, delta)
      == START + "\n" + (if a == "" then b else if b == "" then a else a + "\n" + b) + "\n" + END
  {
    StripIsCore(shared);
    StripIsCore(delta);
    CoreIsUnique(shared, a, Strip(shared));
    CoreIsUnique(delta, b, Strip(delta));
    CoreStays(a);
    CoreStays(b);
  }

  predicate Contains(s: string, pat: string) {
    Find(s, pat, 0) >= 0
  }

  /** `pattern.search`: the first START with the first END behind it; the two ends of the match. */
  function Match(s: string): Option<(nat, nat)> {
    var i := Find(s, START, 0);
    if i < 0 then None
    else
      var j := Find(s, END, i + |START|);
      if j < 0 then None else Some((i, j + |END|))
  }

  datatype Rendered = Ok(text: string) | Unterminated | BadTemplate

  /** `expand` stands for the template processing of `re.sub`, None for its error. */
  function Render(existing: string, shared: string, delta: string, expand: string -> Option<string>): Rendered {
    Put(existing, ManagedBlock(shared, delta), expand)
  }

  function Put(existing: string, block: string, expand: string -> Option<string>): Rendered {
    if Contains(existing, START) && !Contains(existing, END) then Unterminated
    else
      match Match(existing)
      case None => Ok(RStrip(existing) + "\n\n" + block + BREAK)
      case Some((i, j)) =>
        match expand(block)
        case None => BadTemplate
        case Some(text) => Ok(existing[..i] + text + existing[j..])
  }

  // ---- occurrences across line breaks ----

  ghost predicate Absent(s: string, pat: string) {
    forall i :: !OccursAt(s, pat, i)
  }

  /** A pattern without line breaks occurs on one side of a line break or on the other. */
  lemma BreakSeparates(a: string, b: string, pat: string, i: int)
    requires '\n' !in pat && OccursAt(a + BREAK + b, pat, i)
    ensures OccursAt(a, pat, i) || (i > |a| && OccursAt(b, pat, i - |a| - 1))
  {
    var s, n := a + BREAK + b, |a|;
    assert s[n] == '\n';
    assert forall k :: 0 <= k < |pat| ==> s[i + k] == s[i..i + |pat|][k] == pat[k];
    if i + |pat| <= n {
      assert s[i..i + |pat|] == a[i..i + |pat|];
    } else if i > n {
      assert s[i..i + |pat|] == b[i - n - 1..i - n - 1 + |pat|];
    }
  }

  lemma AbsentInSlice(s: string, pat: string, from: nat, to: nat)
    requires Absent(s, pat) && from <= to <= |s|
    ensures Absent(s[from..to], pat)
  {
    forall i ensures !OccursAt(s[from..to], pat, i) {
      if 0 <= i && i + |pat| <= to - from {
        SliceOfSlice(s, from, to, i, i + |pat|);
        assert !OccursAt(s, pat, from + i);
      }
    }
  }

  lemma AbsentJoined(a: string, b: string, pat: string)
    requires '\n' !in pat && pat != "" && Absent(a, pat) && Absent(b, pat)
    ensures Absent(a + BREAK + b, pat)
  {
    forall i ensures !OccursAt(a + BREAK + b, pat, i) {
      if OccursAt(a + BREAK + b, pat, i) {
        BreakSeparates(a, b, pat, i);
      }
    }
  }

  lemma MarkersHaveNoBreak()
    ensures '\n' !in START && '\n' !in END
  {
  }

  /** The start marker does not contain the end marker. */
  lemma StartHasNoEnd()
    ensures Absent(START, END)
  {
    assert |START| == 30 && |END| == 28;
    assert END[0] == '<';
    assert END[21] == 'e';
    assert START[21] == 's';
    assert START[1] == '!';
    assert START[2] == '-';
    forall i ensures !OccursAt(START, END, i) {
      if 0 <= i <= 2 {
        assert START[i..i + |END|][0] == START[i] && START[i..i + |END|][21] == START[i + 21];
      }
    }
  }

  /** Text that is safe to put between the markers. */
  ghost predicate Clean(s: string) {
    Absent(s, START) && Absent(s, END) && '\\' !in s
  }

  lemma StripIsSlice(s: string) returns (from: nat, to: nat)
    ensures from <= to <= |s| && Strip(s) == s[from..to]
  {
    from := Leading(s);
    to := from + Kept(s[from..]);
    assert s[from..][..to - from] == s[from..to];
  }

  lemma StripIsClean(s: string)
    requires Clean(s)
    ensures Clean(Strip(s)) && Clean(RStrip(s))
  {
    var from, to := StripIsSlice(s);
    AbsentInSlice(s, START, from, to);
    AbsentInSlice(s, END, from, to);
    AbsentInSlice(s, START, 0, Kept(s));
    AbsentInSlice(s, END, 0, Kept(s));
    assert s[0..Kept(s)] == RStrip(s);
  }

  lemma EmptyIsClean()
    ensures Clean("")
  {
  }

  lemma BodyIsClean(shared: string, delta: string)
    requires Clean(shared) && Clean(delta)
    ensures Clean(Body(shared, delta))
  {
    var a, b := Strip(shared), Strip(delta);
    StripIsClean(shared);
    StripIsClean(delta);
    StripIsClean(a);
    StripIsClean(b);
    EmptyIsClean();
    MarkersHaveNoBreak();
    AbsentJoined(RStrip(a), RStrip(b), START);
    AbsentJoined(RStrip(a), RStrip(b), END);
  }

  /** The block, at the head of a text, is matched as a whole. */
  lemma BlockEnds(body: string, post: string)
    requires Absent(body, END)
    ensures var block := START + BREAK + body + BREAK + END;
      Find(block + post, END, |START|) == |block| - |END|
  {
    var block, tail := START + BREAK + body + BREAK + END, END + post;
    var s, at := block + post, |block| - |END|;
    MarkersHaveNoBreak();
    var rest := body + BREAK + tail;
    assert s == START + BREAK + rest;
    assert OccursAt(s, END, at) by { assert s[at..at + |END|] == END; }
    forall j | |START| <= j < at ensures !OccursAt(s, END, j) {
      if OccursAt(s, END, j) {
        BreakSeparates(START, rest, END, j);
        BreakSeparates(body, tail, END, j - |START| - 1);
      }
    }
  }

  function BlockOf(body: string): string {
    START + BREAK + body + BREAK + END
  }

  /** `pre` holds no start marker, not even one that begins in it. */
  ghost predicate NoStartBefore(pre: string) {
    forall j :: 0 <= j < |pre| ==> !OccursAt(pre + START, START, j)
  }

  lemma StartOfRendered(pre: string, tail: string)
    requires NoStartBefore(pre)
    ensures Find(pre + START + tail, START, 0) == |pre|
  {
    var head, n := pre + START, |pre|;
    assert OccursAt(head, START, n) by { assert head[n..] == START; }
    forall j | 0 <= j <= n ensures OccursAt(head + tail, START, j) <==> OccursAt(head, START, j) {
      OccursInExtension(head, tail, START, j);
    }
  }

  lemma EndOfRendered(pre: string, body: string, post: string)
    requires Absent(body, END)
    ensures Find(pre + BlockOf(body) + post, END, |pre| + |START|) == |pre| + |BlockOf(body)| - |END|
  {
    var s := pre + BlockOf(body) + post;
    assert s[|pre|..] == BlockOf(body) + post;
    BlockEnds(body, post);
    FindInSuffix(s, END, |pre|, |START|);
  }

  /** A rendered file: `pre` without a start marker, the block, `post`. */
  lemma RenderedFinds(pre: string, body: string, post: string, s: string, n: nat)
    requires Absent(body, END) && NoStartBefore(pre)
    requires s == pre + BlockOf(body) + post && n == |BlockOf(body)|
    ensures n > |END| && Find(s, START, 0) == |pre| && Find(s, END, |pre| + |START|) == |pre| + n - |END|
  {
    StartOfBlock(pre, body, post);
    EndOfRendered(pre, body, post);
    BlockLength(body);
  }

  lemma BlockLength(body: string)
    ensures |BlockOf(body)| > |START| + |END|
  {
  }

  lemma MatchOf(s: string, i: nat, j: nat)
    requires j > |END| && Find(s, START, 0) == i && Find(s, END, i + |START|) == j - |END|
    ensures Match(s) == Some((i, j))
  {
  }

  lemma MatchContains(s: string)
    requires Match(s).Some?
    ensures Contains(s, START) && Contains(s, END)
  {
    assert OccursAt(s, END, Find(s, END, Find(s, START, 0) + |START|));
  }

  lemma StartOfBlock(pre: string, body: string, post: string)
    requires NoStartBefore(pre)
    ensures Find(pre + BlockOf(body) + post, START, 0) == |pre|
  {
    var tail := BREAK + body + BREAK + END;
    assert BlockOf(body) == START + tail;
    assert pre + (START + tail) + post == pre + START + (tail + post);
    StartOfRendered(pre, tail + post);
  }

  // ---- the laws ----

  /** The first start marker, if there is one, is followed by an end marker. */
  predicate Terminated(s: string) {
    Contains(s, START) ==> Match(s).Some?
  }

  /** Template processing leaves text without backslashes alone. */
  ghost predicate PlainTemplates(expand: string -> Option<string>) {
    forall t :: '\\' !in t ==> expand(t) == Some(t)
  }

  lemma BlockHasNoBackslash(shared: string, delta: string)
    requires Clean(shared) && Clean(delta)
    ensures '\\' !in ManagedBlock(shared, delta) && ManagedBlock(shared, delta) == BlockOf(Body(shared, delta))
    ensures Absent(Body(shared, delta), END)
  {
    BodyIsClean(shared, delta);
    var body := Body(shared, delta);
    assert '\\' !in START && '\\' !in END;
  }

  /** What a terminated file is rendered to: text before and after, kept, around the block. */
  function Frame(existing: string): (string, string)
    requires Terminated(existing)
  {
    match Match(existing)
    case None => (RStrip(existing) + "\n\n", BREAK)
    case Some((i, j)) => (existing[..i], existing[j..])
  }

  lemma FrameHasNoStart(existing: string)
    requires Terminated(existing)
    ensures NoStartBefore(Frame(existing).0)
  {
    if Match(existing).Some? {
      FirstHasNoStart(existing, Match(existing).value.0);
    } else {
      KeptHasNoStart(existing, RStrip(existing));
    }
  }

  lemma FirstHasNoStart(existing: string, i: nat)
    requires Find(existing, START, 0) == i
    ensures i <= |existing| && NoStartBefore(existing[..i])
  {
    var head := HeadAt(existing, START, i);
    forall j | 0 <= j < i ensures !OccursAt(head, START, j) {
      OccursInExtension(head, existing[|head|..], START, j);
    }
  }

  lemma HeadAt(s: string, pat: string, i: nat) returns (head: string)
    requires OccursAt(s, pat, i)
    ensures head == s[..i] + pat && |head| <= |s| && head + s[|head|..] == s
  {
    head := s[..i + |pat|];
  }

  lemma KeptHasNoStart(existing: string, kept: string)
    requires !Contains(existing, START) && kept == RStrip(existing)
    ensures NoStartBefore(kept + "\n\n")
  {
    var pre := kept + "\n\n";
    assert kept == existing[0..|kept|];
    AbsentInSlice(existing, START, 0, |kept|);
    MarkersHaveNoBreak();
    assert pre + START == kept + BREAK + ("" + BREAK + START);
    forall j | 0 <= j < |pre| ensures !OccursAt(pre + START, START, j) {
      if OccursAt(pre + START, START, j) {
        BreakSeparates(kept, "" + BREAK + START, START, j);
        BreakSeparates("", START, START, j - |kept| - 1);
      }
    }
  }

  /** Rendering a terminated file puts the block between what was before and after it. */
  lemma RenderFramed(existing: string, shared: string, delta: string, expand: string -> Option<string>)
    requires Clean(shared) && Clean(delta) && PlainTemplates(expand) && Terminated(existing)
    ensures var (pre, post) := Frame(existing); Render(existing, shared, delta, expand) == Ok(pre + ManagedBlock(shared, delta) + post)
  {
    BlockHasNoBackslash(shared, delta);
    if Match(existing).Some? {
      var (i, j) := Match(existing).value;
      assert OccursAt(existing, END, j - |END|);
    }
  }

  /** What was rendered is terminated, and has the same text before and after the block. */
  lemma RenderedIsTerminated(existing: string, shared: string, delta: string)
    requires Clean(shared) && Clean(delta) && Terminated(existing)
    ensures var (pre, post) := Frame(existing); var y := pre + ManagedBlock(shared, delta) + post;
      Terminated(y) && Frame(y) == (pre, post)
  {
    var (pre, post) := Frame(existing);
    BlockHasNoBackslash(shared, delta);
    FrameHasNoStart(existing);
    var block := ManagedBlock(shared, delta);
    var y := pre + block + post;
    RenderedFinds(pre, Body(shared, delta), post, y, |block|);
    MatchOf(y, |pre|, |pre| + |block|);
    assert y[..|pre|] == pre && y[|pre| + |block|..] == post;
  }

  /** The last write wins: rendering one text and then another is rendering the other. */
  lemma LastWriteWins(existing: string, s1: string, d1: string, s2: string, d2: string, expand: string -> Option<string>)
    requires Clean(s1) && Clean(d1) && Clean(s2) && Clean(d2) && PlainTemplates(expand) && Terminated(existing)
    ensures Render(existing, s1, d1, expand).Ok?
    ensures Render(Render(existing, s1, d1, expand).text, s2, d2, expand) == Render(existing, s2, d2, expand)
  {
    RenderFramed(existing, s1, d1, expand);
    RenderedIsTerminated(existing, s1, d1);
    RenderFramed(Render(existing, s1, d1, expand).text, s2, d2, expand);
    RenderFramed(existing, s2, d2, expand);
  }

  /** A file without a managed block keeps its text up to trailing whitespace, and gets the block behind a blank line. */
  lemma BlockAppended(existing: string, shared: string, delta: string, expand: string -> Option<string>, kept: string)
    requires Absent(existing, START) && kept <= existing && AllSpace(existing[|kept|..])
    requires kept == "" || !IsSpace(kept[|kept| - 1])
    ensures Render(existing, shared, delta, expand) == Ok(kept + "\n\n" + ManagedBlock(shared, delta) + "\n")
  {
    KeptIs(existing);
    KeptIsUnique(existing, kept);
  }

  lemma KeptIsUnique(s: string, kept: string)
    requires kept <= s && AllSpace(s[|kept|..]) && (kept == "" || !IsSpace(kept[|kept| - 1]))
    ensures RStrip(s) == kept
  {
    KeptIs(s);
    var n := Kept(s);
    assert kept == s[..|kept|];
    assert kept != "" ==> !IsSpace(s[|kept| - 1]);
    assert forall k :: |kept| <= k < |s| ==> s[k] == s[|kept|..][k - |kept|];
  }

  /** A rendering is refused exactly for a start marker in a file without any end marker. */
  lemma RefusedIff(existing: string, shared: string, delta: string, expand: string -> Option<string>)
    ensures Render(existing, shared, delta, expand) == Unterminated <==> !Absent(existing, START) && Absent(existing, END)
  {
    assert Contains(existing, START) <==> !Absent(existing, START);
    assert Contains(existing, END) <==> !Absent(existing, END);
  }

  /** Text outside the managed block survives a rendering unchanged, and finds the same block again. */
  lemma UnmanagedTextKept(existing: string, shared: string, delta: string, expand: string -> Option<string>)
    requires Clean(shared) && Clean(delta) && PlainTemplates(expand) && Match(existing).Some?
    ensures var (i, j) := Match(existing).value; var r := Render(existing, shared, delta, expand);
      && r.Ok? && r.text[..i] == existing[..i]
      && Match(r.text).Some? && Match(r.text).value.0 == i && r.text[Match(r.text).value.1..] == existing[j..]
      && r.text[i..Match(r.text).value.1] == ManagedBlock(shared, delta)
  {
    RenderFramed(existing, shared, delta, expand);
    BlockHasNoBackslash(shared, delta);
    FrameHasNoStart(existing);
    var (pre, post) := Frame(existing);
    var block := ManagedBlock(shared, delta);
    var y := pre + block + post;
    RenderedFinds(pre, Body(shared, delta), post, y, |block|);
    MatchOf(y, |pre|, |pre| + |block|);
    ThreeParts(pre, block, post);
  }

  lemma ThreeParts(a: string, b: string, c: string)
    ensures var s := a + b + c; s[..|a|] == a && s[|a|..|a| + |b|] == b && s[|a| + |b|..] == c
  {
  }

  // ---- the file whose first start marker comes after its last end marker ----

  lemma {:induction false} RStripKeepsMarker(s: string, i: nat)
    requires OccursAt(s, START, i)
    ensures i + |START| <= |RStrip(s)|
  {
    var last := i + |START| - 1;
    assert s[i..i + |START|][|START| - 1] == s[last] == '>';
  }

  function Appended(existing: string, body: string): string {
    RStrip(existing) + "\n\n" + BlockOf(body) + BREAK
  }

  /** Behind an unterminated start marker the first end marker is the one of the appended block. */
  lemma UnterminatedEnd(existing: string, body: string, y: string, i: nat)
    requires OccursAt(existing, START, i) && Find(existing, END, i + |START|) < 0 && Absent(body, END)
    requires y == Appended(existing, body)
    ensures Find(y, END, i + |START|) == |y| - 1 - |END|
  {
    var pre := RStrip(existing) + "\n\n";
    RStripKeepsMarker(existing, i);
    EndOfRendered(pre, body, BREAK);
    assert y == pre + BlockOf(body) + BREAK;
    forall j | i + |START| <= j < |pre| + |START| ensures !OccursAt(y, END, j) {
      NoEndBeforeBlock(existing, i, body, j);
    }
  }

  lemma AppendedLength(existing: string, body: string, y: string)
    requires y == Appended(existing, body)
    ensures |y| == |RStrip(existing)| + 2 + |BlockOf(body)| + 1 && |y| > |END| && y[|y| - 1..] == BREAK
  {
  }

  lemma RStripSplits(s: string)
    ensures s == RStrip(s) + s[|RStrip(s)|..]
  {
  }

  lemma UnterminatedStart(existing: string, body: string, y: string, i: nat)
    requires Find(existing, START, 0) == i && y == Appended(existing, body)
    ensures Find(y, START, 0) == i && i < |RStrip(existing)|
  {
    var kept := RStrip(existing);
    RStripKeepsMarker(existing, i);
    RStripSplits(existing);
    var tail := AppendedTail(existing, body);
    SamePrefixSameFind(kept, existing[|kept|..], tail, i);
  }

  lemma AppendedTail(existing: string, body: string) returns (tail: string)
    ensures Appended(existing, body) == RStrip(existing) + tail
  {
    tail := "\n\n" + BlockOf(body) + BREAK;
  }

  /** What follows a text does not change where in it a pattern is first found. */
  lemma SamePrefixSameFind(kept: string, tail: string, other: string, i: nat)
    requires Find(kept + tail, START, 0) == i && i + |START| <= |kept|
    ensures Find(kept + other, START, 0) == i
  {
    forall j | 0 <= j <= i
      ensures OccursAt(kept + tail, START, j) <==> OccursAt(kept, START, j)
      ensures OccursAt(kept + other, START, j) <==> OccursAt(kept, START, j)
    {
      OccursInExtension(kept, tail, START, j);
      OccursInExtension(kept, other, START, j);
    }
  }

  lemma NoEndBeforeBlock(existing: string, i: nat, body: string, j: nat)
    requires Find(existing, END, i + |START|) < 0 && i + |START| <= j
    requires j < |RStrip(existing)| + 2 + |START|
    ensures !OccursAt(RStrip(existing) + "\n\n" + BlockOf(body) + BREAK, END, j)
  {
    var kept := RStrip(existing);
    var inner := body + BREAK + END + BREAK;
    var lower := START + BREAK + inner;
    var y := kept + BREAK + ("" + BREAK + lower);
    assert RStrip(existing) + "\n\n" + BlockOf(body) + BREAK == y;
    if j + |END| <= |kept| {
      OccursInExtension(kept, existing[|kept|..], END, j);
      assert existing == kept + existing[|kept|..];
    }
    if OccursAt(y, END, j) {
      MarkersHaveNoBreak();
      BreakSeparates(kept, "" + BREAK + lower, END, j);
      BreakSeparates("", lower, END, j - |kept| - 1);
      BreakSeparates(START, inner, END, j - |kept| - 2);
      StartHasNoEnd();
    }
  }

  /** Rendering twice gives what rendering once gave exactly when the file's first start marker, if any,
      is followed by an end marker; otherwise the second rendering swallows the text behind that marker. */
  lemma IdempotentIff(existing: string, shared: string, delta: string, expand: string -> Option<string>)
    requires Clean(shared) && Clean(delta) && PlainTemplates(expand) && Render(existing, shared, delta, expand).Ok?
    ensures var y := Render(existing, shared, delta, expand).text;
      Render(y, shared, delta, expand) == Ok(y) <==> Terminated(existing)
  {
    if Terminated(existing) {
      LastWriteWins(existing, shared, delta, shared, delta, expand);
    } else {
      SecondRenderingSwallows(existing, shared, delta, expand);
    }
  }

  lemma SecondRenderingSwallows(existing: string, shared: string, delta: string, expand: string -> Option<string>)
    requires Clean(shared) && Clean(delta) && PlainTemplates(expand) && Render(existing, shared, delta, expand).Ok?
    requires !Terminated(existing)
    ensures var y, i := Render(existing, shared, delta, expand).text, Find(existing, START, 0);
      && 0 <= i < |y| && Render(y, shared, delta, expand) == Ok(y[..i] + ManagedBlock(shared, delta) + BREAK)
      && Render(y, shared, delta, expand) != Ok(y)
  {
    BlockHasNoBackslash(shared, delta);
    UnterminatedFind(existing);
    Swallows(existing, Body(shared, delta), ManagedBlock(shared, delta), Find(existing, START, 0), expand);
  }

  lemma UnterminatedFind(existing: string)
    requires !Terminated(existing)
    ensures var i := Find(existing, START, 0); i >= 0 && Find(existing, END, i + |START|) < 0 && Match(existing) == None
  {
  }

  lemma Swallows(existing: string, body: string, block: string, i: nat, expand: string -> Option<string>)
    requires Find(existing, START, 0) == i && Find(existing, END, i + |START|) < 0 && Match(existing) == None
    requires block == BlockOf(body) && '\\' !in block && Absent(body, END) && PlainTemplates(expand)
    requires Put(existing, block, expand).Ok?
    ensures var y := Put(existing, block, expand).text;
      i < |y| && Put(y, block, expand) == Ok(y[..i] + block + BREAK) && Put(y, block, expand) != Ok(y)
  {
    var y := FirstRendering(existing, body, block, i, expand);
    SecondRendering(y, block, i, |RStrip(existing)|, expand);
  }

  lemma FirstRendering(existing: string, body: string, block: string, i: nat, expand: string -> Option<string>) returns (y: string)
    requires Find(existing, START, 0) == i && Find(existing, END, i + |START|) < 0 && Match(existing) == None
    requires block == BlockOf(body) && Absent(body, END) && Put(existing, block, expand).Ok?
    ensures Put(existing, block, expand) == Ok(y)
    ensures Find(y, START, 0) == i && i < |RStrip(existing)| && Find(y, END, i + |START|) == |y| - 1 - |END|
    ensures |y| == |RStrip(existing)| + 2 + |block| + 1 && |y| > |END| && y[|y| - 1..] == BREAK
  {
    AppendedIsPut(existing, block, expand);
    y := Appended(existing, body);
    UnterminatedStart(existing, body, y, i);
    UnterminatedEnd(existing, body, y, i);
    AppendedLength(existing, body, y);
  }

  lemma SecondRendering(y: string, block: string, i: nat, kept: nat, expand: string -> Option<string>)
    requires Find(y, START, 0) == i && Find(y, END, i + |START|) == |y| - 1 - |END|
    requires i < kept && |y| == kept + 2 + |block| + 1 && |y| > |END| && y[|y| - 1..] == BREAK
    requires '\\' !in block && PlainTemplates(expand)
    ensures Put(y, block, expand) == Ok(y[..i] + block + BREAK) && Put(y, block, expand) != Ok(y)
  {
    MatchOf(y, i, |y| - 1);
    PutMatched(y, i, |y| - 1, block, expand);
    Shorter(y, i, block, kept);
  }

  lemma Shorter(y: string, i: nat, block: string, kept: nat)
    requires i < kept && |y| == kept + 2 + |block| + 1
    ensures y[..i] + block + BREAK != y
  {
    assert |y[..i] + block + BREAK| < |y|;
  }

  lemma AppendedIsPut(existing: string, block: string, expand: string -> Option<string>)
    requires Put(existing, block, expand).Ok? && Match(existing) == None
    ensures Put(existing, block, expand) == Ok(RStrip(existing) + "\n\n" + block + BREAK)
  {
  }

  lemma PutMatched(y: string, i: nat, j: nat, block: string, expand: string -> Option<string>)
    requires PlainTemplates(expand) && '\\' !in block && Match(y) == Some((i, j))
    ensures j <= |y| && i <= |y| && Put(y, block, expand) == Ok(y[..i] + block + y[j..])
  {
    MatchContains(y);
    MatchInside(y, i, j);
  }

  lemma MatchInside(y: string, i: nat, j: nat)
    requires Match(y) == Some((i, j))
    ensures i <= j <= |y|
  {
    assert OccursAt(y, END, j - |END|);
  }
}
