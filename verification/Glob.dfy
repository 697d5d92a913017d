// Shell-style patterns as `fnmatch.fnmatchcase` reads them: `*`, `?`, `[seq]`, `[!seq]`.

module Glob {
  import opened Text

  datatype Atom = Lit(c: char) | AnyChar | Star | Class(negated: bool, body: string)

  /** Index of the `]` that closes a class whose text starts at `r[0]`, or -1. */
  function ClassEnd(r: string): int {
    var j := if r != "" && r[0] == '!' then 1 else 0;
    Find(r, "]", if j < |r| && r[j] == ']' then j + 1 else j)
  }

  function ClassOf(stuff: string): Atom {
    if stuff != "" && stuff[0] == '!' then Class(true, stuff[1..]) else Class(false, stuff)
  }

  /** The atom of a character outside a class. */
  function AtomOf(c: char): Atom {
    if c == '*' then Star else if c == '?' then AnyChar else Lit(c)
  }

  function Parse(p: string): seq<Atom>
    decreases |p|
  {
    if p == "" then []
    else if p[0] == '[' && ClassEnd(p[1..]) >= 0 then
      var e := ClassEnd(p[1..]);
      [ClassOf(p[1..][..e])] + Parse(p[1..][e + 1..])
    else [AtomOf(p[0])] + Parse(p[1..])
  }

  /** A range `x-y` takes three characters; an empty range holds nothing. */
  predicate ClassHas(body: string, c: char)
    decreases |body|
  {
    if |body| >= 3 && body[1] == '-' then body[0] <= c <= body[2] || ClassHas(body[3..], c)
    else body != "" && (body[0] == c || ClassHas(body[1..], c))
  }

  /** A one-character atom accepts `c`. */
  predicate Admits(a: Atom, c: char) {
    match a
    case Lit(d) => c == d
    case AnyChar => true
    case Star => false
    case Class(negated, body) => negated != ClassHas(body, c)
  }

  predicate MatchAtoms(p: seq<Atom>, s: string)
    decreases |p| + |s|
  {
    if p == [] then s == ""
    else if p[0].Star? then MatchAtoms(p[1..], s) || (s != "" && MatchAtoms(p, s[1..]))
    else s != "" && Admits(p[0], s[0]) && MatchAtoms(p[1..], s[1..])
  }

  /** `fnmatch.fnmatchcase(name, pattern)`. */
  predicate Matches(pattern: string, name: string) {
    MatchAtoms(Parse(pattern), name)
  }

  // ---- what a class means ----

  /** One part of a class: a character or a range. */
  datatype Member = One(c: char) | Range(low: char, high: char)

  function Spelled(ms: seq<Member>): string {
    if ms == [] then ""
    else (match ms[0] case One(c) => [c] case Range(low, high) => [low, '-', high]) + Spelled(ms[1..])
  }

  /** A hyphen stands only inside ranges. */
  predicate HyphensInRanges(ms: seq<Member>) {
    forall m :: m in ms ==> if m.One? then m.c != '-' else m.low != '-'
  }

  predicate Within(c: char, m: Member) {
    match m
    case One(d) => c == d
    case Range(low, high) => low <= c <= high
  }

  predicate WithinSome(c: char, ms: seq<Member>) {
    exists m :: m in ms && Within(c, m)
  }

  lemma WithinFirst(c: char, ms: seq<Member>)
    requires ms != []
    ensures WithinSome(c, ms) <==> Within(c, ms[0]) || WithinSome(c, ms[1..])
  {
    assert ms[0] in ms;
    assert forall m :: m in ms <==> m == ms[0] || m in ms[1..];
  }

  lemma SpelledStart(ms: seq<Member>)
    requires HyphensInRanges(ms) && ms != []
    ensures Spelled(ms) != "" && Spelled(ms)[0] != '-'
  {
    assert ms[0] in ms;
  }

  /** A class body holds exactly the characters of its parts. */
  lemma {:induction false} ClassHolds(ms: seq<Member>, c: char)
    requires HyphensInRanges(ms)
    ensures ClassHas(Spelled(ms), c) <==> WithinSome(c, ms)
    decreases |ms|
  {
    if ms != [] {
      var body, rest := Spelled(ms), Spelled(ms[1..]);
      ClassHolds(ms[1..], c);
      WithinFirst(c, ms);
      if ms[0].One? {
        assert body[1..] == rest;
        if ms[1..] != [] {
          SpelledStart(ms[1..]);
        }
      } else {
        assert body[3..] == rest;
      }
    }
  }

  /** `[body]` and `[!body]` are classes; a `]` right at the start of the body stands for itself. */
  lemma ClassReads(negated: bool, body: string, rest: string)
    requires body != "" && ']' !in body[1..] && (negated || body[0] != '!')
    ensures Parse("[" + ((if negated then "!" else "") + body + "]" + rest)) == [Class(negated, body)] + Parse(rest)
  {
    var head := (if negated then "!" else "") + body;
    var r := head + "]" + rest;
    ClassCloses(negated, body, head, rest);
    assert ("[" + r)[1..] == r && r[..|head|] == head && r[|head| + 1..] == rest;
    assert head[|head| - |body|..] == body;
    assert ClassOf(head) == Class(negated, body);
  }

  lemma ClassCloses(negated: bool, body: string, head: string, rest: string)
    requires body != "" && ']' !in body[1..] && (negated || body[0] != '!')
    requires head == (if negated then "!" else "") + body
    ensures ClassEnd(head + "]" + rest) == |head|
  {
    var r, j := head + "]" + rest, if negated then 1 else 0;
    assert r[0] == head[0] && r[j] == body[0];
    forall i ensures OccursAt(r, "]", i) <==> 0 <= i < |r| && r[i] == ']' {
      CharOccurs(r, ']', i);
    }
    forall i | j < i < |head| ensures r[i] != ']' {
      assert r[i] == body[1..][i - j - 1];
    }
    assert OccursAt(r, "]", |head|);
  }

  /** A bracket that no later one closes stands for itself. */
  lemma BracketAlone(rest: string)
    requires ']' !in rest
    ensures Parse("[" + rest) == [Lit('[')] + Parse(rest)
  {
    CharOccurs(rest, ']', ClassEnd(rest));
    assert ClassEnd(rest) < 0;
    assert ("[" + rest)[1..] == rest;
  }

  /** A class accepts one character: one of its parts, or for `[!...]` one of none. */
  lemma ClassAccepts(negated: bool, ms: seq<Member>, rest: string, name: string)
    requires HyphensInRanges(ms) && ms != []
    requires var body := Spelled(ms); body != "" && ']' !in body[1..] && (negated || body[0] != '!')
    ensures Matches("[" + ((if negated then "!" else "") + Spelled(ms) + "]" + rest), name)
      <==> name != "" && (negated != WithinSome(name[0], ms)) && Matches(rest, name[1..])
  {
    ClassReads(negated, Spelled(ms), rest);
    var atoms := [Class(negated, Spelled(ms))] + Parse(rest);
    assert atoms[1..] == Parse(rest);
    if name != "" {
      ClassHolds(ms, name[0]);
    }
  }

  /** No closed `[...]` class in the pattern. */
  predicate ClassFree(p: string) {
    forall a :: a in Parse(p) ==> !a.Class?
  }

  /** No one-character atom accepts a wildcard sign, so a wildcard in a name is only ever absorbed by `*`. */
  predicate Rigid(p: string) {
    forall a :: a in Parse(p) ==> !Admits(a, '*') && !Admits(a, '?')
  }

  /** Plain text: every character stands for itself. */
  predicate Plain(p: string) {
    ClassFree(p) && '*' !in p && '?' !in p
  }

  lemma ClassFreeHead(p: string)
    requires p != "" && ClassFree(p)
    ensures Parse(p) == [AtomOf(p[0])] + Parse(p[1..]) && ClassFree(p[1..])
  {
    assert Parse(p) != [] && Parse(p)[0] in Parse(p);
    assert Parse(p) == [AtomOf(p[0])] + Parse(p[1..]);
    assert forall a :: a in Parse(p[1..]) ==> a in Parse(p);
  }

  /** Anything may be put in front of a name that a leading `*` already accepts. */
  lemma {:induction false} StarAbsorbs(p: seq<Atom>, prefix: string, s: string)
    requires p != [] && p[0].Star? && MatchAtoms(p, s)
    ensures MatchAtoms(p, prefix + s)
    decreases |prefix|
  {
    if prefix == "" {
      assert prefix + s == s;
    } else {
      StarAbsorbs(p, prefix[1..], s);
      assert (prefix + s)[1..] == prefix[1..] + s;
    }
  }

  /** Where a leading `*` stops. */
  lemma {:induction false} StarSplits(p: seq<Atom>, s: string) returns (k: nat)
    requires p != [] && p[0].Star? && MatchAtoms(p, s)
    ensures k <= |s| && MatchAtoms(p[1..], s[k..])
    decreases |s|
  {
    if MatchAtoms(p[1..], s) {
      k := 0;
      assert s[0..] == s;
    } else {
      var k' := StarSplits(p, s[1..]);
      k := k' + 1;
      assert s[1..][k'..] == s[k..];
    }
  }

  /** The inclusion at the heart of delegation: a class-free child that matches a rigid
      parent as text denotes no name the parent does not denote. */
  lemma {:induction false} TextMatchIsInclusion(parent: seq<Atom>, child: string, path: string)
    requires forall a :: a in parent ==> !Admits(a, '*') && !Admits(a, '?')
    requires ClassFree(child) && MatchAtoms(parent, child) && Matches(child, path)
    ensures MatchAtoms(parent, path)
    decreases |parent| + |child|
  {
    if parent == [] {
    } else if parent[0].Star? && MatchAtoms(parent[1..], child) {
      TextMatchIsInclusion(parent[1..], child, path);
    } else {
      ClassFreeHead(child);
      assert Parse(child)[1..] == Parse(child[1..]);
      if !parent[0].Star? {
        assert parent[0] in parent;
        TextMatchIsInclusion(parent[1..], child[1..], path[1..]);
      } else if child[0] == '*' {
        var k := StarSplits(Parse(child), path);
        TextMatchIsInclusion(parent, child[1..], path[k..]);
        StarAbsorbs(parent, path[..k], path[k..]);
        assert path == path[..k] + path[k..];
      } else {
        TextMatchIsInclusion(parent, child[1..], path[1..]);
      }
    }
  }

  /** The pattern with every `?` widened to `*`. */
  function Widened(p: string): string {
    seq(|p|, i requires 0 <= i < |p| => if p[i] == '?' then '*' else p[i])
  }

  /** The characters that stand for themselves. */
  function Literals(p: string): string {
    if p == "" then "" else (if p[0] == '*' || p[0] == '?' then "" else [p[0]]) + Literals(p[1..])
  }

  lemma WidenedTail(p: string)
    requires p != ""
    ensures Widened(p)[1..] == Widened(p[1..])
  {
  }

  lemma WidenedClassEnd(r: string)
    ensures ClassEnd(Widened(r)) == ClassEnd(r)
  {
    forall j ensures OccursAt(Widened(r), "]", j) == OccursAt(r, "]", j) {
      if 0 <= j < |r| {
        assert r[j..j + 1] == [r[j]] && Widened(r)[j..j + 1] == [Widened(r)[j]];
      }
    }
  }

  lemma WidenedHead(p: string)
    requires p != "" && ClassFree(p)
    ensures Parse(Widened(p)) == [AtomOf(if p[0] == '?' then '*' else p[0])] + Parse(Widened(p[1..]))
  {
    ClassFreeHead(p);
    assert !Parse(p)[0].Class?;
    WidenedTail(p);
    WidenedClassEnd(p[1..]);
  }

  lemma {:induction false} WidenedClassFree(p: string)
    requires ClassFree(p)
    ensures ClassFree(Widened(p))
    decreases |p|
  {
    if p != "" {
      ClassFreeHead(p);
      WidenedHead(p);
      WidenedClassFree(p[1..]);
    }
  }

  /** As text, the widened pattern matches the original. */
  lemma {:induction false} WidenedMatches(p: string)
    requires ClassFree(p)
    ensures Matches(p, Widened(p))
    decreases |p|
  {
    if p != "" {
      ClassFreeHead(p);
      WidenedMatches(p[1..]);
      WidenedTail(p);
      assert Parse(p)[1..] == Parse(p[1..]);
      if p[0] == '*' {
        assert MatchAtoms(Parse(p), Widened(p)[1..]);
      }
    }
  }

  lemma {:induction false} WidenedMatchesLiterals(p: string)
    requires ClassFree(p)
    ensures Matches(Widened(p), Literals(p))
    decreases |p|
  {
    if p != "" {
      ClassFreeHead(p);
      WidenedHead(p);
      WidenedMatchesLiterals(p[1..]);
      assert Parse(Widened(p))[1..] == Parse(Widened(p[1..]));
      if p[0] != '*' && p[0] != '?' {
        assert Literals(p)[1..] == Literals(p[1..]);
      } else {
        assert Literals(p) == Literals(p[1..]);
      }
    }
  }

  /** A name is at least as long as the count of one-character atoms. */
  lemma {:induction false} ShortNamesFail(p: string, s: string)
    requires ClassFree(p) && Matches(p, s)
    ensures |s| >= |Literals(p)| && ('?' in p ==> |s| > |Literals(p)|)
    decreases |p| + |s|
  {
    if p != "" {
      ClassFreeHead(p);
      assert Parse(p)[1..] == Parse(p[1..]);
      if p[0] != '*' {
        ShortNamesFail(p[1..], s[1..]);
      } else if Matches(p[1..], s) {
        ShortNamesFail(p[1..], s);
      } else {
        ShortNamesFail(p, s[1..]);
      }
    }
  }

  /** A class-free pattern without `?` is rigid. */
  lemma {:induction false} NoQuestionIsRigid(p: string)
    requires ClassFree(p) && '?' !in p
    ensures Rigid(p)
    decreases |p|
  {
    if p != "" {
      ClassFreeHead(p);
      NoQuestionIsRigid(p[1..]);
    }
  }

  /** Every class-free child that matches `parent` as text denotes a part of what `parent` denotes. */
  ghost predicate CoverSound(parent: string) {
    forall child, path :: ClassFree(child) && Matches(parent, child) && Matches(child, path) ==> Matches(parent, path)
  }

  /** Exactly which class-free parents may be delegated from by matching the child as text. */
  lemma CoverSoundIff(parent: string)
    requires ClassFree(parent)
    ensures CoverSound(parent) <==> '?' !in parent
  {
    if '?' in parent {
      WidenedClassFree(parent);
      WidenedMatches(parent);
      WidenedMatchesLiterals(parent);
      if Matches(parent, Literals(parent)) { ShortNamesFail(parent, Literals(parent)); }
    } else {
      NoQuestionIsRigid(parent);
      RigidCoverSound(parent);
    }
  }

  lemma RigidCoverSound(parent: string)
    requires Rigid(parent)
    ensures CoverSound(parent)
  {
    forall child, path | ClassFree(child) && Matches(parent, child) && Matches(child, path)
      ensures Matches(parent, path)
    {
      TextMatchIsInclusion(Parse(parent), child, path);
    }
  }

  /** With a class in the child even a `*`-only parent over-delegates: `[ab]` matches `*b]` as text
      and denotes `a`, which `*b]` does not. */
  lemma ClassChildEscapes()
    ensures Rigid("*b]") && !ClassFree("[ab]")
    ensures Matches("*b]", "[ab]") && Matches("[ab]", "a") && !Matches("*b]", "a")
  {
    ParseParent();
    ParseClass();
    assert Class(false, "ab") in Parse("[ab]");
    ParentMatches();
    assert "a"[1..] == "";
  }

  lemma ParseParent()
    ensures Parse("*b]") == [Star, Lit('b'), Lit(']')]
  {
    assert "*b]"[1..] == "b]" && "b]"[1..] == "]" && "]"[1..] == "";
    assert Parse("]") == [Lit(']')];
    assert Parse("b]") == [Lit('b'), Lit(']')];
  }

  lemma ParseClass()
    ensures Parse("[ab]") == [Class(false, "ab")]
  {
    var r := "ab]";
    assert "[ab]"[1..] == r;
    assert r[2..3] == "]" && r[0..1] == "a" && r[1..2] == "b";
    assert OccursAt(r, "]", 2) && !OccursAt(r, "]", 0) && !OccursAt(r, "]", 1);
    assert ClassEnd(r) == 2;
    assert r[..2] == "ab" && r[2 + 1..] == "";
  }

  lemma ParentMatches()
    ensures MatchAtoms([Star, Lit('b'), Lit(']')], "[ab]") && !MatchAtoms([Star, Lit('b'), Lit(']')], "a")
  {
    var p := [Star, Lit('b'), Lit(']')];
    assert p[1..] == [Lit('b'), Lit(']')] && p[1..][1..] == [Lit(']')] && p[1..][1..][1..] == [];
    assert "[ab]"[1..] == "ab]" && "ab]"[1..] == "b]" && "b]"[1..] == "]" && "]"[1..] == "" && "a"[1..] == "";
    assert MatchAtoms(p[1..], "b]");
    assert MatchAtoms(p, "ab]");
  }

  /** A pattern matches the text it is written as. */
  lemma {:induction false} MatchesItself(p: string)
    requires ClassFree(p)
    ensures Matches(p, p)
    decreases |p|
  {
    if p != "" {
      ClassFreeHead(p);
      MatchesItself(p[1..]);
      assert Parse(p)[1..] == Parse(p[1..]);
      if p[0] == '*' {
        assert MatchAtoms(Parse(p), p[1..]);
      }
    }
  }

  /** Plain text denotes only itself. */
  lemma {:induction false} PlainMatches(p: string, s: string)
    requires Plain(p)
    ensures Matches(p, s) <==> s == p
    decreases |p|
  {
    if p != "" {
      ClassFreeHead(p);
      assert Parse(p)[1..] == Parse(p[1..]);
      if s != "" {
        PlainMatches(p[1..], s[1..]);
        assert s == [s[0]] + s[1..] && p == [p[0]] + p[1..];
      }
    }
  }

  /** The overlap test of the registry: one pattern matches the other as text. */
  predicate Clash(a: string, b: string) {
    Matches(a, b) || Matches(b, a)
  }

  ghost predicate SharePath(a: string, b: string) {
    exists path :: Matches(a, path) && Matches(b, path)
  }

  /** The test raises no false alarm on class-free patterns. */
  lemma ClashIsReal(a: string, b: string)
    requires ClassFree(a) && ClassFree(b) && Clash(a, b)
    ensures SharePath(a, b)
  {
    MatchesItself(a);
    MatchesItself(b);
  }

  /** It is exact as soon as one of the two patterns is plain text. */
  lemma ClashExactForPlain(a: string, b: string)
    requires Plain(a) && ClassFree(b)
    ensures Clash(a, b) <==> SharePath(a, b)
  {
    if Clash(a, b) {
      ClashIsReal(a, b);
    }
    if SharePath(a, b) {
      var path :| Matches(a, path) && Matches(b, path);
      PlainMatches(a, path);
    }
  }

  // ---- when the overlap test is exact ----

  /** One step of matching a class-free pattern, on the text of the pattern. */
  lemma MatchStep(p: string, s: string)
    requires p != "" && ClassFree(p)
    ensures ClassFree(p[1..])
    ensures p[0] == '*' ==> (Matches(p, s) <==> Matches(p[1..], s) || (s != "" && Matches(p, s[1..])))
    ensures p[0] != '*' ==> (Matches(p, s) <==> s != "" && (p[0] == '?' || p[0] == s[0]) && Matches(p[1..], s[1..]))
  {
    ClassFreeHead(p);
    assert Parse(p)[1..] == Parse(p[1..]);
  }

  lemma {:induction false} NoBracketClassFree(p: string)
    requires '[' !in p
    ensures ClassFree(p)
    decreases |p|
  {
    if p != "" {
      NoBracketClassFree(p[1..]);
      assert Parse(p) == [AtomOf(p[0])] + Parse(p[1..]);
    }
  }

  /** Whatever a pattern denotes holds each of the pattern's literals. */
  lemma {:induction false} LiteralNeeded(p: string, s: string, c: char)
    requires ClassFree(p) && Matches(p, s) && c in p && c != '*' && c != '?'
    ensures c in s
    decreases |p| + |s|
  {
    MatchStep(p, s);
    if p[0] != '*' {
      if c != p[0] {
        LiteralNeeded(p[1..], s[1..], c);
      }
    } else if Matches(p[1..], s) {
      LiteralNeeded(p[1..], s, c);
    } else {
      LiteralNeeded(p, s[1..], c);
    }
  }

  function Questions(p: string): nat {
    if p == "" then 0 else (if p[0] == '?' then 1 else 0) + Questions(p[1..])
  }

  /** A pattern of wildcards only constrains the length of a name. */
  lemma {:induction false} WildMatches(p: string, s: string)
    requires ClassFree(p) && Literals(p) == ""
    ensures Matches(p, s) <==> if '*' in p then |s| >= Questions(p) else |s| == Questions(p)
    decreases |p| + |s|
  {
    if p != "" {
      MatchStep(p, s);
      WildMatches(p[1..], s);
      if s != "" {
        WildMatches(p[1..], s[1..]);
        WildMatches(p, s[1..]);
      }
    }
  }

  /** Without `*`, names are matched character by character. */
  lemma {:induction false} NoStarMatches(p: string, s: string)
    requires ClassFree(p) && '*' !in p
    ensures Matches(p, s) <==> |s| == |p| && forall i :: 0 <= i < |p| ==> p[i] == '?' || p[i] == s[i]
    decreases |p|
  {
    if p != "" {
      MatchStep(p, s);
      if s != "" {
        NoStarMatches(p[1..], s[1..]);
        assert forall i :: 1 <= i < |p| && i < |s| ==> p[i] == p[1..][i - 1] && s[i] == s[1..][i - 1];
      }
    }
  }

  /** A pattern with `*` denotes arbitrarily long names. */
  lemma {:induction false} LongName(p: string, n: nat) returns (s: string)
    requires ClassFree(p) && '*' in p
    ensures Matches(p, s) && |s| >= n
    decreases |p| + n
  {
    if p[0] == '*' {
      if n == 0 {
        s := p;
        MatchesItself(p);
      } else {
        var shorter := LongName(p, n - 1);
        s := "x" + shorter;
        assert s[1..] == shorter;
      }
      MatchStep(p, s);
    } else {
      MatchStep(p, "");
      var rest := LongName(p[1..], n);
      s := [p[0]] + rest;
      assert s[1..] == rest;
      MatchStep(p, s);
    }
  }

  function Repeat(c: char, n: nat): (s: string)
    ensures |s| == n && forall d :: d in s ==> d == c
  {
    if n == 0 then "" else [c] + Repeat(c, n - 1)
  }

  lemma {:induction false} RepeatIsWild(c: char, n: nat)
    requires c == '*' || c == '?'
    ensures Literals(Repeat(c, n)) == "" && Questions(Repeat(c, n)) == if c == '?' then n else 0
  {
    if n > 0 {
      RepeatIsWild(c, n - 1);
    }
  }

  /** `k` question marks, an `x`, and stars. */
  function Probe(k: nat, stars: nat): (p: string)
    ensures |p| == k + 1 + stars && '[' !in p
  {
    if k == 0 then "x" + Repeat('*', stars) else "?" + Probe(k - 1, stars)
  }

  /** It asks whether character `k` of a name is an `x`. */
  lemma {:induction false} ProbeMatches(k: nat, stars: nat, s: string)
    requires stars > 0
    ensures ClassFree(Probe(k, stars))
    ensures Matches(Probe(k, stars), s) <==> k < |s| && s[k] == 'x'
    decreases k
  {
    var p := Probe(k, stars);
    NoBracketClassFree(p);
    MatchStep(p, s);
    if s != "" {
      if k > 0 {
        ProbeMatches(k - 1, stars, s[1..]);
      } else {
        assert p[1..] == Repeat('*', stars);
        RepeatIsWild('*', stars);
        WildMatches(p[1..], s[1..]);
        assert p[1..][0] in p[1..];
      }
    }
  }

  /** The scopes with which the overlap test never errs: plain text, or wildcards only with a `*` and at
      most two `?`. */
  predicate NeverMissed(a: string) {
    Plain(a) || (Literals(a) == "" && '*' in a && Questions(a) <= 2)
  }

  ghost predicate ClashExact(a: string) {
    forall b :: ClassFree(b) ==> (Clash(a, b) <==> SharePath(a, b))
  }

  /** The overlap test is exact for a scope, whatever it is compared with, exactly under that condition. */
  lemma ClashExactIff(a: string)
    requires ClassFree(a)
    ensures ClashExact(a) <==> NeverMissed(a)
  {
    if NeverMissed(a) {
      forall b | ClassFree(b) ensures Clash(a, b) <==> SharePath(a, b) {
        if Plain(a) {
          ClashExactForPlain(a, b);
        } else {
          ClashExactForWild(a, b);
        }
      }
    } else {
      var b := ClashMisses(a);
      assert ClassFree(b) && SharePath(a, b) && !Clash(a, b);
    }
  }

  lemma ClashExactForWild(a: string, b: string)
    requires ClassFree(a) && ClassFree(b) && Literals(a) == "" && '*' in a && Questions(a) <= 2
    ensures Clash(a, b) <==> SharePath(a, b)
  {
    if Clash(a, b) {
      ClashIsReal(a, b);
    }
    if SharePath(a, b) {
      var path :| Matches(a, path) && Matches(b, path);
      WildMatches(a, path);
      WildMatches(a, b);
      if |b| < Questions(a) {
        ShortPattern(b, path, a);
      }
    }
  }

  /** A pattern of at most one character that denotes a longer name is `*`, and matches any text. */
  lemma ShortPattern(b: string, path: string, text: string)
    requires ClassFree(b) && |b| <= 1 && |path| > |b| && Matches(b, path)
    ensures Matches(b, text)
  {
    if '*' in b {
      assert b == "*" && b[1..] == "";
      WildMatches(b, text);
    } else {
      NoStarMatches(b, path);
    }
  }

  /** For every other scope there is one the test misses. */
  lemma ClashMisses(a: string) returns (b: string)
    requires ClassFree(a) && !NeverMissed(a)
    ensures ClassFree(b) && SharePath(a, b) && !Clash(a, b)
  {
    if '*' !in a {
      b := MissesFixed(a);
    } else if Literals(a) == "" {
      b := MissesWild(a);
    } else {
      b := MissesLiteral(a);
    }
  }

  /** Without `*`: a partner that asks for an `x` where the scope has a `?`. */
  lemma MissesFixed(a: string) returns (b: string)
    requires ClassFree(a) && '*' !in a && '?' in a
    ensures ClassFree(b) && SharePath(a, b) && !Clash(a, b)
  {
    var i :| 0 <= i < |a| && a[i] == '?';
    b := Probe(i, |a|);
    var path := seq(|a|, k requires 0 <= k < |a| => if a[k] == '?' then 'x' else a[k]);
    NoStarMatches(a, path);
    NoStarMatches(a, b);
    ProbeMatches(i, |a|, path);
    ProbeMatches(i, |a|, a);
    assert Matches(a, path) && Matches(b, path);
  }

  /** Wildcards only, three `?` or more: `x*` is too short for it. */
  lemma MissesWild(a: string) returns (b: string)
    requires ClassFree(a) && '*' in a && Literals(a) == "" && Questions(a) > 2
    ensures ClassFree(b) && SharePath(a, b) && !Clash(a, b)
  {
    b := Probe(0, 1);
    var path := Repeat('x', Questions(a));
    assert path[0] in path;
    WildMatches(a, path);
    WildMatches(a, b);
    ProbeMatches(0, 1, path);
    ProbeMatches(0, 1, a);
    LiteralsOf(a);
    assert Matches(a, path) && Matches(b, path);
  }

  lemma {:induction false} LiteralsOf(p: string)
    ensures Literals(p) == "" <==> forall c :: c in p ==> c == '*' || c == '?'
    decreases |p|
  {
    if p != "" {
      LiteralsOf(p[1..]);
      assert p[0] in p;
      assert forall c :: c in p <==> c == p[0] || c in p[1..];
    }
  }

  /** A `*` and a literal: a partner of wildcards only, longer than the scope's text. */
  lemma MissesLiteral(a: string) returns (b: string)
    requires ClassFree(a) && '*' in a && Literals(a) != ""
    ensures ClassFree(b) && SharePath(a, b) && !Clash(a, b)
  {
    var n := |a| + 1;
    b := "*" + Repeat('?', n);
    NoBracketClassFree(b);
    RepeatIsWild('?', n);
    assert b[1..] == Repeat('?', n);
    var path := LongName(a, n);
    WildMatches(b, path);
    WildMatches(b, a);
    LiteralsOf(a);
    var c :| c in a && c != '*' && c != '?';
    if Matches(a, b) {
      LiteralNeeded(a, b, c);
    }
    assert Matches(a, path) && Matches(b, path);
  }
}
