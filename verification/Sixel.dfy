// The Sixel decoder: run-length tokens painted into a sparse pixel map, then rows for a PNG.

module Sixel {
  import opened Text
  import opened Png

  datatype Limits = Limits(maxWidth: nat, maxHeight: nat, maxPixels: nat)

  datatype Rgb = Rgb(r: Byte, g: Byte, b: Byte)

  const BLACK := Rgb(0, 0, 0)

  datatype State = State(x: nat, y: nat, color: nat, palette: map<nat, Rgb>, pixels: map<(nat, nat), Rgb>)

  const START := State(0, 0, 0, map[0 := BLACK], map[])

  datatype Reason = WidthLimit | HeightLimit | BadRepeat | Unsupported | BadDimensions

  datatype Result<+T> = Ok(value: T) | Rejected(reason: Reason) {
    predicate IsFailure() { Rejected? }
    function PropagateFailure<U>(): Result<U> requires Rejected? { Rejected(reason) }
    function Extract(): T requires Ok? { value }
  }

  // ---- numbers ----

  predicate IsDigit(c: char) {
    '0' <= c <= '9'
  }

  predicate AllDigits(s: string) {
    forall c :: c in s ==> IsDigit(c)
  }

  /** `rest` is what is left of `s` behind some prefix. */
  predicate IsTail(rest: string, s: string) {
    |rest| <= |s| && rest == s[|s| - |rest|..]
  }

  lemma TailOfTail(a: string, b: string, c: string)
    requires IsTail(a, b) && IsTail(b, c)
    ensures IsTail(a, c)
  {
  }

  /** How many digits the text starts with. */
  function DigitRun(s: string): (k: nat)
    ensures k <= |s| && AllDigits(s[..k]) && (k < |s| ==> !IsDigit(s[k]))
  {
    if s != "" && IsDigit(s[0]) then 1 + DigitRun(s[1..]) else 0
  }

  /** The leading digits and the rest. */
  function TakeDigits(s: string): (r: (string, string))
    ensures AllDigits(r.0) && (r.1 != "" ==> !IsDigit(r.1[0])) && IsTail(r.1, s) && |r.0| + |r.1| == |s|
  {
    (s[..DigitRun(s)], s[DigitRun(s)..])
  }

  function Digit(c: char): nat
    requires IsDigit(c)
  {
    c as int - '0' as int
  }

  /** `int(s or "0")` */
  function Number(s: string): nat
    requires AllDigits(s)
  {
    if s == "" then 0 else Number(s[..|s| - 1]) * 10 + Digit(s[|s| - 1])
  }

  lemma {:induction false} TakeDigitsOf(digits: string, rest: string)
    requires AllDigits(digits) && (rest == "" || !IsDigit(rest[0]))
    ensures TakeDigits(digits + rest) == (digits, rest)
    decreases |digits|
  {
    var s := digits + rest;
    if digits == "" {
      assert s == rest;
    } else {
      TakeDigitsOf(digits[1..], rest);
      assert s[1..] == digits[1..] + rest;
      assert DigitRun(s) == 1 + DigitRun(s[1..]);
      assert s[..|digits|] == digits;
    }
  }

  // ---- painting ----

  /** The paint sign `c` covers row `bit` of its six. */
  predicate Covers(c: char, bit: nat)
    requires 63 <= c as int <= 126 && bit < 6
  {
    var mask := c as int - 63;
    (if bit == 0 then mask else if bit == 1 then mask / 2 else if bit == 2 then mask / 4
     else if bit == 3 then mask / 8 else if bit == 4 then mask / 16 else mask / 32) % 2 == 1
  }

  predicate IsPaint(c: char) {
    63 <= c as int <= 126
  }

  /** The first `n` of the six rows of one column. */
  function PaintBits(lim: Limits, st: State, c: char, n: nat): map<(nat, nat), Rgb>
    requires IsPaint(c) && n <= 6
  {
    if n == 0 then st.pixels
    else
      var rgb := if st.color in st.palette then st.palette[st.color] else BLACK;
      var done, bit := PaintBits(lim, st, c, n - 1), n - 1;
      if Covers(c, bit) && st.y + bit < lim.maxHeight then done[(st.x, st.y + bit) := rgb] else done
  }

  function Paint(lim: Limits, st: State, c: char): Result<State>
    requires IsPaint(c)
  {
    if st.x >= lim.maxWidth then Rejected(WidthLimit)
    else Ok(st.(pixels := PaintBits(lim, st, c, 6), x := st.x + 1))
  }

  /** The same sign `n` times. */
  function PaintTimes(lim: Limits, st: State, c: char, n: nat): Result<State>
    requires IsPaint(c)
    decreases n
  {
    if n == 0 then Ok(st)
    else
      var next :- Paint(lim, st, c);
      PaintTimes(lim, next, c, n - 1)
  }

  // ---- one control at a time ----

  datatype Group = NoGroup | Group(digits: string, rest: string)

  /** `;digits` at the head of the text. */
  function SemiGroup(s: string): (m: Group)
    ensures m.Group? ==> m.digits != "" && AllDigits(m.digits) && |m.rest| < |s| && IsTail(m.rest, s)
  {
    if s == "" || s[0] != ';' then NoGroup
    else
      var (digits, rest) := TakeDigits(s[1..]);
      if digits == "" then NoGroup else Group(digits, rest)
  }

  datatype ColorGroups = NoColor | Color(r: Group, g: Group, b: Group)

  /** `;2;r;g;b` at the head of the text. */
  function ColorMatch(s: string): (m: ColorGroups)
    ensures m.Color? ==> ";2" <= s && m.r.Group? && m.g.Group? && m.b.Group?
    ensures m.Color? ==> m.r == SemiGroup(s[2..]) && m.g == SemiGroup(m.r.rest) && m.b == SemiGroup(m.g.rest)
  {
    if !(";2" <= s) then NoColor
    else
      var r := SemiGroup(s[2..]);
      if r.NoGroup? then NoColor
      else
        var g := SemiGroup(r.rest);
        if g.NoGroup? then NoColor
        else
          var b := SemiGroup(g.rest);
          if b.NoGroup? then NoColor else Color(r, g, b)
  }

  lemma ColorMatchTail(s: string)
    requires ColorMatch(s).Color?
    ensures IsTail(ColorMatch(s).b.rest, s)
  {
    var m := ColorMatch(s);
    TailOfTail(m.b.rest, m.g.rest, m.r.rest);
    TailOfTail(m.b.rest, m.r.rest, s[2..]);
    assert IsTail(s[2..], s);
    TailOfTail(m.b.rest, s[2..], s);
  }

  function Percent(s: string): Byte
    requires AllDigits(s)
  {
    var v := Number(s);
    (if v < 100 then v else 100) * 255 / 100
  }

  /** The colour of a match. */
  function MatchedRgb(m: ColorGroups): Rgb
    requires m.Color? && m.r.Group? && m.g.Group? && m.b.Group?
    requires AllDigits(m.r.digits) && AllDigits(m.g.digits) && AllDigits(m.b.digits)
  {
    Rgb(Percent(m.r.digits), Percent(m.g.digits), Percent(m.b.digits))
  }

  /** `_color`, from behind the `#`: the new state and what is left of the text. */
  function TakeColor(st: State, s: string): (r: (State, string))
    ensures IsTail(r.1, s)
  {
    var (digits, tail) := TakeDigits(s);
    var m := ColorMatch(tail);
    if m.NoColor? then (st.(color := Number(digits)), tail)
    else
      ColorMatchTail(tail);
      TailOfTail(m.b.rest, tail, s);
      (st.(color := Number(digits), palette := st.palette[Number(digits) := MatchedRgb(m)]), m.b.rest)
  }

  /** A run-length token, from behind the `!`. */
  function RepeatControl(lim: Limits, st: State, s: string): (r: Result<(State, string)>)
    ensures r.Ok? ==> IsTail(r.value.1, s)
  {
    var (digits, tail) := TakeDigits(s);
    if Number(digits) > lim.maxWidth then Rejected(WidthLimit)
    else if tail == "" || !IsPaint(tail[0]) then Rejected(BadRepeat)
    else
      var next :- PaintTimes(lim, st, tail[0], Number(digits));
      Ok((next, tail[1..]))
  }

  /** One turn of the decoding loop: the new state and what is left of the text. */
  function Control(lim: Limits, st: State, s: string): (r: Result<(State, string)>)
    requires s != ""
    ensures r.Ok? ==> IsTail(r.value.1, s) && |r.value.1| < |s|
  {
    var c, rest := s[0], s[1..];
    if c == '#' then Ok(TakeColor(st, rest))
    else if c == '!' then RepeatControl(lim, st, rest)
    else if c == '$' then Ok((st.(x := 0), rest))
    else if c == '-' then
      if st.y + 6 > lim.maxHeight then Rejected(HeightLimit) else Ok((st.(x := 0, y := st.y + 6), rest))
    else if IsPaint(c) then
      var next :- Paint(lim, st, c);
      Ok((next, rest))
    else Rejected(Unsupported)
  }

  function Run(lim: Limits, st: State, s: string): Result<State>
    decreases |s|
  {
    if s == "" then Ok(st)
    else
      var (next, rest) :- Control(lim, st, s);
      Run(lim, next, rest)
  }

  // ---- the loops of `decode` ----

  method PaintLoop(lim: Limits, st: State, c: char) returns (r: Result<State>)
    requires IsPaint(c)
    ensures r == Paint(lim, st, c)
  {
    if st.x >= lim.maxWidth {
      return Rejected(WidthLimit);
    }
    var rgb := if st.color in st.palette then st.palette[st.color] else BLACK;
    var pixels := st.pixels;
    for bit := 0 to 6
      invariant pixels == PaintBits(lim, st, c, bit)
    {
      if Covers(c, bit) && st.y + bit < lim.maxHeight {
        pixels := pixels[(st.x, st.y + bit) := rgb];
      }
    }
    r := Ok(st.(pixels := pixels, x := st.x + 1));
  }

  method RepeatLoop(lim: Limits, st: State, c: char, count: nat) returns (r: Result<State>)
    requires IsPaint(c)
    ensures r == PaintTimes(lim, st, c, count)
  {
    var now, left := st, count;
    while left > 0
      invariant PaintTimes(lim, st, c, count) == PaintTimes(lim, now, c, left)
    {
      r := PaintLoop(lim, now, c);
      if r.Rejected? {
        return;
      }
      now, left := r.value, left - 1;
    }
    r := Ok(now);
  }

  method DigitLoop(body: string, start: nat) returns (index: nat)
    requires start <= |body|
    ensures index == start + DigitRun(body[start..])
  {
    index := start;
    while index < |body| && IsDigit(body[index])
      invariant start <= index <= |body|
      invariant start + DigitRun(body[start..]) == index + DigitRun(body[index..])
    {
      index := index + 1;
    }
  }

  /** The `!` branch: the index behind the token. */
  method RepeatTurn(lim: Limits, st: State, body: string, start: nat) returns (r: Result<(State, nat)>)
    requires start <= |body|
    ensures match RepeatControl(lim, st, body[start..])
      case Ok((next, rest)) => r == Ok((next, |body| - |rest|))
      case Rejected(e) => r == Rejected(e)
  {
    var i := DigitLoop(body, start);
    ghost var tail := TakeDigits(body[start..]).1;
    assert body[start..][..i - start] == body[start..i] && tail == body[i..];
    var count := Number(body[start..i]);
    if count > lim.maxWidth {
      return Rejected(WidthLimit);
    }
    if i >= |body| || !IsPaint(body[i]) {
      return Rejected(BadRepeat);
    }
    var painted := RepeatLoop(lim, st, body[i], count);
    r := if painted.Ok? then Ok((painted.value, i + 1)) else Rejected(painted.reason);
  }

  /** One turn of the loop at `index`. */
  method Turn(lim: Limits, st: State, body: string, index: nat) returns (r: Result<(State, nat)>)
    requires index < |body|
    ensures match Control(lim, st, body[index..])
      case Ok((next, rest)) => r == Ok((next, |body| - |rest|))
      case Rejected(e) => r == Rejected(e)
  {
    var c := body[index];
    assert body[index..][1..] == body[index + 1..];
    if c == '#' {
      var (next, rest) := TakeColor(st, body[index + 1..]);
      return Ok((next, |body| - |rest|));
    }
    if c == '!' {
      r := RepeatTurn(lim, st, body, index + 1);
      return;
    }
    if c == '$' {
      return Ok((st.(x := 0), index + 1));
    }
    if c == '-' {
      if st.y + 6 > lim.maxHeight {
        return Rejected(HeightLimit);
      }
      return Ok((st.(x := 0, y := st.y + 6), index + 1));
    }
    if IsPaint(c) {
      var painted := PaintLoop(lim, st, c);
      return if painted.Ok? then Ok((painted.value, index + 1)) else Rejected(painted.reason);
    }
    r := Rejected(Unsupported);
  }

  method BodyLoop(lim: Limits, body: string) returns (r: Result<State>)
    ensures r == Run(lim, START, body)
  {
    var st, index := START, 0;
    while index < |body|
      invariant 0 <= index <= |body|
      invariant Run(lim, START, body) == Run(lim, st, body[index..])
      decreases |body| - index
    {
      ghost var here := body[index..];
      var turn := Turn(lim, st, body, index);
      if turn.Rejected? {
        return Rejected(turn.reason);
      }
      ghost var rest := Control(lim, st, here).value.1;
      assert rest == here[|here| - |rest|..] == body[|body| - |rest|..];
      st, index := turn.value.0, turn.value.1;
    }
    assert body[index..] == "";
    r := Ok(st);
  }

  // ---- tokens: an independent reading of the language ----

  datatype Token =
    | Select(number: string)
    | Define(number: string, r: string, g: string, b: string)
    | Repeat(number: string, c: char)
    | Sign(c: char)
    | Return
    | NewLine

  predicate ValidToken(t: Token) {
    match t
    case Select(n) => AllDigits(n)
    case Define(n, r, g, b) =>
      AllDigits(n) && AllDigits(r) && AllDigits(g) && AllDigits(b) && r != "" && g != "" && b != ""
    case Repeat(n, c) => AllDigits(n) && 0x3F <= c as int <= 0x7E
    case Sign(c) => 0x3F <= c as int <= 0x7E
    case _ => true
  }

  predicate ValidTokens(ts: seq<Token>) {
    forall t :: t in ts ==> ValidToken(t)
  }

  function Spell(t: Token): string {
    match t
    case Select(n) => "#" + n
    case Define(n, r, g, b) => "#" + n + (";2" + Semi(r, Semi(g, Semi(b, ""))))
    case Repeat(n, c) => "!" + n + [c]
    case Sign(c) => [c]
    case Return => "$"
    case NewLine => "-"
  }

  /** `;digits` in front of a text. */
  function Semi(digits: string, rest: string): string {
    ";" + digits + rest
  }

  function SpellAll(ts: seq<Token>): string {
    if ts == [] then "" else Spell(ts[0]) + SpellAll(ts[1..])
  }

  /** What a token means: no run-length limit of its own, only the signs it stands for. */
  function Meaning(lim: Limits, t: Token, st: State): Result<State>
    requires ValidToken(t)
  {
    match t
    case Select(n) => Ok(st.(color := Number(n)))
    case Define(n, r, g, b) =>
      Ok(st.(color := Number(n), palette := st.palette[Number(n) := Rgb(Percent(r), Percent(g), Percent(b))]))
    case Repeat(n, c) => PaintTimes(lim, st, c, Number(n))
    case Sign(c) => Paint(lim, st, c)
    case Return => Ok(st.(x := 0))
    case NewLine => if st.y + 6 > lim.maxHeight then Rejected(HeightLimit) else Ok(st.(x := 0, y := st.y + 6))
  }

  function MeaningAll(lim: Limits, ts: seq<Token>, st: State): Result<State>
    requires ValidTokens(ts)
  {
    if ts == [] then Ok(st)
    else
      var next :- Meaning(lim, ts[0], st);
      MeaningAll(lim, ts[1..], next)
  }

  /** What may follow a token: no digit and no `;`, which a colour number would swallow. */
  predicate Fresh(rest: string) {
    rest == "" || (!IsDigit(rest[0]) && rest[0] != ';')
  }

  lemma SpellAllFresh(ts: seq<Token>)
    requires ValidTokens(ts)
    ensures Fresh(SpellAll(ts))
  {
    if ts != [] {
      assert ValidToken(ts[0]) && SpellAll(ts)[0] == Spell(ts[0])[0];
    }
  }

  /** A repeat past the width limit is refused like the signs it stands for. */
  lemma {:induction false} TooManySigns(lim: Limits, st: State, c: char, n: nat)
    requires IsPaint(c) && st.x + n > lim.maxWidth && n > 0
    ensures PaintTimes(lim, st, c, n) == Rejected(WidthLimit)
    decreases n
  {
    if st.x < lim.maxWidth {
      TooManySigns(lim, Paint(lim, st, c).value, c, n - 1);
    }
  }

  lemma SemiGroupOf(digits: string, rest: string)
    requires AllDigits(digits) && digits != "" && (rest == "" || !IsDigit(rest[0]))
    ensures SemiGroup(Semi(digits, rest)) == Group(digits, rest)
  {
    assert Semi(digits, rest)[1..] == digits + rest;
    TakeDigitsOf(digits, rest);
  }

  lemma ColorMatchOf(s: string, r: string, g: string, b: string, s0: string, s1: string, s2: string, rest: string)
    requires s == ";2" + s0 && s0 == Semi(r, s1) && s1 == Semi(g, s2) && s2 == Semi(b, rest)
    requires AllDigits(r) && AllDigits(g) && AllDigits(b) && r != "" && g != "" && b != ""
    requires rest == "" || !IsDigit(rest[0])
    ensures ColorMatch(s) == Color(Group(r, s1), Group(g, s2), Group(b, rest))
  {
    SemiGroupOf(r, s1);
    SemiGroupOf(g, s2);
    SemiGroupOf(b, rest);
    ColorMatchBy(s, s0, Group(r, s1), Group(g, s2), Group(b, rest));
  }

  lemma ColorMatchBy(s: string, s0: string, r: Group, g: Group, b: Group)
    requires s == ";2" + s0 && r.Group? && g.Group? && b.Group?
    requires SemiGroup(s0) == r && SemiGroup(r.rest) == g && SemiGroup(g.rest) == b
    ensures ColorMatch(s) == Color(r, g, b)
  {
    assert s[2..] == s0;
  }

  lemma SelectOf(st: State, n: string, rest: string)
    requires AllDigits(n) && Fresh(rest)
    ensures TakeColor(st, n + rest) == (st.(color := Number(n)), rest)
  {
    TakeDigitsOf(n, rest);
  }

  lemma DefineOf(st: State, n: string, r: string, g: string, b: string, rest: string)
    requires ValidToken(Define(n, r, g, b)) && Fresh(rest)
    ensures TakeColor(st, n + (";2" + Semi(r, Semi(g, Semi(b, rest)))))
      == (st.(color := Number(n), palette := st.palette[Number(n) := Rgb(Percent(r), Percent(g), Percent(b))]), rest)
  {
    var s2 := Semi(b, rest);
    var s1 := Semi(g, s2);
    var s0 := Semi(r, s1);
    var tail := ";2" + s0;
    ColorMatchOf(tail, r, g, b, s0, s1, s2, rest);
    assert tail[0] == ';';
    TakeDigitsOf(n, tail);
  }

  lemma RepeatOf(lim: Limits, st: State, n: string, c: char, rest: string)
    requires AllDigits(n) && IsPaint(c)
    ensures RepeatControl(lim, st, n + ([c] + rest)) ==
      match PaintTimes(lim, st, c, Number(n)) { case Ok(next) => Ok((next, rest)) case Rejected(e) => Rejected(e) }
  {
    TakeDigitsOf(n, [c] + rest);
    assert ([c] + rest)[1..] == rest;
    if Number(n) > lim.maxWidth {
      TooManySigns(lim, st, c, Number(n));
    }
  }

  lemma DefineTail(n: string, r: string, g: string, b: string, rest: string)
    ensures Spell(Define(n, r, g, b)) + rest == "#" + (n + (";2" + Semi(r, Semi(g, Semi(b, rest)))))
  {
    SemiTail(b, "", rest);
    assert "" + rest == rest;
    SemiTail(g, Semi(b, ""), rest);
    SemiTail(r, Semi(g, Semi(b, "")), rest);
    FourParts("#", n, ";2", Semi(r, Semi(g, Semi(b, ""))), rest);
  }

  lemma SemiTail(digits: string, a: string, rest: string)
    ensures Semi(digits, a) + rest == Semi(digits, a + rest)
  {
  }

  lemma FourParts(a: string, b: string, c: string, d: string, rest: string)
    ensures a + b + (c + d) + rest == a + (b + (c + (d + rest)))
  {
  }

  lemma ControlAt(lim: Limits, st: State, s: string, c: char, rest: string)
    requires s == [c] + rest
    ensures c == '#' ==> Control(lim, st, s) == Ok(TakeColor(st, rest))
    ensures c == '!' ==> Control(lim, st, s) == RepeatControl(lim, st, rest)
  {
    assert s[1..] == rest;
  }

  /** One turn of the loop reads exactly one token. */
  lemma ControlReadsToken(lim: Limits, st: State, t: Token, rest: string)
    requires ValidToken(t) && Fresh(rest)
    ensures Control(lim, st, Spell(t) + rest) ==
      match Meaning(lim, t, st) { case Ok(next) => Ok((next, rest)) case Rejected(e) => Rejected(e) }
  {
    var s := Spell(t) + rest;
    match t
    case Select(n) =>
      assert s == ['#'] + (n + rest);
      ControlAt(lim, st, s, '#', n + rest);
      SelectOf(st, n, rest);
    case Define(n, r, g, b) =>
      DefineTail(n, r, g, b, rest);
      ControlAt(lim, st, s, '#', n + (";2" + Semi(r, Semi(g, Semi(b, rest)))));
      DefineOf(st, n, r, g, b, rest);
    case Repeat(n, c) =>
      assert s == ['!'] + (n + ([c] + rest));
      ControlAt(lim, st, s, '!', n + ([c] + rest));
      RepeatOf(lim, st, n, c, rest);
    case _ =>
      assert s[1..] == rest;
  }

  /** The decoder computes the meaning of the token list it is given. */
  lemma {:induction false} RunIsMeaning(lim: Limits, ts: seq<Token>, st: State)
    requires ValidTokens(ts)
    ensures Run(lim, st, SpellAll(ts)) == MeaningAll(lim, ts, st)
    decreases |ts|
  {
    if ts != [] {
      SpellAllFresh(ts[1..]);
      assert ValidToken(ts[0]);
      ControlReadsToken(lim, st, ts[0], SpellAll(ts[1..]));
      var next := Meaning(lim, ts[0], st);
      if next.Ok? {
        RunIsMeaning(lim, ts[1..], next.value);
      }
    }
  }

  /** Every run-length token replaced by the signs it stands for. */
  function Expanded(ts: seq<Token>): seq<Token>
    requires ValidTokens(ts)
  {
    if ts == [] then []
    else
      assert ValidToken(ts[0]);
      (if ts[0].Repeat? then seq(Number(ts[0].number), _ => Sign(ts[0].c)) else [ts[0]]) + Expanded(ts[1..])
  }

  lemma {:induction false} ExpandedValid(ts: seq<Token>)
    requires ValidTokens(ts)
    ensures ValidTokens(Expanded(ts)) && forall t :: t in Expanded(ts) ==> !t.Repeat?
    decreases |ts|
  {
    if ts != [] {
      assert ValidToken(ts[0]);
      ExpandedValid(ts[1..]);
    }
  }

  lemma {:induction false} SignsAreRepeat(lim: Limits, st: State, c: char, n: nat, rest: seq<Token>)
    requires IsPaint(c) && ValidTokens(rest)
    ensures ValidTokens(seq(n, _ => Sign(c)) + rest)
    ensures MeaningAll(lim, seq(n, _ => Sign(c)) + rest, st) ==
      match PaintTimes(lim, st, c, n) { case Ok(next) => MeaningAll(lim, rest, next) case Rejected(e) => Rejected(e) }
    decreases n
  {
    var ts := seq(n, _ => Sign(c)) + rest;
    if n == 0 {
      assert ts == rest;
    } else {
      assert ts[1..] == seq(n - 1, _ => Sign(c)) + rest;
      var next := Paint(lim, st, c);
      if next.Ok? {
        SignsAreRepeat(lim, next.value, c, n - 1, rest);
      }
    }
  }

  lemma {:induction false} ExpandedMeaning(lim: Limits, ts: seq<Token>, st: State)
    requires ValidTokens(ts)
    ensures ValidTokens(Expanded(ts)) && MeaningAll(lim, Expanded(ts), st) == MeaningAll(lim, ts, st)
    decreases |ts|
  {
    ExpandedValid(ts);
    if ts != [] {
      assert ValidToken(ts[0]);
      var t, rest := ts[0], Expanded(ts[1..]);
      ExpandedValid(ts[1..]);
      var next := Meaning(lim, t, st);
      if next.Ok? {
        ExpandedMeaning(lim, ts[1..], next.value);
      }
      if t.Repeat? {
        SignsAreRepeat(lim, st, t.c, Number(t.number), rest);
      } else {
        assert Expanded(ts)[1..] == rest;
      }
    }
  }

  /** Run-length coding carries no meaning of its own: writing out every repeat gives the same pixels,
      palette and position, or the same rejection. */
  lemma RunLengthIsTransparent(lim: Limits, ts: seq<Token>, st: State)
    requires ValidTokens(ts)
    ensures Run(lim, st, SpellAll(Expanded(ts))) == Run(lim, st, SpellAll(ts))
  {
    ExpandedMeaning(lim, ts, st);
    RunIsMeaning(lim, ts, st);
    RunIsMeaning(lim, Expanded(ts), st);
  }

  lemma SemiGroupShape(s: string)
    requires SemiGroup(s).Group?
    ensures s == Semi(SemiGroup(s).digits, SemiGroup(s).rest)
  {
    assert s == [s[0]] + s[1..];
  }

  lemma ColorMatchShape(s: string)
    requires ColorMatch(s).Color?
    ensures var m := ColorMatch(s); s == ";2" + Semi(m.r.digits, Semi(m.g.digits, Semi(m.b.digits, m.b.rest)))
  {
    var m := ColorMatch(s);
    SemiGroupShape(s[2..]);
    SemiGroupShape(m.r.rest);
    SemiGroupShape(m.g.rest);
    PrefixAndTail(";2", s);
  }

  lemma PrefixAndTail(p: string, s: string)
    requires p <= s
    ensures s == p + s[|p|..]
  {
  }

  lemma Hashed(a: string, b: string)
    ensures "#" + (a + b) == "#" + a + b
  {
  }

  lemma ColorTokenAt(st: State, s: string) returns (t: Token)
    ensures ValidToken(t) && "#" + s == Spell(t) + TakeColor(st, s).1
  {
    var (digits, tail) := TakeDigits(s);
    assert s == digits + tail;
    var m := ColorMatch(tail);
    if m.NoColor? {
      t := Select(digits);
      Hashed(digits, tail);
    } else {
      ColorMatchShape(tail);
      t := Define(digits, m.r.digits, m.g.digits, m.b.digits);
      DefineTail(digits, m.r.digits, m.g.digits, m.b.digits, m.b.rest);
    }
  }

  lemma RepeatTokenAt(lim: Limits, st: State, s: string) returns (t: Token)
    requires RepeatControl(lim, st, s).Ok?
    ensures ValidToken(t) && "!" + s == Spell(t) + RepeatControl(lim, st, s).value.1
  {
    var (digits, tail) := TakeDigits(s);
    t := Repeat(digits, tail[0]);
    assert s == digits + tail && tail == [tail[0]] + tail[1..];
  }

  /** The characters one turn uses spell a token. */
  lemma TokenAt(lim: Limits, st: State, s: string) returns (t: Token)
    requires s != "" && Control(lim, st, s).Ok?
    ensures ValidToken(t) && s == Spell(t) + Control(lim, st, s).value.1
  {
    var rest := Control(lim, st, s).value.1;
    assert s == [s[0]] + s[1..];
    if s[0] == '#' {
      t := ColorTokenAt(st, s[1..]);
    } else if s[0] == '!' {
      t := RepeatTokenAt(lim, st, s[1..]);
    } else {
      t := if s[0] == '$' then Return else if s[0] == '-' then NewLine else Sign(s[0]);
    }
  }

  /** Every body the decoder accepts is the spelling of a token list, so the law above covers them all. */
  lemma {:induction false} AcceptedIsTokens(lim: Limits, st: State, s: string) returns (ts: seq<Token>)
    requires Run(lim, st, s).Ok?
    ensures ValidTokens(ts) && SpellAll(ts) == s
    decreases |s|
  {
    if s == "" {
      ts := [];
    } else {
      var t := TokenAt(lim, st, s);
      var (next, rest) := Control(lim, st, s).value;
      var later := AcceptedIsTokens(lim, next, rest);
      ts := [t] + later;
    }
  }

  /** A character that is no sign and starts no control is refused. */
  lemma ForeignRejected(lim: Limits, st: State, c: char, rest: string)
    requires !(0x3F <= c as int <= 0x7E) && c != '#' && c != '!' && c != '$' && c != '-'
    ensures Run(lim, st, [c] + rest) == Rejected(Unsupported)
  {
  }

  /** A repeat without a sign behind it is refused, for its count if that is too large. */
  lemma RepeatRejected(lim: Limits, st: State, digits: string, rest: string)
    requires AllDigits(digits) && (rest == "" || (!IsDigit(rest[0]) && !(0x3F <= rest[0] as int <= 0x7E)))
    ensures Run(lim, st, "!" + (digits + rest)) == Rejected(if Number(digits) > lim.maxWidth then WidthLimit else BadRepeat)
  {
    TakeDigitsOf(digits, rest);
    var s := "!" + (digits + rest);
    ControlAt(lim, st, s, '!', digits + rest);
  }

  // ---- bounds ----

  predicate InBounds(lim: Limits, pixels: map<(nat, nat), Rgb>) {
    forall p :: p in pixels ==> p.0 < lim.maxWidth && p.1 < lim.maxHeight
  }

  lemma {:induction false} PaintBitsInBounds(lim: Limits, st: State, c: char, n: nat)
    requires IsPaint(c) && n <= 6 && InBounds(lim, st.pixels) && st.x < lim.maxWidth
    ensures InBounds(lim, PaintBits(lim, st, c, n))
    decreases n
  {
    if n > 0 {
      PaintBitsInBounds(lim, st, c, n - 1);
    }
  }

  lemma {:induction false} PaintTimesInBounds(lim: Limits, st: State, c: char, n: nat)
    requires IsPaint(c) && InBounds(lim, st.pixels) && PaintTimes(lim, st, c, n).Ok?
    ensures InBounds(lim, PaintTimes(lim, st, c, n).value.pixels)
    decreases n
  {
    if n > 0 {
      PaintBitsInBounds(lim, st, c, 6);
      PaintTimesInBounds(lim, Paint(lim, st, c).value, c, n - 1);
    }
  }

  /** Every painted pixel lies inside the limits. */
  lemma {:induction false} RunInBounds(lim: Limits, st: State, s: string)
    requires InBounds(lim, st.pixels) && Run(lim, st, s).Ok?
    ensures InBounds(lim, Run(lim, st, s).value.pixels)
    decreases |s|
  {
    if s != "" {
      var (next, rest) := Control(lim, st, s).value;
      if s[0] == '!' {
        var (digits, tail) := TakeDigits(s[1..]);
        PaintTimesInBounds(lim, st, tail[0], Number(digits));
      } else if s[0] != '#' && s[0] != '$' && s[0] != '-' {
        PaintBitsInBounds(lim, st, s[0], 6);
      }
      RunInBounds(lim, next, rest);
    }
  }

  // ---- the image ----

  /** One more than the largest coordinate painted, 0 for an empty map. */
  ghost predicate IsExtent(pixels: map<(nat, nat), Rgb>, w: nat, h: nat) {
    && (forall p :: p in pixels ==> p.0 < w && p.1 < h)
    && (w > 0 ==> exists p :: p in pixels && p.0 + 1 == w)
    && (h > 0 ==> exists p :: p in pixels && p.1 + 1 == h)
  }

  lemma ExtentIsUnique(pixels: map<(nat, nat), Rgb>, w: nat, h: nat, w': nat, h': nat)
    requires IsExtent(pixels, w, h) && IsExtent(pixels, w', h')
    ensures w == w' && h == h'
  {
  }

  lemma {:induction false} ExtentExists(pixels: map<(nat, nat), Rgb>) returns (w: nat, h: nat)
    ensures IsExtent(pixels, w, h)
    decreases |pixels|
  {
    if pixels == map[] {
      w, h := 0, 0;
    } else {
      var p: (nat, nat) :| p in pixels;
      var rest := pixels - {p};
      assert |rest.Keys| < |pixels.Keys| by { assert rest.Keys == pixels.Keys - {p}; }
      w, h := ExtentExists(rest);
      assert forall q: (nat, nat) :: q in rest ==> q in pixels;
      w := if p.0 >= w then p.0 + 1 else w;
      h := if p.1 >= h then p.1 + 1 else h;
    }
  }

  ghost function ExtentOf(pixels: map<(nat, nat), Rgb>): (e: (nat, nat))
    ensures IsExtent(pixels, e.0, e.1)
  {
    assert exists e: (nat, nat) :: IsExtent(pixels, e.0, e.1) by {
      var w, h := ExtentExists(pixels);
      assert IsExtent(pixels, (w, h).0, (w, h).1);
    }
    var e: (nat, nat) :| IsExtent(pixels, e.0, e.1);
    e
  }

  method Extent(pixels: map<(nat, nat), Rgb>) returns (w: nat, h: nat)
    ensures IsExtent(pixels, w, h)
  {
    w, h := 0, 0;
    var left := pixels.Keys;
    while left != {}
      invariant left <= pixels.Keys
      invariant forall p :: p in pixels && p !in left ==> p.0 < w && p.1 < h
      invariant w > 0 ==> exists p :: p in pixels && p.0 + 1 == w
      invariant h > 0 ==> exists p :: p in pixels && p.1 + 1 == h
      decreases left
    {
      var p: (nat, nat) :| p in left;
      left := left - {p};
      if p.0 >= w { w := p.0 + 1; }
      if p.1 >= h { h := p.1 + 1; }
    }
  }

  /** The raster attributes as the decoder reads them: everything up to the first `;`. */
  function Attributes(body: string): (string, string)
    requires body != ""
  {
    var end := Find(body, ";", 0);
    if end < 0 then (body[1..], "") else (if end >= 1 then body[1..end] else "", body[end + 1..])
  }

  function Positive(value: string): Option<nat> {
    if value != "" && AllDigits(value) && Number(value) > 0 then Some(Number(value)) else None
  }

  /** Declared width and height. */
  function Declared(attrs: string): (Option<nat>, Option<nat>) {
    var values := Split(attrs, ';');
    if |values| >= 4 then (Positive(values[2]), Positive(values[3])) else (None, None)
  }

  datatype Image = Image(width: nat, height: nat, scanlines: Bytes)

  function Least(a: nat, b: nat): nat {
    if a <= b then a else b
  }

  function PixelRow(pixels: map<(nat, nat), Rgb>, row: nat, width: nat): (line: Bytes)
    ensures |line| == 4 * width
  {
    if width == 0 then [] else PixelRow(pixels, row, width - 1) + Opaque(PixelOf(pixels, row, width - 1))
  }

  function PixelOf(pixels: map<(nat, nat), Rgb>, row: nat, column: nat): Rgb {
    if (column, row) in pixels then pixels[(column, row)] else BLACK
  }

  function Opaque(p: Rgb): (b: Bytes)
    ensures |b| == 4
  {
    [p.r, p.g, p.b, 255]
  }

  lemma {:induction false} PixelRowAt(pixels: map<(nat, nat), Rgb>, row: nat, width: nat, column: nat)
    requires column < width
    ensures PixelRow(pixels, row, width)[4 * column..4 * column + 4] == Opaque(PixelOf(pixels, row, column))
    decreases width
  {
    var line, last := PixelRow(pixels, row, width - 1), Opaque(PixelOf(pixels, row, width - 1));
    if column < width - 1 {
      PixelRowAt(pixels, row, width - 1, column);
      SliceInFront(line, last, 4 * column, 4 * column + 4);
    } else {
      SliceBehind(line, last, 0, 4);
      assert last[0..4] == last;
    }
  }

  function PixelRows(pixels: map<(nat, nat), Rgb>, width: nat, height: nat): (lines: seq<Bytes>)
    ensures |lines| == height && AllWide(lines, 4 * width)
    ensures forall row :: 0 <= row < height ==> lines[row] == PixelRow(pixels, row, width)
  {
    if height == 0 then [] else PixelRows(pixels, width, height - 1) + [PixelRow(pixels, height - 1, width)]
  }

  lemma Joined(a: Bytes, b: Bytes, c: Bytes)
    ensures a + b + c == a + (b + c)
  {
  }

  method RowLoop(pixels: map<(nat, nat), Rgb>, row: nat, width: nat, start: Bytes) returns (scanlines: Bytes)
    ensures scanlines == start + PixelRow(pixels, row, width)
  {
    scanlines := start;
    for column := 0 to width
      invariant scanlines == start + PixelRow(pixels, row, column)
    {
      Joined(start, PixelRow(pixels, row, column), Opaque(PixelOf(pixels, row, column)));
      scanlines := scanlines + Opaque(PixelOf(pixels, row, column));
    }
  }

  method ScanlineLoop(pixels: map<(nat, nat), Rgb>, width: nat, height: nat) returns (scanlines: Bytes)
    ensures scanlines == Interleave(PixelRows(pixels, width, height))
  {
    scanlines := [];
    for row := 0 to height
      invariant scanlines == Interleave(PixelRows(pixels, width, row))
    {
      InterleaveAppend(PixelRows(pixels, width, row), PixelRow(pixels, row, width));
      scanlines := RowLoop(pixels, row, width, scanlines + [0]);
    }
  }

  /** The text the loop runs over, with the declared sizes. */
  function Opened(text: string): (string, Option<nat>, Option<nat>) {
    var body := if "q" <= text then text[1..] else text;
    if "\"" <= body then
      var (attrs, rest) := Attributes(body);
      (rest, Declared(attrs).0, Declared(attrs).1)
    else (body, None, None)
  }

  /** The cut at the first `;` leaves fewer than four values, so no declared size is ever used. */
  lemma NothingDeclared(text: string)
    ensures Opened(text).1 == None && Opened(text).2 == None
  {
    var body := if "q" <= text then text[1..] else text;
    if "\"" <= body {
      var attrs, end := Attributes(body).0, Find(body, ";", 0);
      forall i ensures !OccursAt(attrs, ";", i) {
        if 0 <= i < |attrs| {
          CharOccurs(attrs, ';', i);
          CharOccurs(body, ';', i + 1);
          assert attrs[i] == body[i + 1];
        }
      }
      assert Split(attrs, ';') == [attrs];
    }
  }

  /** The usual raster attributes `"Pan;Pad;...` are refused: the digits behind the first `;` are read as controls. */
  lemma RasterIsRejected(lim: Limits, pan: string, pad: string, rest: string)
    requires AllDigits(pan) && AllDigits(pad) && pad != ""
    ensures Run(lim, START, Opened("q\"" + pan + ";" + pad + rest).0) == Rejected(Unsupported)
  {
    var head, tail := "\"" + pan, pad + rest;
    assert "q\"" + pan + ";" + pad + rest == "q" + (head + ";" + tail);
    OpenedBehind(head, tail);
    assert tail[0] == pad[0];
    DigitIsRejected(lim, tail);
  }

  lemma OpenedBehind(head: string, tail: string)
    requires "\"" <= head && ';' !in head
    ensures Opened("q" + (head + ";" + tail)).0 == tail
  {
    var body := head + ";" + tail;
    assert ("q" + body)[1..] == body;
    FindChar(head, tail, ';');
    assert body[|head| + 1..] == tail;
  }

  lemma DigitIsRejected(lim: Limits, s: string)
    requires s != "" && IsDigit(s[0])
    ensures Run(lim, START, s) == Rejected(Unsupported)
  {
  }

  /** The outcome of `decode`: the loop's rejection, bad dimensions, or the rows of the painted extent. */
  ghost function Decoded(lim: Limits, text: string): Result<Image> {
    var (body, declaredWidth, declaredHeight) := Opened(text);
    var st :- Run(lim, START, body);
    var e := ExtentOf(st.pixels);
    var width := Least(declaredWidth.UnwrapOr(e.0), lim.maxWidth);
    var height := Least(declaredHeight.UnwrapOr(e.1), lim.maxHeight);
    if width == 0 || height == 0 || width * height > lim.maxPixels then Rejected(BadDimensions)
    else Ok(Image(width, height, Interleave(PixelRows(st.pixels, width, height))))
  }

  /** `decode` up to the PNG writer. */
  method Decode(lim: Limits, text: string) returns (r: Result<Image>)
    ensures r == Decoded(lim, text)
  {
    var (body, declaredWidth, declaredHeight) := Opened(text);
    var run := BodyLoop(lim, body);
    if run.Rejected? {
      return Rejected(run.reason);
    }
    var w, h := Extent(run.value.pixels);
    ExtentIsUnique(run.value.pixels, w, h, ExtentOf(run.value.pixels).0, ExtentOf(run.value.pixels).1);
    var width := Least(declaredWidth.UnwrapOr(w), lim.maxWidth);
    var height := Least(declaredHeight.UnwrapOr(h), lim.maxHeight);
    if width == 0 || height == 0 || width * height > lim.maxPixels {
      return Rejected(BadDimensions);
    }
    var scanlines := ScanlineLoop(run.value.pixels, width, height);
    r := Ok(Image(width, height, scanlines));
  }

  /** The pixel map a text paints. */
  function Painted(lim: Limits, text: string): map<(nat, nat), Rgb> {
    match Run(lim, START, Opened(text).0)
    case Ok(st) => st.pixels
    case Rejected(_) => map[]
  }

  /** An accepted image has exactly the painted extent, inside the limits. */
  lemma DecodedExtent(lim: Limits, text: string)
    requires Decoded(lim, text).Ok?
    ensures var image := Decoded(lim, text).value;
      && IsExtent(Painted(lim, text), image.width, image.height)
      && image.width <= lim.maxWidth && image.height <= lim.maxHeight && image.width * image.height <= lim.maxPixels
      && image.width > 0 && image.height > 0
      && image.scanlines == Interleave(PixelRows(Painted(lim, text), image.width, image.height))
  {
    NothingDeclared(text);
    RunInBounds(lim, START, Opened(text).0);
    var e := ExtentOf(Painted(lim, text));
    ExtentInLimits(lim, Painted(lim, text), e.0, e.1);
  }

  /** Four bytes: the painted colour, or black, without transparency. */
  function ColourAt(pixels: map<(nat, nat), Rgb>, row: nat, column: nat): Bytes {
    if (column, row) in pixels then
      var p := pixels[(column, row)];
      [p.r, p.g, p.b, 255]
    else [0, 0, 0, 255]
  }

  /** The rows of a pixel map have h*(4w+1) bytes and decode to the painted colours, black where nothing
      was painted, every pixel opaque. */
  lemma RowsDecode(pixels: map<(nat, nat), Rgb>, w: nat, h: nat, row: nat, column: nat)
    requires row < h && column < w
    ensures var lines := PixelRows(pixels, w, h);
      && |Interleave(lines)| == h * (4 * w + 1)
      && DecodesTo(Interleave(lines), w, h, Zeros(4 * w), lines)
      && lines[row][4 * column..4 * column + 4] == ColourAt(pixels, row, column)
  {
    var lines := PixelRows(pixels, w, h);
    PixelRowAt(pixels, row, w, column);
    InterleaveLength(lines, w);
    RowBytesIsProduct(w, h);
    UnfilterInterleave(lines, w, Zeros(4 * w));
  }

  lemma ExtentInLimits(lim: Limits, pixels: map<(nat, nat), Rgb>, w: nat, h: nat)
    requires IsExtent(pixels, w, h) && InBounds(lim, pixels)
    ensures w <= lim.maxWidth && h <= lim.maxHeight
  {
  }
}
