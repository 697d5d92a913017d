// The picture of a Sixel text, told from its tokens alone: the last sign that covers a pixel colours it.

module SixelPicture {
  import opened Text
  import opened Png
  import opened Sixel

  // ---- where each sign stands ----

  predicate NoRepeats(ts: seq<Token>) {
    forall t :: t in ts ==> !t.Repeat?
  }

  function Front(ts: seq<Token>): seq<Token>
    requires ts != []
  {
    ts[..|ts| - 1]
  }

  function Last(ts: seq<Token>): Token
    requires ts != []
  {
    ts[|ts| - 1]
  }

  /** The column behind the tokens: the signs since the last return or new line. */
  function Column(ts: seq<Token>): nat {
    if ts == [] then 0
    else match Last(ts)
      case Sign(_) => Column(Front(ts)) + 1
      case Return => 0
      case NewLine => 0
      case _ => Column(Front(ts))
  }

  /** The top row of the band behind the tokens: six for every new line. */
  function Band(ts: seq<Token>): nat {
    if ts == [] then 0 else Band(Front(ts)) + if Last(ts).NewLine? then 6 else 0
  }

  /** The colour number in force: the last one named. */
  function Current(ts: seq<Token>): nat
    requires ValidTokens(ts)
  {
    if ts == [] then 0
    else
      assert ValidToken(Last(ts));
      match Last(ts)
      case Select(n) => Number(n)
      case Define(n, _, _, _) => Number(n)
      case _ => Current(Front(ts))
  }

  /** A share of 100, at most 100, as a share of 255, rounded down. */
  predicate IsShare(p: Byte, digits: string)
    requires AllDigits(digits)
  {
    var v := Number(digits);
    if v >= 100 then p == 255 else 100 * p <= 255 * v < 100 * (p + 1)
  }

  /** The colour of a number is that of its last definition, black without one. */
  ghost predicate IsInk(ts: seq<Token>, number: nat, ink: Rgb)
    requires ValidTokens(ts)
  {
    if ts == [] then ink == BLACK
    else
      assert ValidToken(Last(ts));
      match Last(ts)
      case Define(n, r, g, b) =>
        if Number(n) == number then IsShare(ink.r, r) && IsShare(ink.g, g) && IsShare(ink.b, b) else IsInk(Front(ts), number, ink)
      case _ => IsInk(Front(ts), number, ink)
  }

  /** Binary digit `bit` of a number, the lowest being digit 0. */
  predicate HasBit(mask: nat, bit: nat) {
    if bit == 0 then mask % 2 == 1 else HasBit(mask / 2, bit - 1)
  }

  /** The sign, standing behind `before`, covers pixel (x, y): row k of its band for each binary digit k. */
  predicate Hits(lim: Limits, before: seq<Token>, c: char, x: nat, y: nat)
    requires IsPaint(c)
  {
    x == Column(before) && Band(before) <= y < Band(before) + 6 && y < lim.maxHeight && HasBit(c as int - 63, y - Band(before))
  }

  /** The pixel has the colour in force at the last sign that covers it, and none if no sign does. */
  ghost predicate IsDot(lim: Limits, ts: seq<Token>, x: nat, y: nat, dot: Option<Rgb>)
    requires ValidTokens(ts)
  {
    if ts == [] then dot == None
    else
      assert ValidToken(Last(ts));
      if Last(ts).Sign? && Hits(lim, Front(ts), Last(ts).c, x, y) then dot.Some? && IsInk(Front(ts), Current(Front(ts)), dot.value)
      else IsDot(lim, Front(ts), x, y, dot)
  }

  /** The limits let the next token pass: a sign inside the width, a new line inside the height. */
  predicate Passes(lim: Limits, before: seq<Token>, t: Token) {
    (t.Sign? ==> Column(before) < lim.maxWidth) && (t.NewLine? ==> Band(before) + 6 <= lim.maxHeight)
  }

  predicate AllPass(lim: Limits, ts: seq<Token>) {
    ts == [] || (AllPass(lim, Front(ts)) && Passes(lim, Front(ts), Last(ts)))
  }

  // ---- the decoder agrees ----

  lemma CoversIsBit(c: char, bit: nat)
    requires IsPaint(c) && bit < 6
    ensures Covers(c, bit) <==> HasBit(c as int - 63, bit)
  {
    var m: nat := c as int - 63;
    assert HasBit(m / 32, 0) <==> HasBit(m, 5) by { Halved(m, 5); }
    if bit < 5 {
      Halved(m, bit);
    }
  }

  /** `m` halved `bit` times is odd. */
  lemma Halved(m: nat, bit: nat)
    requires bit < 6
    ensures HasBit(m, bit) <==>
      (if bit == 0 then m else if bit == 1 then m / 2 else if bit == 2 then m / 4 else if bit == 3 then m / 8
       else if bit == 4 then m / 16 else m / 32) % 2 == 1
  {
    if bit > 0 {
      Halved(m / 2, bit - 1);
    }
  }

  function Dot(pixels: map<(nat, nat), Rgb>, x: nat, y: nat): Option<Rgb> {
    if (x, y) in pixels then Some(pixels[(x, y)]) else None
  }

  function Ink(st: State): Rgb {
    if st.color in st.palette then st.palette[st.color] else BLACK
  }

  lemma {:induction false} PaintedDot(lim: Limits, st: State, c: char, n: nat, x: nat, y: nat)
    requires IsPaint(c) && n <= 6
    ensures Dot(PaintBits(lim, st, c, n), x, y)
      == if x == st.x && st.y <= y < st.y + n && y < lim.maxHeight && HasBit(c as int - 63, y - st.y) then Some(Ink(st))
         else Dot(st.pixels, x, y)
    decreases n
  {
    if n > 0 {
      PaintedDot(lim, st, c, n - 1, x, y);
      CoversIsBit(c, n - 1);
    }
  }

  /** The decoder's state behind the tokens. */
  ghost predicate Agrees(lim: Limits, ts: seq<Token>, st: State)
    requires ValidTokens(ts)
  {
    && st.x == Column(ts) && st.y == Band(ts) && st.color == Current(ts)
    && (forall n: nat :: IsInk(ts, n, if n in st.palette then st.palette[n] else BLACK))
    && forall x: nat, y: nat :: IsDot(lim, ts, x, y, Dot(st.pixels, x, y))
  }

  lemma ShareIs(digits: string)
    requires AllDigits(digits)
    ensures IsShare(Percent(digits), digits)
  {
  }

  lemma Fronts(ts: seq<Token>)
    requires ts != [] && ValidTokens(ts) && NoRepeats(ts)
    ensures ValidTokens(Front(ts)) && NoRepeats(Front(ts)) && ValidToken(Last(ts)) && !Last(ts).Repeat?
    ensures ts == Front(ts) + [Last(ts)]
  {
  }

  /** `ts` is `before` with one token more. */
  predicate Grows(before: seq<Token>, t: Token, ts: seq<Token>) {
    ts == before + [t] && ValidTokens(before) && ValidToken(t) && ValidTokens(ts) && !t.Repeat?
  }

  lemma GrowsBy(before: seq<Token>, t: Token, ts: seq<Token>)
    requires Grows(before, t, ts)
    ensures ts != [] && Front(ts) == before && Last(ts) == t
  {
  }

  lemma SignStep(lim: Limits, before: seq<Token>, t: Token, ts: seq<Token>, st: State)
    requires Grows(before, t, ts) && Agrees(lim, before, st) && t.Sign? && st.x < lim.maxWidth
    ensures Agrees(lim, ts, Paint(lim, st, t.c).value)
  {
    GrowsBy(before, t, ts);
    var next := Paint(lim, st, t.c).value;
    forall n: nat ensures IsInk(ts, n, if n in next.palette then next.palette[n] else BLACK) {
      assert IsInk(before, n, if n in st.palette then st.palette[n] else BLACK);
    }
    forall x: nat, y: nat ensures IsDot(lim, ts, x, y, Dot(next.pixels, x, y)) {
      PaintedDot(lim, st, t.c, 6, x, y);
      assert IsDot(lim, before, x, y, Dot(st.pixels, x, y));
    }
  }

  /** A token that paints nothing keeps the pixels. */
  lemma PixelsStep(lim: Limits, before: seq<Token>, t: Token, ts: seq<Token>, st: State)
    requires Grows(before, t, ts) && Agrees(lim, before, st) && !t.Sign?
    ensures forall x: nat, y: nat :: IsDot(lim, ts, x, y, Dot(st.pixels, x, y))
  {
    GrowsBy(before, t, ts);
    forall x: nat, y: nat ensures IsDot(lim, ts, x, y, Dot(st.pixels, x, y)) {
      assert IsDot(lim, before, x, y, Dot(st.pixels, x, y));
    }
  }

  /** A token that defines nothing keeps the colours. */
  lemma InksStep(lim: Limits, before: seq<Token>, t: Token, ts: seq<Token>, st: State)
    requires Grows(before, t, ts) && Agrees(lim, before, st) && !t.Define?
    ensures forall n: nat :: IsInk(ts, n, if n in st.palette then st.palette[n] else BLACK)
  {
    GrowsBy(before, t, ts);
    forall n: nat ensures IsInk(ts, n, if n in st.palette then st.palette[n] else BLACK) {
      assert IsInk(before, n, if n in st.palette then st.palette[n] else BLACK);
    }
  }

  lemma DefineStep(lim: Limits, before: seq<Token>, t: Token, ts: seq<Token>, st: State, next: State)
    requires Grows(before, t, ts) && Agrees(lim, before, st) && t.Define? && Meaning(lim, t, st) == Ok(next)
    ensures Agrees(lim, ts, next)
  {
    GrowsBy(before, t, ts);
    PixelsStep(lim, before, t, ts, st);
    ShareIs(t.r);
    ShareIs(t.g);
    ShareIs(t.b);
    forall n: nat ensures IsInk(ts, n, if n in next.palette then next.palette[n] else BLACK) {
      assert IsInk(before, n, if n in st.palette then st.palette[n] else BLACK);
    }
  }

  lemma OtherStep(lim: Limits, before: seq<Token>, t: Token, ts: seq<Token>, st: State, next: State)
    requires Grows(before, t, ts) && Agrees(lim, before, st) && !t.Define? && !t.Sign? && Meaning(lim, t, st) == Ok(next)
    ensures Agrees(lim, ts, next)
  {
    GrowsBy(before, t, ts);
    PixelsStep(lim, before, t, ts, st);
    InksStep(lim, before, t, ts, st);
  }

  /** One token more. */
  lemma AgreesStep(lim: Limits, before: seq<Token>, t: Token, ts: seq<Token>, st: State)
    requires Grows(before, t, ts) && Agrees(lim, before, st)
    ensures Meaning(lim, t, st).Ok? <==> Passes(lim, before, t)
    ensures Meaning(lim, t, st).Ok? ==> Agrees(lim, ts, Meaning(lim, t, st).value)
    ensures Meaning(lim, t, st).Rejected? ==> Meaning(lim, t, st).reason == if t.Sign? then WidthLimit else HeightLimit
  {
    var r := Meaning(lim, t, st);
    if r.Ok? {
      if t.Sign? {
        SignStep(lim, before, t, ts, st);
      } else if t.Define? {
        DefineStep(lim, before, t, ts, st, r.value);
      } else {
        OtherStep(lim, before, t, ts, st, r.value);
      }
    }
  }

  /** The meaning of a token list with one token more. */
  lemma {:induction false} MeaningAppend(lim: Limits, before: seq<Token>, t: Token, st: State)
    requires ValidTokens(before) && ValidToken(t) && ValidTokens(before + [t])
    ensures MeaningAll(lim, before + [t], st) == match MeaningAll(lim, before, st) {
      case Ok(next) => Meaning(lim, t, next)
      case Rejected(e) => Rejected(e)
    }
    decreases |before|
  {
    var ts := before + [t];
    if before == [] {
      assert ts[0] == t && ts[1..] == [];
    } else {
      assert ts[0] == before[0] && ts[1..] == before[1..] + [t] && ValidToken(before[0]);
      var next := Meaning(lim, before[0], st);
      if next.Ok? {
        MeaningAppend(lim, before[1..], t, next.value);
      }
    }
  }

  /** The first token that the limits stop decides the rejection. */
  ghost predicate IsStop(lim: Limits, ts: seq<Token>, reason: Reason) {
    exists i :: 0 <= i < |ts| && StopsAt(lim, ts, i, reason)
  }

  predicate StopsAt(lim: Limits, ts: seq<Token>, i: nat, reason: Reason)
    requires i < |ts|
  {
    AllPass(lim, ts[..i]) && !Passes(lim, ts[..i], ts[i]) && reason == if ts[i].Sign? then WidthLimit else HeightLimit
  }

  lemma StopStays(lim: Limits, before: seq<Token>, t: Token, reason: Reason)
    requires IsStop(lim, before, reason)
    ensures IsStop(lim, before + [t], reason)
  {
    var i :| 0 <= i < |before| && StopsAt(lim, before, i, reason);
    var ts := before + [t];
    assert ts[..i] == before[..i] && ts[i] == before[i];
    assert StopsAt(lim, ts, i, reason);
  }

  /** What decoding a token list without repeats gives. */
  ghost predicate Gives(lim: Limits, ts: seq<Token>, r: Result<State>)
    requires ValidTokens(ts)
  {
    && (r.Ok? <==> AllPass(lim, ts))
    && (r.Ok? ==> Agrees(lim, ts, r.value))
    && (r.Rejected? ==> IsStop(lim, ts, r.reason))
  }

  lemma GivesStep(lim: Limits, before: seq<Token>, t: Token, ts: seq<Token>, r: Result<State>)
    requires Grows(before, t, ts) && Gives(lim, before, r)
    ensures Gives(lim, ts, if r.Ok? then Meaning(lim, t, r.value) else r)
  {
    GrowsBy(before, t, ts);
    if r.Ok? {
      AgreesStep(lim, before, t, ts, r.value);
      if Meaning(lim, t, r.value).Rejected? {
        StopHere(lim, before, t, ts, Meaning(lim, t, r.value).reason);
      }
    } else {
      StopStays(lim, before, t, r.reason);
    }
  }

  lemma StopHere(lim: Limits, before: seq<Token>, t: Token, ts: seq<Token>, reason: Reason)
    requires Grows(before, t, ts) && AllPass(lim, before) && !Passes(lim, before, t)
    requires reason == if t.Sign? then WidthLimit else HeightLimit
    ensures IsStop(lim, ts, reason)
  {
    assert ts[..|before|] == before;
    assert StopsAt(lim, ts, |before|, reason);
  }

  lemma StartAgrees(lim: Limits)
    ensures Gives(lim, [], Ok(START))
  {
  }

  lemma {:induction false} MeaningGives(lim: Limits, ts: seq<Token>)
    requires ValidTokens(ts) && NoRepeats(ts)
    ensures Gives(lim, ts, MeaningAll(lim, ts, START))
    decreases |ts|
  {
    if ts == [] {
      StartAgrees(lim);
    } else {
      Fronts(ts);
      MeaningGives(lim, Front(ts));
      MeaningAppend(lim, Front(ts), Last(ts), START);
      GivesStep(lim, Front(ts), Last(ts), ts, MeaningAll(lim, Front(ts), START));
    }
  }

  /** Decoding a text of tokens: accepted exactly when the limits let every sign and every new line of the
      written-out list pass, and then each pixel has the colour in force at the last sign covering it; else
      rejected for the first token that does not pass. */
  lemma PictureIsDots(lim: Limits, ts: seq<Token>)
    requires ValidTokens(ts)
    ensures ValidTokens(Expanded(ts)) && Gives(lim, Expanded(ts), Run(lim, START, SpellAll(ts)))
  {
    ExpandedValid(ts);
    ExpandedMeaning(lim, ts, START);
    RunIsMeaning(lim, ts, START);
    MeaningGives(lim, Expanded(ts));
  }

  // ---- the whole image ----

  ghost predicate AreDots(lim: Limits, ts: seq<Token>, pixels: map<(nat, nat), Rgb>)
    requires ValidTokens(ts)
  {
    forall x: nat, y: nat :: IsDot(lim, ts, x, y, Dot(pixels, x, y))
  }

  /** The scanlines decode to the dots, black and opaque where there is none. */
  predicate Depicts(pixels: map<(nat, nat), Rgb>, image: Image, rows: seq<Bytes>) {
    && DecodesTo(image.scanlines, image.width, image.height, Zeros(4 * image.width), rows) && |rows| == image.height
    && forall r, c :: 0 <= r < image.height && 0 <= c < image.width ==> HasColour(pixels, rows[r], r, c)
  }

  predicate HasColour(pixels: map<(nat, nat), Rgb>, row: Bytes, r: nat, c: nat) {
    4 * c + 4 <= |row| && row[4 * c..4 * c + 4] == ColourAt(pixels, r, c)
  }

  /** The image of the dots: as large as they reach, unless there are none or it would be too large. */
  ghost predicate ImageOf(lim: Limits, pixels: map<(nat, nat), Rgb>, w: nat, h: nat, r: Result<Image>) {
    && IsExtent(pixels, w, h)
    && if w == 0 || h == 0 || w * h > lim.maxPixels then r == Rejected(BadDimensions)
       else r.Ok? && r.value.width == w && r.value.height == h && exists rows :: Depicts(pixels, r.value, rows)
  }

  ghost predicate Pictures(lim: Limits, ts: seq<Token>, r: Result<Image>)
    requires ValidTokens(ts)
  {
    if AllPass(lim, ts) then exists pixels, w, h :: AreDots(lim, ts, pixels) && ImageOf(lim, pixels, w, h, r)
    else r.Rejected? && IsStop(lim, ts, r.reason)
  }

  lemma BodyOpened(body: string)
    requires body == "" || body[0] != '\"'
    ensures Opened("q" + body) == (body, None, None)
  {
    assert ("q" + body)[1..] == body;
  }

  lemma SpelledBody(ts: seq<Token>)
    requires ValidTokens(ts)
    ensures SpellAll(ts) == "" || SpellAll(ts)[0] != '\"'
  {
    if ts != [] {
      assert ValidToken(ts[0]) && SpellAll(ts)[0] == Spell(ts[0])[0];
    }
  }

  lemma RowsDepict(pixels: map<(nat, nat), Rgb>, w: nat, h: nat, image: Image)
    requires w > 0 && h > 0 && image == Image(w, h, Interleave(PixelRows(pixels, w, h)))
    ensures Depicts(pixels, image, PixelRows(pixels, w, h))
  {
    RowsDecode(pixels, w, h, 0, 0);
    forall r, c | 0 <= r < h && 0 <= c < w ensures HasColour(pixels, PixelRows(pixels, w, h)[r], r, c) {
      RowsDecode(pixels, w, h, r, c);
    }
  }

  lemma DecodedImage(lim: Limits, text: string, body: string, st: State, e: (nat, nat))
    requires Opened(text) == (body, None, None) && Run(lim, START, body) == Ok(st) && e == ExtentOf(st.pixels)
    ensures ImageOf(lim, st.pixels, e.0, e.1, Decoded(lim, text))
  {
    RunInBounds(lim, START, body);
    ExtentInLimits(lim, st.pixels, e.0, e.1);
    if e.0 > 0 && e.1 > 0 && e.0 * e.1 <= lim.maxPixels {
      RowsDepict(st.pixels, e.0, e.1, Decoded(lim, text).value);
    }
  }

  /** The image of a text of tokens is that of its dots, in the size they reach, or the rejection. */
  lemma DecodedIsDots(lim: Limits, ts: seq<Token>)
    requires ValidTokens(ts)
    ensures ValidTokens(Expanded(ts)) && Pictures(lim, Expanded(ts), Decoded(lim, "q" + SpellAll(ts)))
  {
    PictureIsDots(lim, ts);
    SpelledBody(ts);
    BodyOpened(SpellAll(ts));
    var run := Run(lim, START, SpellAll(ts));
    if run.Ok? {
      var e := ExtentOf(run.value.pixels);
      DecodedImage(lim, "q" + SpellAll(ts), SpellAll(ts), run.value, e);
      assert AreDots(lim, Expanded(ts), run.value.pixels);
    }
  }
}
