// Extracting Kitty and Sixel images from a terminal stream that arrives in arbitrary chunks.

module ImageCompositor {
  import opened Text
  import opened Png
  import Sixel
  import PetRenderer
  import K = Kitty

  const KITTY_START := "\U{1B}_G"
  const SIXEL_START := "\U{1B}P"
  const GRAPHICS_END := "\U{1B}\\"
  const JUNK_LIMIT := 64_000
  const SIXEL_LIMITS := Sixel.Limits(2048, 2048, 2_000_000)

  /** Where the first image sequence starts, or -1. */
  function FirstStart(pending: string): (r: int)
    ensures r >= 0 ==> IsStart(pending, r) && forall j :: 0 <= j < r ==> !IsStart(pending, j)
    ensures r < 0 ==> forall j :: 0 <= j ==> !IsStart(pending, j)
  {
    var kitty, sixel := Find(pending, KITTY_START, 0), Find(pending, SIXEL_START, 0);
    if kitty < 0 then sixel else if sixel < 0 || kitty < sixel then kitty else sixel
  }

  predicate IsStart(pending: string, i: int) {
    OccursAt(pending, KITTY_START, i) || OccursAt(pending, SIXEL_START, i)
  }

  /** What the compositor remembers besides the pending text. */
  datatype State = State(store: K.Store, framesSeen: nat)

  function SixelFrame(codec: K.Codec, decoded: Sixel.Result<Sixel.Image>): K.Out {
    match decoded
    case Rejected(_) => K.Out(None, Some(K.BadSixel))
    case Ok(image) =>
      match PngRgba(image.width, image.height, image.scanlines, codec.deflate, codec.crc)
      case None => K.Out(None, Some(K.Unencodable))
      case Some(png) => K.Out(Some(K.Frame(png, Some(image.width), Some(image.height))), None)
  }

  /** One complete sequence, without its ESC and terminator. */
  ghost function Decode(codec: K.Codec, lim: K.Limits, store: K.Store, sequence: string): (K.Store, K.Out) {
    if "_G" <= sequence then K.Command(codec, lim, store, sequence[2..])
    else if "Pq" <= sequence then (store, SixelFrame(codec, Sixel.Decoded(SIXEL_LIMITS, sequence[1..])))
    else (store, K.Out(None, None))
  }

  datatype Emitted = Emitted(frames: seq<K.Frame>, issues: seq<K.Issue>)

  function Plus(a: Emitted, b: Emitted): Emitted {
    Emitted(a.frames + b.frames, a.issues + b.issues)
  }

  /** A frame is emitted only while fewer than `maxFrames` were. */
  function Count(lim: K.Limits, store: K.Store, framesSeen: nat, out: K.Out): (State, Emitted) {
    var issues := if out.issue.Some? then [out.issue.value] else [];
    if out.frame.Some? && framesSeen < lim.maxFrames then (State(store, framesSeen + 1), Emitted([out.frame.value], issues))
    else (State(store, framesSeen), Emitted([], issues))
  }

  ghost function Handle(codec: K.Codec, lim: K.Limits, st: State, sequence: string): (State, Emitted) {
    var (store, out) := Decode(codec, lim, st.store, sequence);
    Count(lim, store, st.framesSeen, out)
  }

  function Trimmed(pending: string): string {
    if |pending| > JUNK_LIMIT then pending[|pending| - JUNK_LIMIT..] else pending
  }

  /** The loop of `feed` on the pending text: new state, what stays pending, what was emitted. */
  ghost function Drain(codec: K.Codec, lim: K.Limits, st: State, pending: string): (State, string, Emitted)
    decreases |pending|
  {
    var start := FirstStart(pending);
    if start < 0 then (st, Trimmed(pending), Emitted([], []))
    else
      var kept := pending[start..];
      var end := Find(kept, GRAPHICS_END, 3);
      if end < 0 then (st, kept, Emitted([], []))
      else
        var (next, first) := Handle(codec, lim, st, kept[1..end]);
        var (last, left, rest) := Drain(codec, lim, next, kept[end + 2..]);
        (last, left, Plus(first, rest))
  }

  class Compositor {
    const codec: K.Codec
    const lim: K.Limits
    var framesSeen: nat
    var pending: string
    var kittyParts: map<string, Bytes>
    var kittyMeta: map<string, K.Params>

    ghost function St(): State
      reads this
    {
      State(K.Store(kittyParts, kittyMeta), framesSeen)
    }

    constructor (codec: K.Codec, lim: K.Limits)
      ensures this.codec == codec && this.lim == lim && pending == "" && St() == State(K.EMPTY, 0)
    {
      this.codec, this.lim := codec, lim;
      framesSeen, pending, kittyParts, kittyMeta := 0, "", map[], map[];
    }

    /** `_kitty` */
    method KittyCommand(payload: string) returns (out: K.Out)
      modifies this`kittyParts, this`kittyMeta
      ensures (K.Store(kittyParts, kittyMeta), out) == K.Command(codec, lim, old(K.Store(kittyParts, kittyMeta)), payload)
    {
      var values, encoded := K.ValuesOf(payload), K.EncodedOf(payload);
      var id := K.Get(values, "i", "default");
      if id !in kittyMeta {
        kittyMeta := kittyMeta[id := map[]];
      }
      kittyMeta := kittyMeta[id := kittyMeta[id] + values];
      assert kittyMeta == old(kittyMeta)[id := K.Remembered(old(kittyMeta), payload)];
      if K.Get(values, "a", "") == "p" && encoded == "" {
        return K.Out(None, None);
      }
      var decoded := codec.b64decode(encoded);
      if decoded.Some? && K.Get(values, "o", "") == "z" {
        decoded := codec.inflate(decoded.value);
      }
      if decoded.None? {
        return K.Out(None, Some(K.Malformed));
      }
      out := Absorb(id, decoded.value, K.Get(values, "m", "0") == "1");
    }

    /** `_kitty` from the decoded bytes on. */
    method Absorb(id: string, bytes: Bytes, more: bool) returns (out: K.Out)
      requires id in kittyMeta
      modifies this`kittyParts, this`kittyMeta
      ensures (K.Store(kittyParts, kittyMeta), out)
        == K.Absorb(codec, lim, old(K.Store(kittyParts, kittyMeta)), id, bytes, more)
    {
      if id !in kittyParts {
        kittyParts := kittyParts[id := []];
      }
      kittyParts := kittyParts[id := kittyParts[id] + bytes];
      assert kittyParts == old(kittyParts)[id := K.Part(old(kittyParts), id) + bytes];
      var total := K.TotalLoop(kittyParts);
      if total > lim.maxPending {
        kittyParts := map[];
        return K.Out(None, Some(K.PendingLimit));
      }
      if more {
        return K.Out(None, None);
      }
      var whole := kittyParts[id];
      kittyParts := kittyParts - {id};
      if |whole| > lim.maxBytes {
        return K.Out(None, Some(K.TooLarge));
      }
      var metadata := kittyMeta[id];
      kittyMeta := kittyMeta - {id};
      out := FinishFrame(whole, metadata);
    }

    method RawFits(width: int, height: int) returns (fits: bool)
      ensures fits == K.RawFits(width, height)
    {
      fits := false;
      if 0 < width <= 2048 && 0 < height <= 2048 {
        K.SpanIsProduct(width, height);
        fits := width * height <= 2_000_000;
      }
    }

    /** The end of `_kitty`: raw pixels become a PNG, anything else is passed on. */
    method FinishFrame(decoded: Bytes, values: K.Params) returns (out: K.Out)
      ensures out == K.Finish(codec, decoded, values)
    {
      var format := K.Get(values, "f", "100");
      if format == "24" || format == "32" {
        var width := if "s" in values then codec.parseInt(values["s"]) else None;
        var height := if "v" in values then codec.parseInt(values["v"]) else None;
        if width.None? || height.None? {
          return K.Out(None, Some(K.NoDimensions));
        }
        var channels := if format == "24" then 3 else 4;
        var fits := RawFits(width.value, height.value);
        if !fits {
          return K.Out(None, Some(K.BadDimensions));
        }
        var stride := K.Stride(width.value, channels);
        K.SpanIsProduct(stride, height.value);
        if |decoded| != height.value * stride {
          return K.Out(None, Some(K.BadLength));
        }
        var scanlines := K.ScanlineLoop(decoded, width.value, height.value, channels);
        var png := PngRgba(width.value, height.value, scanlines, codec.deflate, codec.crc);
        return if png.None? then K.Out(None, Some(K.Unencodable))
               else K.Out(Some(K.Frame(png.value, Some(width.value), Some(height.value))), None);
      }
      out := K.Out(Some(K.Frame(decoded, None, None)), None);
    }

    /** Decoding one complete sequence. */
    method DecodeSequence(sequence: string) returns (out: K.Out)
      modifies this`kittyParts, this`kittyMeta
      ensures (K.Store(kittyParts, kittyMeta), out) == Decode(codec, lim, old(K.Store(kittyParts, kittyMeta)), sequence)
    {
      out := K.Out(None, None);
      if "_G" <= sequence {
        out := KittyCommand(sequence[2..]);
      } else if "Pq" <= sequence {
        var decoded := Sixel.Decode(SIXEL_LIMITS, sequence[1..]);
        out := SixelFrame(codec, decoded);
      }
    }

    /** Counting what one sequence gave. */
    method Emit(out: K.Out) returns (frames: seq<K.Frame>, issues: seq<K.Issue>)
      modifies this`framesSeen
      ensures (St(), Emitted(frames, issues)) == Count(lim, K.Store(kittyParts, kittyMeta), old(framesSeen), out)
    {
      frames, issues := [], [];
      if out.issue.Some? {
        issues := [out.issue.value];
      }
      if out.frame.Some? && framesSeen < lim.maxFrames {
        frames := [out.frame.value];
        framesSeen := framesSeen + 1;
      }
    }

    /** One complete sequence inside `feed`. */
    method Sequence(sequence: string) returns (frames: seq<K.Frame>, issues: seq<K.Issue>)
      modifies this`kittyParts, this`kittyMeta, this`framesSeen
      ensures (St(), Emitted(frames, issues)) == Handle(codec, lim, old(St()), sequence)
    {
      ghost var decoded := Decode(codec, lim, St().store, sequence);
      var out := DecodeSequence(sequence);
      assert (K.Store(kittyParts, kittyMeta), out) == decoded;
      frames, issues := Emit(out);
    }

    method Feed(data: string) returns (frames: seq<K.Frame>, issue: Option<K.Issue>)
      modifies this
      ensures var e := Drain(codec, lim, old(St()), old(pending) + data).2;
        frames == e.frames && (issue == None <==> e.issues == []) && (issue.Some? ==> issue.value == e.issues[0])
      ensures (St(), pending) == (Drain(codec, lim, old(St()), old(pending) + data).0, Drain(codec, lim, old(St()), old(pending) + data).1)
    {
      var issues: seq<K.Issue> := [];
      frames := [];
      pending := pending + data;
      ghost var whole := Drain(codec, lim, St(), pending);
      PlusZero(whole.2);
      while true
        invariant var now := Drain(codec, lim, St(), pending);
          whole == (now.0, now.1, Plus(Emitted(frames, issues), now.2))
        decreases |pending|
      {
        var start := FirstStart(pending);
        PlusZero(Emitted(frames, issues));
        if start < 0 {
          pending := Trimmed(pending);
          break;
        }
        pending := pending[start..];
        var end := Find(pending, GRAPHICS_END, 3);
        if end < 0 {
          break;
        }
        var sequence := pending[1..end];
        ghost var next := Handle(codec, lim, St(), sequence);
        pending := pending[end + 2..];
        PlusAssociates(Emitted(frames, issues), next.1, Drain(codec, lim, next.0, pending).2);
        var emitted, problems := Sequence(sequence);
        frames, issues := frames + emitted, issues + problems;
      }
      issue := if issues != [] then Some(issues[0]) else None;
    }
  }

  // ---- chunking does not matter ----

  /** The compositor between two reads. */
  datatype Session = Session(st: State, pending: string)

  ghost function Fed(codec: K.Codec, lim: K.Limits, s: Session, data: string): (Session, Emitted) {
    var (st, pending, e) := Drain(codec, lim, s.st, s.pending + data);
    (Session(st, pending), e)
  }

  lemma StartInExtension(s: string, t: string)
    ensures FirstStart(s) >= 0 ==> FirstStart(s + t) == FirstStart(s)
    ensures FirstStart(s) < 0 && FirstStart(s + t) >= 0 ==> FirstStart(s + t) + 3 > |s|
  {
    forall j | 0 <= j && j + 3 <= |s| ensures IsStart(s + t, j) <==> IsStart(s, j) {
      OccursInExtension(s, t, KITTY_START, j);
      OccursInExtension(s, t, SIXEL_START, j);
    }
    var r := FirstStart(s);
    if r >= 0 {
      if OccursAt(s, KITTY_START, r) {
        OccursInExtension(s, t, KITTY_START, r);
      } else {
        OccursInExtension(s, t, SIXEL_START, r);
      }
      assert IsStart(s + t, r);
    }
  }

  lemma StartInSuffix(s: string, k: nat)
    requires k <= |s| && forall j :: 0 <= j < k ==> !IsStart(s, j)
    ensures FirstStart(s) == (var r := FirstStart(s[k..]); if r < 0 then r else k + r)
  {
    forall j | 0 <= j ensures IsStart(s[k..], j) <==> IsStart(s, k + j) {
      OccursInSuffix(s, KITTY_START, k, j);
      OccursInSuffix(s, SIXEL_START, k, j);
    }
    var r, q := FirstStart(s[k..]), FirstStart(s);
    if r >= 0 {
      assert IsStart(s, k + r);
    }
    if q >= 0 {
      assert IsStart(s[k..], q - k);
    }
    assert FirstStart(s) < 0 ==> FirstStart(s) == -1;
  }

  /** Text in front of the first start may be dropped as long as enough junk stays. */
  lemma DropJunk(codec: K.Codec, lim: K.Limits, st: State, s: string, k: nat)
    requires k <= |s| && forall j :: 0 <= j < k ==> !IsStart(s, j)
    requires FirstStart(s) >= 0 || |s| - k >= JUNK_LIMIT
    ensures Drain(codec, lim, st, s[k..]) == Drain(codec, lim, st, s)
  {
    StartInSuffix(s, k);
    var r := FirstStart(s[k..]);
    if r >= 0 {
      assert s[k..][r..] == s[k + r..];
    } else {
      assert Trimmed(s[k..]) == Trimmed(s);
    }
  }

  /** Draining `a` and then, behind what it left pending, `b` is draining both at once. */
  ghost predicate Splits(codec: K.Codec, lim: K.Limits, st: State, a: string, b: string) {
    var (mid, left, first) := Drain(codec, lim, st, a);
    var (last, rest, second) := Drain(codec, lim, mid, left + b);
    Drain(codec, lim, st, a + b) == (last, rest, Plus(first, second))
  }

  lemma SplitsBeforeStart(codec: K.Codec, lim: K.Limits, st: State, a: string, b: string)
    requires FirstStart(a) < 0
    ensures Splits(codec, lim, st, a, b)
  {
    var k := if |a| > JUNK_LIMIT then |a| - JUNK_LIMIT else 0;
    assert Trimmed(a) == a[k..] && Trimmed(a) + b == (a + b)[k..];
    if k > 0 {
      forall j | 0 <= j < k ensures !IsStart(a + b, j) {
        OccursInExtension(a, b, KITTY_START, j);
        OccursInExtension(a, b, SIXEL_START, j);
      }
      DropJunk(codec, lim, st, a + b, k);
    }
    PlusZero(Drain(codec, lim, st, a + b).2);
  }

  lemma SplitsInSequence(codec: K.Codec, lim: K.Limits, st: State, a: string, b: string)
    requires FirstStart(a) >= 0 && Find(a[FirstStart(a)..], GRAPHICS_END, 3) < 0
    ensures Splits(codec, lim, st, a, b)
  {
    StartInExtension(a, b);
    var start := FirstStart(a);
    assert (a + b)[start..] == a[start..] + b;
    DropJunk(codec, lim, st, a + b, start);
    PlusZero(Drain(codec, lim, st, a + b).2);
  }

  /** The first turn of the loop sees the same sequence in `a` and in `a + b`. */
  lemma SameFirstTurn(a: string, b: string)
    requires FirstStart(a) >= 0 && Find(a[FirstStart(a)..], GRAPHICS_END, 3) >= 0
    ensures FirstStart(a + b) == FirstStart(a)
    ensures var kept, more := a[FirstStart(a)..], (a + b)[FirstStart(a)..];
      var end := Find(kept, GRAPHICS_END, 3);
      Find(more, GRAPHICS_END, 3) == end && more[1..end] == kept[1..end] && more[end + 2..] == kept[end + 2..] + b
  {
    StartInExtension(a, b);
    var kept := a[FirstStart(a)..];
    assert (a + b)[FirstStart(a)..] == kept + b;
    FindInExtension(kept, b, GRAPHICS_END, 3);
  }

  lemma {:induction false} DrainSplits(codec: K.Codec, lim: K.Limits, st: State, a: string, b: string)
    ensures Splits(codec, lim, st, a, b)
    decreases |a|
  {
    var start := FirstStart(a);
    if start < 0 {
      SplitsBeforeStart(codec, lim, st, a, b);
    } else if Find(a[start..], GRAPHICS_END, 3) < 0 {
      SplitsInSequence(codec, lim, st, a, b);
    } else {
      SameFirstTurn(a, b);
      var kept := a[start..];
      var end := Find(kept, GRAPHICS_END, 3);
      var (next, first) := Handle(codec, lim, st, kept[1..end]);
      var tail := kept[end + 2..];
      DrainSplits(codec, lim, next, tail, b);
      var (mid, left, second) := Drain(codec, lim, next, tail);
      PlusAssociates(first, second, Drain(codec, lim, mid, left + b).2);
    }
  }

  lemma PlusAssociates(a: Emitted, b: Emitted, c: Emitted)
    ensures Plus(Plus(a, b), c) == Plus(a, Plus(b, c))
  {
    assert (a.frames + b.frames) + c.frames == a.frames + (b.frames + c.frames);
    assert (a.issues + b.issues) + c.issues == a.issues + (b.issues + c.issues);
  }

  lemma PlusZero(e: Emitted)
    ensures Plus(Emitted([], []), e) == e && Plus(e, Emitted([], [])) == e
  {
    assert [] + e.frames == e.frames && [] + e.issues == e.issues;
    assert e.frames + [] == e.frames && e.issues + [] == e.issues;
  }

  /** Feeding the chunks one after another. */
  ghost function FedAll(codec: K.Codec, lim: K.Limits, s: Session, chunks: seq<string>): (Session, Emitted)
    decreases |chunks|
  {
    if chunks == [] then (s, Emitted([], []))
    else
      var n := |chunks| - 1;
      var (mid, first) := FedAll(codec, lim, s, chunks[..n]);
      var (last, second) := Fed(codec, lim, mid, chunks[n]);
      (last, Plus(first, second))
  }

  /** However a stream is cut into reads, the frames, the issues and the compositor's final state are
      those of reading it at once. */
  lemma {:induction false} ChunkingDoesNotMatter(codec: K.Codec, lim: K.Limits, s: Session, chunks: seq<string>)
    requires chunks != []
    ensures FedAll(codec, lim, s, chunks) == Fed(codec, lim, s, Concat(chunks))
    decreases |chunks|
  {
    var n := |chunks| - 1;
    if n == 0 {
      assert chunks[..0] == [] && Concat(chunks) == chunks[0];
      PlusZero(Fed(codec, lim, s, chunks[0]).1);
    } else {
      ChunkingDoesNotMatter(codec, lim, s, chunks[..n]);
      FedTwice(codec, lim, s, Concat(chunks[..n]), chunks[n]);
    }
  }

  lemma FedTwice(codec: K.Codec, lim: K.Limits, s: Session, a: string, b: string)
    ensures var (mid, first) := Fed(codec, lim, s, a); var (last, second) := Fed(codec, lim, mid, b);
      Fed(codec, lim, s, a + b) == (last, Plus(first, second))
  {
    DrainSplits(codec, lim, s.st, s.pending + a, b);
    assert s.pending + (a + b) == s.pending + a + b;
  }

  // ---- what the emitted pictures show ----

  /** The size and scanlines behind a frame that came from raw pixels. */
  lemma RawBehind(codec: K.Codec, decoded: Bytes, values: K.Params, channels: nat, frame: K.Frame)
    returns (width: nat, height: nat, scanlines: Bytes)
    requires K.Get(values, "f", "100") == (if channels == 3 then "24" else "32") && (channels == 3 || channels == 4)
    requires K.Finish(codec, decoded, values).frame == Some(frame)
    ensures width > 0 && height > 0 && |decoded| == K.Span(K.Stride(width, channels), height)
    ensures scanlines == K.RawScanlines(decoded, width, height, channels)
    ensures PngRgba(width, height, scanlines, codec.deflate, codec.crc) == Some(frame.data)
  {
    width, height := codec.parseInt(values["s"]).value, codec.parseInt(values["v"]).value;
    scanlines := K.RawScanlines(decoded, width, height, channels);
  }

  /** The PNG of some lines is judged visible exactly when one of them has alpha. */
  lemma LinesVisible(codec: K.Codec, lines: seq<Bytes>, width: nat, height: nat, scanlines: Bytes, png: Bytes)
    requires AllWide(lines, 4 * width) && |lines| == height && scanlines == Interleave(lines)
    requires PngRgba(width, height, scanlines, codec.deflate, codec.crc) == Some(png)
    requires forall b :: codec.inflate(codec.deflate(b)) == Some(b)
    ensures PetRenderer.FastVisible(png, codec.inflate) <==> SomeAlpha(lines)
  {
    PetRenderer.WrittenVisible(png, lines, width, height, codec.deflate, codec.inflate, codec.crc);
  }

  lemma RawLinesOf(decoded: Bytes, stride: nat, width: nat, height: nat, channels: nat, scanlines: Bytes) returns (lines: seq<Bytes>)
    requires K.Strides(stride, width, channels) && |decoded| == K.Span(stride, height)
    requires scanlines == K.RawScanlines(decoded, width, height, channels)
    ensures lines == K.RawLines(decoded, stride, channels, height)
    ensures AllWide(lines, 4 * width) && |lines| == height && scanlines == Interleave(lines)
  {
    lines := K.RawLines(decoded, stride, channels, height);
    K.RawLinesWide(decoded, stride, width, height, channels);
  }

  lemma FirstPixelOpaque(decoded: Bytes, stride: nat, width: nat, height: nat)
    requires K.Span(stride, height) <= |decoded| && K.Strides(stride, width, 3) && width > 0 && height > 0
    ensures var line := K.RawLines(decoded, stride, 3, height)[0];
      4 <= |line| && 3 <= |decoded| && line[0..4] == decoded[0..3] + [255]
  {
    K.RawPixel(decoded, stride, width, height, 3, 0, 0, 0);
  }

  lemma OpaqueLines(decoded: Bytes, stride: nat, width: nat, height: nat, lines: seq<Bytes>)
    requires K.Span(stride, height) <= |decoded| && K.Strides(stride, width, 3) && width > 0 && height > 0
    requires lines == K.RawLines(decoded, stride, 3, height)
    ensures SomeAlpha(lines)
  {
    FirstPixelOpaque(decoded, stride, width, height);
    AlphaAt(lines, 0, decoded[0..3]);
  }

  /** A frame made of raw 24-bit pixels is always judged visible. */
  lemma OpaqueFrameVisible(codec: K.Codec, decoded: Bytes, values: K.Params, frame: K.Frame)
    requires K.Get(values, "f", "100") == "24" && K.Finish(codec, decoded, values).frame == Some(frame)
    requires forall b :: codec.inflate(codec.deflate(b)) == Some(b)
    ensures PetRenderer.FastVisible(frame.data, codec.inflate)
  {
    var width, height, scanlines := RawBehind(codec, decoded, values, 3, frame);
    var lines := OpaqueLinesOf(decoded, width, height, scanlines);
    LinesVisible(codec, lines, width, height, scanlines, frame.data);
  }

  lemma OpaqueLinesOf(decoded: Bytes, width: nat, height: nat, scanlines: Bytes) returns (lines: seq<Bytes>)
    requires width > 0 && height > 0 && |decoded| == K.Span(K.Stride(width, 3), height)
    requires scanlines == K.RawScanlines(decoded, width, height, 3)
    ensures AllWide(lines, 4 * width) && |lines| == height && scanlines == Interleave(lines) && SomeAlpha(lines)
  {
    lines := RawLinesOf(decoded, K.Stride(width, 3), width, height, 3, scanlines);
    OpaqueLines(decoded, K.Stride(width, 3), width, height, lines);
  }

  lemma AlphaAt(lines: seq<Bytes>, row: nat, rgb: Bytes)
    requires row < |lines| && |lines[row]| >= 4 && |rgb| == 3 && lines[row][0..4] == rgb + [255]
    ensures SomeAlpha(lines)
  {
    assert lines[row][0..4][3] == 255;
    assert lines[row][3] == 255;
  }

  /** A frame made of raw 32-bit pixels is judged visible exactly when one of the source alpha bytes is set. */
  lemma AlphaFrameVisible(codec: K.Codec, decoded: Bytes, values: K.Params, frame: K.Frame)
    requires K.Get(values, "f", "100") == "32" && K.Finish(codec, decoded, values).frame == Some(frame)
    requires forall b :: codec.inflate(codec.deflate(b)) == Some(b)
    ensures PetRenderer.FastVisible(frame.data, codec.inflate) <==> !PetRenderer.AlphaZero(decoded)
  {
    var width, height, scanlines := RawBehind(codec, decoded, values, 4, frame);
    var lines := AlphaLinesOf(decoded, width, height, scanlines);
    LinesVisible(codec, lines, width, height, scanlines, frame.data);
  }

  lemma AlphaLinesOf(decoded: Bytes, width: nat, height: nat, scanlines: Bytes) returns (lines: seq<Bytes>)
    requires |decoded| == K.Span(K.Stride(width, 4), height) && scanlines == K.RawScanlines(decoded, width, height, 4)
    ensures AllWide(lines, 4 * width) && |lines| == height && scanlines == Interleave(lines)
    ensures SomeAlpha(lines) <==> !PetRenderer.AlphaZero(decoded)
  {
    lines := RawLinesOf(decoded, K.Stride(width, 4), width, height, 4, scanlines);
    AllRawAlpha(decoded, K.Stride(width, 4), height);
  }

  lemma AllRawAlpha(decoded: Bytes, stride: nat, n: nat)
    requires K.Span(stride, n) == |decoded| && stride % 4 == 0
    ensures SomeAlpha(K.RawLines(decoded, stride, 4, n)) <==> !PetRenderer.AlphaZero(decoded)
  {
    RawAlpha(decoded, stride, n);
    assert decoded[..|decoded|] == decoded;
  }

  lemma AlphaAppend(lines: seq<Bytes>, line: Bytes)
    ensures SomeAlpha(lines + [line]) <==> SomeAlpha(lines) || !PetRenderer.AlphaZero(line)
  {
    var all := lines + [line];
    if SomeAlpha(lines) {
      var r, k :| 0 <= r < |lines| && 0 <= k < |lines[r]| && k % 4 == 3 && lines[r][k] != 0;
      assert all[r][k] != 0;
    }
    if !PetRenderer.AlphaZero(line) {
      var k :| 0 <= k < |line| && k % 4 == 3 && line[k] != 0;
      assert all[|lines|][k] != 0;
    }
  }

  lemma AlphaZeroSplits(s: Bytes, from: nat, to: nat)
    requires from <= to <= |s| && from % 4 == 0
    ensures PetRenderer.AlphaZero(s[..to]) <==> PetRenderer.AlphaZero(s[..from]) && PetRenderer.AlphaZero(s[from..to])
  {
    assert s[..to] == s[..from] + s[from..to];
    if PetRenderer.AlphaZero(s[..to]) {
      forall k | 0 <= k < to - from && k % 4 == 3 ensures s[from..to][k] == 0 {
        assert s[..to][from + k] == 0;
      }
    }
  }

  lemma {:induction false} RawAlpha(decoded: Bytes, stride: nat, n: nat)
    requires K.Span(stride, n) <= |decoded| && stride % 4 == 0
    ensures K.Span(stride, n) % 4 == 0
    ensures SomeAlpha(K.RawLines(decoded, stride, 4, n)) <==> !PetRenderer.AlphaZero(decoded[..K.Span(stride, n)])
    decreases n
  {
    if n > 0 {
      RawAlpha(decoded, stride, n - 1);
      var from := K.Span(stride, n - 1);
      AlphaAppend(K.RawLines(decoded, stride, 4, n - 1), decoded[from..from + stride]);
      AlphaZeroSplits(decoded, from, from + stride);
    }
  }

  /** A decoded Sixel image is always judged visible. */
  lemma SixelFrameVisible(codec: K.Codec, text: string, frame: K.Frame)
    requires SixelFrame(codec, Sixel.Decoded(SIXEL_LIMITS, text)).frame == Some(frame)
    requires forall b :: codec.inflate(codec.deflate(b)) == Some(b)
    ensures PetRenderer.FastVisible(frame.data, codec.inflate)
  {
    Sixel.DecodedExtent(SIXEL_LIMITS, text);
    var image := Sixel.Decoded(SIXEL_LIMITS, text).value;
    var pixels := Sixel.Painted(SIXEL_LIMITS, text);
    PixelRowsVisible(pixels, image.width, image.height);
    PetRenderer.WrittenVisible(frame.data, Sixel.PixelRows(pixels, image.width, image.height), image.width, image.height,
                               codec.deflate, codec.inflate, codec.crc);
  }

  lemma PixelRowsVisible(pixels: map<(nat, nat), Sixel.Rgb>, w: nat, h: nat)
    requires w > 0 && h > 0
    ensures SomeAlpha(Sixel.PixelRows(pixels, w, h))
  {
    Sixel.PixelRowAt(pixels, 0, w, 0);
    var p := Sixel.PixelOf(pixels, 0, 0);
    assert Sixel.Opaque(p) == [p.r, p.g, p.b] + [255];
    AlphaAt(Sixel.PixelRows(pixels, w, h), 0, [p.r, p.g, p.b]);
  }
}
