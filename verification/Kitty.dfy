// One Kitty graphics command: parameters, multipart buffers by image id, raw pixel frames.

module Kitty {
  import opened Text
  import opened Png

  /** The library calls: base64 with validation, zlib, CRC-32 and `int`. None is their exception. */
  datatype Codec = Codec(b64decode: string -> Option<Bytes>, inflate: Bytes -> Option<Bytes>,
                         deflate: Bytes -> Bytes, crc: Bytes -> nat, parseInt: string -> Option<int>)

  datatype Limits = Limits(maxBytes: nat, maxPending: nat, maxFrames: nat)

  /** A frame by its decoded bytes; the MIME type is always image/png. */
  datatype Frame = Frame(data: Bytes, width: Option<nat>, height: Option<nat>)

  datatype Issue = Malformed | PendingLimit | TooLarge | NoDimensions | BadDimensions | BadLength | Unencodable | BadSixel

  datatype Out = Out(frame: Option<Frame>, issue: Option<Issue>)

  type Params = map<string, string>

  /** The buffered parts and the remembered parameters, by image id. */
  datatype Store = Store(parts: map<string, Bytes>, meta: map<string, Params>)

  // ---- the command text ----

  /** `s.split(sep, 1)` as a pair; the second half is empty when `sep` is missing. */
  function SplitOnce(s: string, sep: char): (string, string) {
    var i := Find(s, [sep], 0);
    if i < 0 then (s, "") else (s[..i], s[i + 1..])
  }

  /** `dict(item.split("=", 1) for item in items if "=" in item)`: the last one wins. */
  function ParamsOf(items: seq<string>): Params {
    if items == [] then map[]
    else
      var n := |items| - 1;
      var (key, value) := SplitOnce(items[n], '=');
      if '=' in items[n] then ParamsOf(items[..n])[key := value] else ParamsOf(items[..n])
  }

  function ValuesOf(payload: string): Params {
    ParamsOf(Split(SplitOnce(payload, ';').0, ','))
  }

  function EncodedOf(payload: string): string {
    SplitOnce(payload, ';').1
  }

  function Get(values: Params, key: string, default: string): string {
    if key in values then values[key] else default
  }

  function IdOf(payload: string): string {
    Get(ValuesOf(payload), "i", "default")
  }

  /** A placement command without data. */
  predicate IsPlacement(payload: string) {
    Get(ValuesOf(payload), "a", "") == "p" && EncodedOf(payload) == ""
  }

  /** The bytes a command carries. */
  function Payload(codec: Codec, payload: string): Option<Bytes> {
    match codec.b64decode(EncodedOf(payload))
    case None => None
    case Some(bytes) => if Get(ValuesOf(payload), "o", "") == "z" then codec.inflate(bytes) else Some(bytes)
  }

  predicate MoreFollows(payload: string) {
    Get(ValuesOf(payload), "m", "0") == "1"
  }

  // ---- raw pixel frames ----

  /** A line of RGB pixels with an opaque alpha behind each. */
  function Opaque(line: Bytes): Bytes {
    if line == [] then []
    else if |line| < 3 then line + [255]
    else line[..3] + [255] + Opaque(line[3..])
  }

  function RawLine(line: Bytes, channels: nat): Bytes
  {
    if channels == 3 then Opaque(line) else line
  }

  /** The size of `n` lines: n * stride. */
  function Span(stride: nat, n: nat): nat {
    if n == 0 then 0 else Span(stride, n - 1) + stride
  }

  lemma {:induction false} SpanIsProduct(stride: nat, n: nat)
    ensures Span(stride, n) == n * stride
  {
    if n > 0 {
      SpanIsProduct(stride, n - 1);
    }
  }

  lemma {:induction false} SpanGrows(stride: nat, m: nat, n: nat)
    requires m <= n
    ensures Span(stride, m) <= Span(stride, n)
    decreases n
  {
    if m < n {
      SpanGrows(stride, m, n - 1);
    }
  }

  /** The first `n` lines of `stride` bytes each. */
  function RawLines(decoded: Bytes, stride: nat, channels: nat, n: nat): (lines: seq<Bytes>)
    requires Span(stride, n) <= |decoded|
    ensures |lines| == n
  {
    if n == 0 then []
    else
      RawLines(decoded, stride, channels, n - 1) + [RawLine(decoded[Span(stride, n - 1)..Span(stride, n)], channels)]
  }

  /** `_kitty` from the completed bytes on: the frame of a whole image. */
  function Finish(codec: Codec, decoded: Bytes, values: Params): Out {
    var format := Get(values, "f", "100");
    if format != "24" && format != "32" then Out(Some(Frame(decoded, None, None)), None)
    else
      var width := if "s" in values then codec.parseInt(values["s"]) else None;
      var height := if "v" in values then codec.parseInt(values["v"]) else None;
      if width.None? || height.None? then Out(None, Some(NoDimensions))
      else RawFrame(codec, decoded, width.value, height.value, if format == "24" then 3 else 4)
  }

  /** The limits on size and pixel count. */
  predicate RawFits(width: int, height: int) {
    0 < width <= 2048 && 0 < height <= 2048 && Span(width, height) <= 2_000_000
  }

  /** The bytes of a line of `width` pixels. */
  function Stride(width: nat, channels: nat): nat {
    if channels == 3 then 3 * width else 4 * width
  }

  /** The scanlines of a raw image whose size fits. */
  function RawScanlines(decoded: Bytes, width: nat, height: nat, channels: nat): Bytes
    requires |decoded| == Span(Stride(width, channels), height)
  {
    Interleave(RawLines(decoded, Stride(width, channels), channels, height))
  }

  function RawFrame(codec: Codec, decoded: Bytes, width: int, height: int, channels: nat): Out {
    if !RawFits(width, height) then Out(None, Some(BadDimensions))
    else if |decoded| != Span(Stride(width, channels), height) then Out(None, Some(BadLength))
    else match PngRgba(width, height, RawScanlines(decoded, width, height, channels), codec.deflate, codec.crc)
      case None => Out(None, Some(Unencodable))
      case Some(png) => Out(Some(Frame(png, Some(width), Some(height))), None)
  }

  method OpaqueLoop(line: Bytes, start: Bytes) returns (scanlines: Bytes)
    ensures scanlines == start + Opaque(line)
  {
    scanlines := start;
    var offset := 0;
    while offset < |line|
      invariant 0 <= offset && scanlines + Opaque(Behind(line, offset)) == start + Opaque(line)
    {
      var end := if offset + 3 <= |line| then offset + 3 else |line|;
      OpaqueTurn(line, offset, end, scanlines);
      scanlines := scanlines + line[offset..end] + [255];
      offset := offset + 3;
    }
    assert scanlines + [] == scanlines;
  }

  lemma OpaqueTurn(line: Bytes, offset: nat, end: nat, done: Bytes)
    requires offset < |line| && end == if offset + 3 <= |line| then offset + 3 else |line|
    ensures done + Opaque(Behind(line, offset)) == (done + line[offset..end] + [255]) + Opaque(Behind(line, offset + 3))
  {
    OpaqueStep(line, offset, end);
    Regrouped(done, line[offset..end], [255], Opaque(Behind(line, offset + 3)));
  }

  lemma OpaqueStep(line: Bytes, offset: nat, end: nat)
    requires offset < |line| && end == if offset + 3 <= |line| then offset + 3 else |line|
    ensures Opaque(Behind(line, offset)) == line[offset..end] + [255] + Opaque(Behind(line, offset + 3))
  {
    var rest := line[offset..];
    if offset + 3 <= |line| {
      assert rest[..3] == line[offset..end] && rest[3..] == line[offset + 3..];
    } else {
      assert rest == line[offset..end] && rest + [255] + [] == rest + [255];
    }
  }

  lemma Regrouped(a: Bytes, b: Bytes, c: Bytes, d: Bytes)
    ensures a + (b + c + d) == (a + b + c) + d
  {
  }

  method ScanlineLoop(decoded: Bytes, width: nat, height: nat, channels: nat) returns (scanlines: Bytes)
    requires |decoded| == Span(Stride(width, channels), height)
    ensures scanlines == RawScanlines(decoded, width, height, channels)
  {
    var stride := Stride(width, channels);
    scanlines := [];
    for row := 0 to height
      invariant Span(stride, row) <= |decoded|
      invariant scanlines == Interleave(RawLines(decoded, stride, channels, row))
    {
      var start := row * stride;
      RowFits(decoded, stride, channels, row, height, start);
      scanlines := OneLine(decoded[start..start + stride], channels, scanlines);
    }
  }

  /** The next line stands right behind the ones before it. */
  lemma RowFits(decoded: Bytes, stride: nat, channels: nat, row: nat, height: nat, start: nat)
    requires row < height && Span(stride, height) <= |decoded| && start == row * stride
    ensures start + stride == Span(stride, row + 1) <= |decoded| && start == Span(stride, row)
    ensures Interleave(RawLines(decoded, stride, channels, row + 1))
      == Interleave(RawLines(decoded, stride, channels, row)) + [0] + RawLine(decoded[start..start + stride], channels)
  {
    SpanIsProduct(stride, row);
    SpanGrows(stride, row + 1, height);
    NextInterleaved(decoded, stride, channels, row);
  }

  lemma NextInterleaved(decoded: Bytes, stride: nat, channels: nat, row: nat)
    requires Span(stride, row + 1) <= |decoded|
    ensures Span(stride, row + 1) == Span(stride, row) + stride
    ensures Interleave(RawLines(decoded, stride, channels, row + 1))
      == Interleave(RawLines(decoded, stride, channels, row)) + [0] + RawLine(decoded[Span(stride, row)..Span(stride, row) + stride], channels)
  {
    InterleaveAppend(RawLines(decoded, stride, channels, row), RawLine(decoded[Span(stride, row)..Span(stride, row) + stride], channels));
  }

  /** One turn of the loop over the rows. */
  method OneLine(line: Bytes, channels: nat, start: Bytes) returns (scanlines: Bytes)
    ensures scanlines == start + [0] + RawLine(line, channels)
  {
    if channels == 3 {
      scanlines := OpaqueLoop(line, start + [0]);
    } else {
      scanlines := start + [0] + line;
    }
  }

  lemma {:induction false} OpaqueAt(line: Bytes, c: nat)
    requires 3 * c + 3 <= |line|
    ensures 4 * c + 4 <= |Opaque(line)| && Opaque(line)[4 * c..4 * c + 4] == line[3 * c..3 * c + 3] + [255]
    decreases c
  {
    var first, rest := line[..3] + [255], Opaque(line[3..]);
    assert Opaque(line) == first + rest && |first| == 4;
    if c > 0 {
      OpaqueAt(line[3..], c - 1);
      var i, j := 4 * (c - 1), 3 * (c - 1);
      SliceBehind(first, rest, i, i + 4);
      SliceOfTail(line, 3, j, j + 3);
      assert (first + rest)[4 * c..4 * c + 4] == rest[i..i + 4];
      assert line[3 * c..3 * c + 3] == line[3..][j..j + 3];
    } else {
      SliceInFront(first, rest, 0, 4);
      assert first[0..4] == first;
    }
  }

  lemma {:induction false} OpaqueLength(line: Bytes, w: nat)
    requires |line| == 3 * w
    ensures |Opaque(line)| == 4 * w
    decreases w
  {
    if w > 0 {
      OpaqueLength(line[3..], w - 1);
    }
  }

  lemma {:induction false} RawLineAt(decoded: Bytes, stride: nat, channels: nat, n: nat, r: nat)
    requires Span(stride, n) <= |decoded| && r < n
    ensures Span(stride, r) + stride <= |decoded|
    ensures RawLines(decoded, stride, channels, n)[r] == RawLine(decoded[Span(stride, r)..Span(stride, r) + stride], channels)
    decreases n
  {
    var before := RawLines(decoded, stride, channels, n - 1);
    var last := RawLine(decoded[Span(stride, n - 1)..Span(stride, n - 1) + stride], channels);
    assert Span(stride, n) == Span(stride, n - 1) + stride;
    assert RawLines(decoded, stride, channels, n) == before + [last];
    if r < n - 1 {
      RawLineAt(decoded, stride, channels, n - 1, r);
      assert (before + [last])[r] == before[r];
    } else {
      assert (before + [last])[r] == last;
    }
  }

  /** `stride` bytes make `width` pixels of 3 or 4 channels. */
  predicate Strides(stride: nat, width: nat, channels: nat) {
    (channels == 3 || channels == 4) && stride == Stride(width, channels)
  }

  lemma RawLinesWide(decoded: Bytes, stride: nat, width: nat, height: nat, channels: nat)
    requires Span(stride, height) <= |decoded| && Strides(stride, width, channels)
    ensures AllWide(RawLines(decoded, stride, channels, height), 4 * width)
  {
    var lines := RawLines(decoded, stride, channels, height);
    forall r | 0 <= r < height ensures |lines[r]| == 4 * width {
      RawLineAt(decoded, stride, channels, height, r);
      RawLineLength(decoded[Span(stride, r)..Span(stride, r) + stride], width, channels);
    }
  }

  lemma RawLineLength(line: Bytes, width: nat, channels: nat)
    requires Strides(|line|, width, channels)
    ensures |RawLine(line, channels)| == 4 * width
  {
    if channels == 3 {
      OpaqueLength(line, width);
    }
  }

  /** The scanlines of a raw frame decode to its lines. */
  lemma RawDecodes(decoded: Bytes, width: nat, height: nat, channels: nat, stride: nat)
    requires Strides(stride, width, channels) && |decoded| == Span(stride, height)
    ensures RawScanlines(decoded, width, height, channels) == Interleave(RawLines(decoded, stride, channels, height))
    ensures AllWide(RawLines(decoded, stride, channels, height), 4 * width)
    ensures DecodesTo(RawScanlines(decoded, width, height, channels), width, height, Zeros(4 * width),
                      RawLines(decoded, stride, channels, height))
  {
    var lines := RawLines(decoded, stride, channels, height);
    RawLinesWide(decoded, stride, width, height, channels);
    WideDecodes(lines, width, height, Interleave(lines));
  }

  lemma WideDecodes(lines: seq<Bytes>, width: nat, height: nat, raw: Bytes)
    requires AllWide(lines, 4 * width) && |lines| == height && raw == Interleave(lines)
    ensures DecodesTo(raw, width, height, Zeros(4 * width), lines)
  {
    UnfilterInterleave(lines, width, Zeros(4 * width));
  }

  lemma RawLinePixel(line: Bytes, width: nat, channels: nat, c: nat, i: nat)
    requires Strides(|line|, width, channels) && c < width && i == if channels == 3 then 3 * c else 4 * c
    ensures i + channels <= |line| && 4 * c + 4 <= |RawLine(line, channels)|
    ensures RawLine(line, channels)[4 * c..4 * c + 4] == line[i..i + channels] + (if channels == 3 then [255] else [])
  {
    if channels == 3 {
      OpaqueAt(line, c);
    }
  }

  /** Where the bytes of pixel (r, c) stand. */
  function PixelIndex(stride: nat, channels: nat, r: nat, c: nat): nat {
    Span(stride, r) + if channels == 3 then 3 * c else 4 * c
  }

  /** ... counted row by row. */
  lemma PixelIndexIs(stride: nat, channels: nat, r: nat, c: nat)
    requires channels == 3 || channels == 4
    ensures PixelIndex(stride, channels, r, c) == r * stride + channels * c
  {
    SpanIsProduct(stride, r);
  }

  /** Pixel (r, c) of a raw frame is its row-major source pixel; 24-bit pixels are opaque. */
  lemma RawPixel(decoded: Bytes, stride: nat, width: nat, height: nat, channels: nat, r: nat, c: nat, at: nat)
    requires Span(stride, height) <= |decoded| && Strides(stride, width, channels) && r < height && c < width
    requires at == r * stride + channels * c
    ensures PixelCopied(decoded, RawLines(decoded, stride, channels, height)[r], channels, c, at)
  {
    PixelIndexIs(stride, channels, r, c);
    PixelAtIndex(decoded, stride, width, height, channels, r, c, at);
  }

  /** Pixel `c` of a line is the source pixel at `at`, with an opaque alpha behind three bytes. */
  predicate PixelCopied(decoded: Bytes, line: Bytes, channels: nat, c: nat, at: nat) {
    && at + channels <= |decoded| && 4 * c + 4 <= |line|
    && line[4 * c..4 * c + 4] == decoded[at..at + channels] + (if channels == 3 then [255] else [])
  }

  lemma PixelAtIndex(decoded: Bytes, stride: nat, width: nat, height: nat, channels: nat, r: nat, c: nat, at: nat)
    requires Span(stride, height) <= |decoded| && Strides(stride, width, channels) && r < height && c < width
    requires at == PixelIndex(stride, channels, r, c)
    ensures PixelCopied(decoded, RawLines(decoded, stride, channels, height)[r], channels, c, at)
  {
    var line, from := SourceLine(decoded, stride, channels, height, r);
    SourcePixel(decoded, line, from, width, channels, c, if channels == 3 then 3 * c else 4 * c, at);
  }

  lemma SourceLine(decoded: Bytes, stride: nat, channels: nat, n: nat, r: nat) returns (line: Bytes, from: nat)
    requires Span(stride, n) <= |decoded| && r < n
    ensures from == Span(stride, r) && from + |line| <= |decoded| && line == decoded[from..from + |line|] && |line| == stride
    ensures RawLines(decoded, stride, channels, n)[r] == RawLine(line, channels)
  {
    RawLineAt(decoded, stride, channels, n, r);
    from := Span(stride, r);
    line := decoded[from..from + stride];
  }

  lemma SourcePixel(decoded: Bytes, line: Bytes, from: nat, width: nat, channels: nat, c: nat, i: nat, at: nat)
    requires from + |line| <= |decoded| && line == decoded[from..from + |line|]
    requires Strides(|line|, width, channels) && c < width && i == (if channels == 3 then 3 * c else 4 * c) && at == from + i
    ensures PixelCopied(decoded, RawLine(line, channels), channels, c, at)
  {
    RawLinePixel(line, width, channels, c, i);
    SliceMoved(decoded, line, from, i, i + channels, at, at + channels);
  }

  // ---- multipart buffers ----

  /** `sum(len(part) for part in parts.values())` */
  ghost function Total(parts: map<string, Bytes>): nat
    decreases |parts|
  {
    if parts == map[] then 0
    else
      var id :| id in parts;
      assert |(parts - {id}).Keys| < |parts.Keys| by { assert (parts - {id}).Keys == parts.Keys - {id}; }
      |parts[id]| + Total(parts - {id})
  }

  lemma {:induction false} TotalRemove(parts: map<string, Bytes>, id: string)
    requires id in parts
    ensures Total(parts) == |parts[id]| + Total(parts - {id})
    decreases |parts|
  {
    var first :| first in parts && Total(parts) == |parts[first]| + Total(parts - {first});
    if first != id {
      assert |(parts - {first}).Keys| < |parts.Keys| by { assert (parts - {first}).Keys == parts.Keys - {first}; }
      assert |(parts - {id}).Keys| < |parts.Keys| by { assert (parts - {id}).Keys == parts.Keys - {id}; }
      TotalRemove(parts - {first}, id);
      TotalRemove(parts - {id}, first);
      assert parts - {first} - {id} == parts - {id} - {first};
    }
  }

  function Part(parts: map<string, Bytes>, id: string): Bytes {
    if id in parts then parts[id] else []
  }

  method TotalLoop(parts: map<string, Bytes>) returns (sum: nat)
    ensures sum == Total(parts)
  {
    var left := parts;
    sum := 0;
    while left != map[]
      invariant sum + Total(left) == Total(parts)
      decreases |left|
    {
      var id :| id in left;
      TotalRemove(left, id);
      assert |(left - {id}).Keys| < |left.Keys| by { assert (left - {id}).Keys == left.Keys - {id}; }
      sum := sum + |left[id]|;
      left := left - {id};
    }
  }

  function Remembered(meta: map<string, Params>, payload: string): Params {
    var id := IdOf(payload);
    (if id in meta then meta[id] else map[]) + ValuesOf(payload)
  }

  /** The buffers with the new bytes behind those of the image. */
  function Extended(parts: map<string, Bytes>, id: string, bytes: Bytes): map<string, Bytes> {
    parts[id := Part(parts, id) + bytes]
  }

  /** `_kitty` once the bytes are decoded: what stays buffered. */
  ghost function AbsorbStore(lim: Limits, st: Store, id: string, bytes: Bytes, more: bool): Store {
    var parts := Extended(st.parts, id, bytes);
    if Total(parts) > lim.maxPending then Store(map[], st.meta)
    else if more then Store(parts, st.meta)
    else if |parts[id]| > lim.maxBytes then Store(parts - {id}, st.meta)
    else Store(parts - {id}, st.meta - {id})
  }

  /** What it gives: nothing, an issue, or the finished frame. */
  ghost function AbsorbOut(codec: Codec, lim: Limits, st: Store, id: string, bytes: Bytes, more: bool): Out
    requires id in st.meta
  {
    var parts := Extended(st.parts, id, bytes);
    if Total(parts) > lim.maxPending then Out(None, Some(PendingLimit))
    else if more then Out(None, None)
    else if |parts[id]| > lim.maxBytes then Out(None, Some(TooLarge))
    else Finish(codec, parts[id], st.meta[id])
  }

  ghost function Absorb(codec: Codec, lim: Limits, st: Store, id: string, bytes: Bytes, more: bool): (Store, Out)
    requires id in st.meta
  {
    (AbsorbStore(lim, st, id, bytes, more), AbsorbOut(codec, lim, st, id, bytes, more))
  }

  /** The store with the parameters of a command remembered. */
  function Noted(st: Store, payload: string): Store {
    Store(st.parts, st.meta[IdOf(payload) := Remembered(st.meta, payload)])
  }

  ghost function CommandStore(codec: Codec, lim: Limits, st: Store, payload: string): Store {
    if IsPlacement(payload) then Noted(st, payload)
    else match Payload(codec, payload)
      case None => Noted(st, payload)
      case Some(bytes) => AbsorbStore(lim, Noted(st, payload), IdOf(payload), bytes, MoreFollows(payload))
  }

  ghost function CommandOut(codec: Codec, lim: Limits, st: Store, payload: string): Out {
    if IsPlacement(payload) then Out(None, None)
    else match Payload(codec, payload)
      case None => Out(None, Some(Malformed))
      case Some(bytes) => AbsorbOut(codec, lim, Noted(st, payload), IdOf(payload), bytes, MoreFollows(payload))
  }

  /** `_kitty`: the store after one command, and what it gives. */
  ghost function Command(codec: Codec, lim: Limits, st: Store, payload: string): (Store, Out) {
    (CommandStore(codec, lim, st, payload), CommandOut(codec, lim, st, payload))
  }

  /** The command would fill the buffers beyond the pending limit. */
  ghost predicate Overflows(codec: Codec, lim: Limits, st: Store, payload: string) {
    !IsPlacement(payload) && Payload(codec, payload).Some?
      && Total(Extended(st.parts, IdOf(payload), Payload(codec, payload).value)) > lim.maxPending
  }

  /** Exactly an overflow is reported as one. */
  lemma OverflowIsIssue(codec: Codec, lim: Limits, st: Store, payload: string)
    ensures CommandOut(codec, lim, st, payload).issue == Some(PendingLimit) <==> Overflows(codec, lim, st, payload)
  {
    var bytes := Payload(codec, payload);
    if !IsPlacement(payload) && bytes.Some? {
      OverflowIsAbsorbed(codec, lim, Noted(st, payload), IdOf(payload), bytes.value, MoreFollows(payload));
    }
  }

  lemma OverflowIsAbsorbed(codec: Codec, lim: Limits, st: Store, id: string, bytes: Bytes, more: bool)
    requires id in st.meta
    ensures AbsorbOut(codec, lim, st, id, bytes, more).issue == Some(PendingLimit) <==> Total(Extended(st.parts, id, bytes)) > lim.maxPending
  {
    FinishFits(codec, Extended(st.parts, id, bytes)[id], st.meta[id]);
  }

  lemma FinishFits(codec: Codec, decoded: Bytes, values: Params)
    ensures Finish(codec, decoded, values).issue != Some(PendingLimit)
  {
  }

  // ---- runs of commands ----

  ghost function Run(codec: Codec, lim: Limits, st: Store, payloads: seq<string>): (r: (Store, seq<Out>))
    ensures |r.1| == |payloads|
    decreases |payloads|
  {
    if payloads == [] then (st, [])
    else
      var n := |payloads| - 1;
      var (before, outs) := Run(codec, lim, st, payloads[..n]);
      var (after, out) := Command(codec, lim, before, payloads[n]);
      (after, outs + [out])
  }

  const EMPTY := Store(map[], map[])

  /** The store after a run from the beginning. */
  ghost function StoreAfter(codec: Codec, lim: Limits, payloads: seq<string>): Store {
    Run(codec, lim, EMPTY, payloads).0
  }

  ghost function Outs(codec: Codec, lim: Limits, payloads: seq<string>): (outs: seq<Out>)
    ensures |outs| == |payloads|
  {
    Run(codec, lim, EMPTY, payloads).1
  }

  ghost predicate NoLimitHit(outs: seq<Out>) {
    forall out :: out in outs ==> out.issue != Some(PendingLimit)
  }

  /** The buffered total never exceeds the pending limit after a command. */
  lemma {:induction false} PendingBounded(codec: Codec, lim: Limits, payloads: seq<string>)
    ensures Total(StoreAfter(codec, lim, payloads).parts) <= lim.maxPending
    decreases |payloads|
  {
    if payloads != [] {
      var n := |payloads| - 1;
      PendingBounded(codec, lim, payloads[..n]);
      CommandBounded(codec, lim, StoreAfter(codec, lim, payloads[..n]), payloads[n]);
    }
  }

  lemma CommandBounded(codec: Codec, lim: Limits, st: Store, payload: string)
    requires Total(st.parts) <= lim.maxPending
    ensures Total(CommandStore(codec, lim, st, payload).parts) <= lim.maxPending
  {
    var bytes := Payload(codec, payload);
    if bytes.Some? {
      TotalRemove(Extended(st.parts, IdOf(payload), bytes.value), IdOf(payload));
    }
  }

  /** The commands for one image. */
  function Only(payloads: seq<string>, id: string): seq<string> {
    if payloads == [] then []
    else
      var n := |payloads| - 1;
      Only(payloads[..n], id) + if IdOf(payloads[n]) == id then [payloads[n]] else []
  }

  /** What the commands for one image gave. */
  ghost function OutsOf(payloads: seq<string>, outs: seq<Out>, id: string): seq<Out>
    requires |payloads| == |outs|
  {
    if payloads == [] then []
    else
      var n := |payloads| - 1;
      OutsOf(payloads[..n], outs[..n], id) + if IdOf(payloads[n]) == id then [outs[n]] else []
  }

  /** Two stores hold the same for one image, and `solo` holds nothing else. */
  ghost predicate SameFor(st: Store, solo: Store, id: string) {
    && solo.parts.Keys <= {id}
    && (id in st.parts <==> id in solo.parts) && Part(st.parts, id) == Part(solo.parts, id)
    && (id in st.meta <==> id in solo.meta) && (id in st.meta ==> st.meta[id] == solo.meta[id])
  }

  lemma SoloTotal(parts: map<string, Bytes>, id: string)
    requires parts.Keys <= {id}
    ensures Total(parts) == |Part(parts, id)|
  {
    if id in parts {
      TotalRemove(parts, id);
      assert parts - {id} == map[];
    } else {
      assert parts == map[];
    }
  }

  /** A command for another image leaves this one alone. */
  lemma OtherCommand(codec: Codec, lim: Limits, st: Store, solo: Store, payload: string, id: string)
    requires SameFor(st, solo, id) && IdOf(payload) != id
    requires !Overflows(codec, lim, st, payload)
    ensures SameFor(CommandStore(codec, lim, st, payload), solo, id)
  {
    var bytes := Payload(codec, payload);
    if !IsPlacement(payload) && bytes.Some? {
      OtherAbsorbed(lim, Noted(st, payload), solo, IdOf(payload), bytes.value, MoreFollows(payload), id);
    }
  }

  lemma OtherAbsorbed(lim: Limits, st: Store, solo: Store, key: string, bytes: Bytes, more: bool, id: string)
    requires SameFor(st, solo, id) && key != id && Total(Extended(st.parts, key, bytes)) <= lim.maxPending
    ensures SameFor(AbsorbStore(lim, st, key, bytes, more), solo, id)
  {
  }

  /** A command for this image keeps the same with and without the other images around it. */
  lemma OwnCommand(codec: Codec, lim: Limits, st: Store, solo: Store, payload: string, id: string)
    requires SameFor(st, solo, id) && IdOf(payload) == id && !Overflows(codec, lim, st, payload)
    ensures !Overflows(codec, lim, solo, payload)
    ensures SameFor(CommandStore(codec, lim, st, payload), CommandStore(codec, lim, solo, payload), id)
  {
    assert Remembered(st.meta, payload) == Remembered(solo.meta, payload);
    var bytes := Payload(codec, payload);
    if !IsPlacement(payload) && bytes.Some? {
      SoloFits(lim, st, solo, id, bytes.value);
      OwnAbsorbed(lim, Noted(st, payload), Noted(solo, payload), id, bytes.value, MoreFollows(payload));
    }
  }

  lemma OwnAbsorbed(lim: Limits, st: Store, solo: Store, id: string, bytes: Bytes, more: bool)
    requires SameFor(st, solo, id)
    requires Total(Extended(st.parts, id, bytes)) <= lim.maxPending && Total(Extended(solo.parts, id, bytes)) <= lim.maxPending
    ensures SameFor(AbsorbStore(lim, st, id, bytes, more), AbsorbStore(lim, solo, id, bytes, more), id)
  {
  }

  lemma SoloFits(lim: Limits, st: Store, solo: Store, id: string, bytes: Bytes)
    requires SameFor(st, solo, id) && Total(Extended(st.parts, id, bytes)) <= lim.maxPending
    ensures Total(Extended(solo.parts, id, bytes)) <= lim.maxPending
  {
    TotalRemove(Extended(st.parts, id, bytes), id);
    SoloTotal(Extended(solo.parts, id, bytes), id);
  }

  /** ... and gives the same. */
  lemma OwnOut(codec: Codec, lim: Limits, st: Store, solo: Store, payload: string, id: string)
    requires SameFor(st, solo, id) && IdOf(payload) == id
    requires !Overflows(codec, lim, st, payload) && !Overflows(codec, lim, solo, payload)
    ensures CommandOut(codec, lim, solo, payload) == CommandOut(codec, lim, st, payload)
  {
    assert Remembered(st.meta, payload) == Remembered(solo.meta, payload);
  }

  lemma {:induction false} DemuxRun(codec: Codec, lim: Limits, payloads: seq<string>, id: string)
    requires NoLimitHit(Outs(codec, lim, payloads))
    ensures SameFor(StoreAfter(codec, lim, payloads), StoreAfter(codec, lim, Only(payloads, id)), id)
    ensures OutsOf(payloads, Outs(codec, lim, payloads), id) == Outs(codec, lim, Only(payloads, id))
    decreases |payloads|
  {
    if payloads != [] {
      var n := |payloads| - 1;
      var outs := Outs(codec, lim, payloads);
      assert outs == Outs(codec, lim, payloads[..n]) + [outs[n]];
      assert outs[..n] == Outs(codec, lim, payloads[..n]);
      DemuxRun(codec, lim, payloads[..n], id);
      var st, solo := StoreAfter(codec, lim, payloads[..n]), StoreAfter(codec, lim, Only(payloads[..n], id));
      OverflowIsIssue(codec, lim, st, payloads[n]);
      if IdOf(payloads[n]) == id {
        OwnCommand(codec, lim, st, solo, payloads[n], id);
        OwnOut(codec, lim, st, solo, payloads[n], id);
        var own := Only(payloads, id);
        assert own[..|own| - 1] == Only(payloads[..n], id);
      } else {
        OtherCommand(codec, lim, st, solo, payloads[n], id);
        assert Only(payloads, id) == Only(payloads[..n], id);
      }
    }
  }

  /** Interleaved images do not mix: while the pending limit is not hit, the frames and issues of each
      image are those of its own commands run alone. */
  lemma InterleavedImagesDoNotMix(codec: Codec, lim: Limits, payloads: seq<string>, id: string)
    requires NoLimitHit(Outs(codec, lim, payloads))
    ensures OutsOf(payloads, Outs(codec, lim, payloads), id) == Outs(codec, lim, Only(payloads, id))
  {
    DemuxRun(codec, lim, payloads, id);
  }

  /** How one command changes the joined chunks of an image. */
  function Joined(codec: Codec, before: Bytes, payload: string, id: string): Bytes {
    if IdOf(payload) != id || IsPlacement(payload) || Payload(codec, payload).None? then before
    else if MoreFollows(payload) then before + Payload(codec, payload).value
    else []
  }

  /** The decoded chunks of an image since it was last completed, joined. */
  function Pieces(codec: Codec, payloads: seq<string>, id: string): Bytes {
    if payloads == [] then []
    else
      var n := |payloads| - 1;
      Joined(codec, Pieces(codec, payloads[..n], id), payloads[n], id)
  }

  lemma CommandJoins(codec: Codec, lim: Limits, st: Store, payload: string, id: string)
    requires !Overflows(codec, lim, st, payload)
    ensures Part(CommandStore(codec, lim, st, payload).parts, id) == Joined(codec, Part(st.parts, id), payload, id)
  {
    var bytes := Payload(codec, payload);
    if !IsPlacement(payload) && bytes.Some? {
      AbsorbJoins(lim, Noted(st, payload), IdOf(payload), bytes.value, MoreFollows(payload), id);
    }
  }

  lemma AbsorbJoins(lim: Limits, st: Store, key: string, bytes: Bytes, more: bool, id: string)
    requires Total(Extended(st.parts, key, bytes)) <= lim.maxPending
    ensures Part(AbsorbStore(lim, st, key, bytes, more).parts, id)
      == if key != id then Part(st.parts, id) else if more then Part(st.parts, id) + bytes else []
  {
  }

  /** The buffer of an image is always exactly its chunks since the last completion. */
  lemma {:induction false} BufferIsPieces(codec: Codec, lim: Limits, payloads: seq<string>, id: string)
    requires NoLimitHit(Outs(codec, lim, payloads))
    ensures Part(StoreAfter(codec, lim, payloads).parts, id) == Pieces(codec, payloads, id)
    decreases |payloads|
  {
    if payloads != [] {
      var n := |payloads| - 1;
      var outs := Outs(codec, lim, payloads);
      assert outs == Outs(codec, lim, payloads[..n]) + [outs[n]];
      assert outs[n] in outs;
      BufferIsPieces(codec, lim, payloads[..n], id);
      OverflowIsIssue(codec, lim, StoreAfter(codec, lim, payloads[..n]), payloads[n]);
      CommandJoins(codec, lim, StoreAfter(codec, lim, payloads[..n]), payloads[n], id);
    }
  }

  /** A completing command emits exactly the joined chunks when the image is in the PNG format and
      within the size limit. */
  lemma CompletedFrameIsPieces(codec: Codec, lim: Limits, payloads: seq<string>, last: string)
    requires NoLimitHit(Outs(codec, lim, payloads + [last]))
    requires !IsPlacement(last) && Payload(codec, last).Some? && !MoreFollows(last)
    requires var st := StoreAfter(codec, lim, payloads); Get(Remembered(st.meta, last), "f", "100") !in {"24", "32"}
    ensures var data := Pieces(codec, payloads, IdOf(last)) + Payload(codec, last).value;
      Outs(codec, lim, payloads + [last])[|payloads|]
        == if |data| > lim.maxBytes then Out(None, Some(TooLarge)) else Out(Some(Frame(data, None, None)), None)
  {
    var all, n := payloads + [last], |payloads|;
    assert all[..n] == payloads && all[n] == last;
    var outs := Outs(codec, lim, all);
    assert outs == Outs(codec, lim, payloads) + [outs[n]];
    assert outs[n] in outs;
    BufferIsPieces(codec, lim, payloads, IdOf(last));
  }
}
