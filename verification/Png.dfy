// 8-bit RGBA PNG images: row filters (section 6 of RFC 2083), chunk layout (section 3.2 of RFC 2083),
// the writer of the compositor and of the pet renderer.

module Png {
  import opened Text

  type Byte = x: int | 0 <= x < 256
  type Bytes = seq<Byte>

  // ---- row filters, section 6 of RFC 2083, four bytes per pixel ----

  function Abs(x: int): int {
    if x < 0 then -x else x
  }

  /** The Paeth predictor, section 6.6 of RFC 2083. */
  function Paeth(a: Byte, b: Byte, c: Byte): Byte {
    var p := a + b - c;
    var pa, pb, pc := Abs(p - a), Abs(p - b), Abs(p - c);
    if pa <= pb && pa <= pc then a else if pb <= pc then b else c
  }

  /** What filter type `f` adds to a residual, from the bytes to the left (a), above (b) and above-left (c). */
  function Predict(f: Byte, a: Byte, b: Byte, c: Byte): Byte
    requires f <= 4
  {
    if f == 0 then 0 else if f == 1 then a else if f == 2 then b else if f == 3 then (a + b) / 2 else Paeth(a, b, c)
  }

  /** The first `n` bytes of a row, rebuilt left to right from the residuals and the row above. */
  function UnfilterRow(f: Byte, line: Bytes, prior: Bytes, n: nat): (row: Bytes)
    requires f <= 4 && n <= |line| == |prior|
    ensures |row| == n
  {
    if n == 0 then []
    else
      var row := UnfilterRow(f, line, prior, n - 1);
      var a := if n > 4 then row[n - 5] else 0;
      var c := if n > 4 then prior[n - 5] else 0;
      row + [(line[n - 1] + Predict(f, a, prior[n - 1], c)) % 256]
  }

  /** The bytes of `h` rows of one filter byte and `w` pixels: h * (4w + 1). */
  function RowBytes(w: nat, h: nat): nat {
    if h == 0 then 0 else 4 * w + 1 + RowBytes(w, h - 1)
  }

  lemma {:induction false} RowBytesIsProduct(w: nat, h: nat)
    ensures RowBytes(w, h) == h * (4 * w + 1)
  {
    if h > 0 {
      RowBytesIsProduct(w, h - 1);
    }
  }

  predicate Holds(raw: Bytes, w: nat, h: nat) {
    |raw| >= RowBytes(w, h)
  }

  predicate ValidFilters(raw: Bytes, w: nat, h: nat)
    requires Holds(raw, w, h)
    decreases h
  {
    h == 0 || (raw[0] <= 4 && ValidFilters(raw[4 * w + 1..], w, h - 1))
  }

  /** The rows of the image; `prior` is the row above the first one. */
  function UnfilterFrom(raw: Bytes, w: nat, h: nat, prior: Bytes): (rows: seq<Bytes>)
    requires Holds(raw, w, h) && ValidFilters(raw, w, h) && |prior| == 4 * w
    ensures |rows| == h && forall row :: row in rows ==> |row| == 4 * w
    decreases h
  {
    if h == 0 then []
    else
      var row := UnfilterRow(raw[0], raw[1..4 * w + 1], prior, 4 * w);
      [row] + UnfilterFrom(raw[4 * w + 1..], w, h - 1, row)
  }

  function Zeros(n: nat): Bytes {
    seq(n, _ => 0)
  }

  /** The whole image, the row above it being zero. */
  function Unfilter(raw: Bytes, w: nat, h: nat): (rows: seq<Bytes>)
    requires Holds(raw, w, h) && ValidFilters(raw, w, h)
    ensures |rows| == h && forall row :: row in rows ==> |row| == 4 * w
  {
    UnfilterFrom(raw, w, h, Zeros(4 * w))
  }

  /** Some pixel of the image is not fully transparent. */
  predicate SomeAlpha(rows: seq<Bytes>) {
    exists r, k :: 0 <= r < |rows| && 0 <= k < |rows[r]| && k % 4 == 3 && rows[r][k] != 0
  }

  // ---- unfiltered rows ----

  /** Rows written with filter type 0. */
  function Interleave(lines: seq<Bytes>): Bytes {
    if lines == [] then [] else [0] + lines[0] + Interleave(lines[1..])
  }

  lemma {:induction false} InterleaveAppend(lines: seq<Bytes>, line: Bytes)
    ensures Interleave(lines + [line]) == Interleave(lines) + [0] + line
    decreases |lines|
  {
    if lines == [] {
      assert lines + [line] == [line];
    } else {
      InterleaveAppend(lines[1..], line);
      assert (lines + [line])[1..] == lines[1..] + [line];
    }
  }

  lemma {:induction false} UnfilterRowNone(line: Bytes, prior: Bytes, n: nat)
    requires n <= |line| == |prior|
    ensures UnfilterRow(0, line, prior, n) == line[..n]
  {
    if n > 0 {
      UnfilterRowNone(line, prior, n - 1);
      assert line[..n] == line[..n - 1] + [line[n - 1]];
    }
  }

  predicate AllWide(lines: seq<Bytes>, n: nat) {
    forall line :: line in lines ==> |line| == n
  }

  lemma {:induction false} InterleaveLength(lines: seq<Bytes>, w: nat)
    requires AllWide(lines, 4 * w)
    ensures |Interleave(lines)| == RowBytes(w, |lines|)
    decreases |lines|
  {
    if lines != [] {
      InterleaveLength(lines[1..], w);
    }
  }

  lemma InterleaveTail(lines: seq<Bytes>, w: nat)
    requires lines != [] && AllWide(lines, 4 * w)
    ensures var raw := Interleave(lines);
      && |raw| >= 4 * w + 1 && raw[0] == 0 && raw[1..4 * w + 1] == lines[0] && raw[4 * w + 1..] == Interleave(lines[1..])
  {
    var first, rest := lines[0], Interleave(lines[1..]);
    assert Interleave(lines) == [0] + first + rest;
    assert |first| == 4 * w;
  }

  /** `raw` is a filtered image of `h` rows, and its rows are `lines`. */
  predicate DecodesTo(raw: Bytes, w: nat, h: nat, prior: Bytes, lines: seq<Bytes>)
    requires |prior| == 4 * w
  {
    Holds(raw, w, h) && ValidFilters(raw, w, h) && UnfilterFrom(raw, w, h, prior) == lines
  }

  lemma DecodesStep(raw: Bytes, w: nat, h: nat, prior: Bytes, line: Bytes, rest: seq<Bytes>)
    requires h > 0 && |raw| >= 4 * w + 1 && |prior| == |line| == 4 * w
    requires raw[0] == 0 && raw[1..4 * w + 1] == line
    requires DecodesTo(raw[4 * w + 1..], w, h - 1, line, rest)
    ensures DecodesTo(raw, w, h, prior, [line] + rest)
  {
    UnfilterRowNone(line, prior, 4 * w);
    assert line[..4 * w] == line;
  }

  /** Decoding rows written with filter type 0 gives them back. */
  lemma {:induction false} UnfilterInterleave(lines: seq<Bytes>, w: nat, prior: Bytes)
    requires AllWide(lines, 4 * w) && |prior| == 4 * w
    ensures DecodesTo(Interleave(lines), w, |lines|, prior, lines)
    decreases |lines|
  {
    if lines == [] {
    } else {
      var first, rest := lines[0], lines[1..];
      assert lines == [first] + rest;
      InterleaveTail(lines, w);
      UnfilterInterleave(rest, w, first);
      DecodesStep(Interleave(lines), w, |lines|, prior, first, rest);
    }
  }

  // ---- chunks, section 3.2 of RFC 2083 ----

  const LIMIT := 0x1_0000_0000

  /** The last `k` base-256 digits of a number, most significant first. */
  function BigEndian(n: nat, k: nat): (b: Bytes)
    ensures |b| == k
    decreases k
  {
    if k == 0 then [] else BigEndian(n / 256, k - 1) + [n % 256]
  }

  function ReadBigEndian(b: Bytes): nat {
    if b == [] then 0 else ReadBigEndian(b[..|b| - 1]) * 256 + b[|b| - 1]
  }

  function Power256(k: nat): nat {
    if k == 0 then 1 else 256 * Power256(k - 1)
  }

  lemma {:induction false} BigEndianReads(n: nat, k: nat)
    requires n < Power256(k)
    ensures ReadBigEndian(BigEndian(n, k)) == n
    decreases k
  {
    if k > 0 {
      BigEndianReads(n / 256, k - 1);
      var b := BigEndian(n, k);
      assert b[..k - 1] == BigEndian(n / 256, k - 1);
    }
  }

  function Be32(n: nat): (b: Bytes)
    requires n < LIMIT
    ensures |b| == 4
  {
    BigEndian(n, 4)
  }

  function ReadBe32(b: Bytes): nat
    requires |b| == 4
  {
    ReadBigEndian(b)
  }

  lemma ReadBe32Be32(n: nat)
    requires n < LIMIT
    ensures ReadBe32(Be32(n)) == n
  {
    assert Power256(4) == LIMIT;
    BigEndianReads(n, 4);
  }

  const SIGNATURE: Bytes := [0x89, 0x50, 0x4E, 0x47, 0x0D, 0x0A, 0x1A, 0x0A]
  const IHDR: Bytes := [0x49, 0x48, 0x44, 0x52]
  const IDAT: Bytes := [0x49, 0x44, 0x41, 0x54]
  const IEND: Bytes := [0x49, 0x45, 0x4E, 0x44]

  /** Length, type, data and check value; `crc` stands for `zlib.crc32`, 32 bits wide. */
  function Chunk(kind: Bytes, payload: Bytes, crc: Bytes -> nat): (b: Bytes)
    requires |kind| == 4 && |payload| < LIMIT
    ensures |b| == 12 + |payload|
  {
    Be32(|payload|) + kind + payload + Be32(crc(kind + payload) % LIMIT)
  }

  /** `_png_rgba`. None is the `struct.error` of a number that does not fit 32 bits. */
  function PngRgba(width: nat, height: nat, scanlines: Bytes, deflate: Bytes -> Bytes, crc: Bytes -> nat): Option<Bytes> {
    var body := deflate(scanlines);
    if width >= LIMIT || height >= LIMIT || |body| >= LIMIT then None
    else
      var header := Header(width, height);
      Some(SIGNATURE + Chunk(IHDR, header, crc) + Chunk(IDAT, body, crc) + Chunk(IEND, [], crc))
  }

  /** `data[lo:hi]` with both ends clipped to the data. */
  function Clip(data: Bytes, lo: nat, hi: nat): Bytes {
    if lo >= |data| || hi <= lo then [] else if hi > |data| then data[lo..] else data[lo..hi]
  }

  /** What the chunk walk collects from data that begins with a chunk: the contents of the IDAT chunks. */
  function IdatOf(data: Bytes): Bytes
    decreases |data|
  {
    if |data| < 12 then [] else IdatPiece(data) + IdatOf(Behind(data, ChunkSize(data)))
  }

  /** The size of the first chunk, by the length it gives. */
  function ChunkSize(data: Bytes): (size: nat)
    requires |data| >= 12
    ensures size >= 12
  {
    ReadBe32(data[0..4]) + 12
  }

  function IdatPiece(data: Bytes): Bytes
    requires |data| >= 12
  {
    if data[4..8] == IDAT then Clip(data, 8, ChunkSize(data) - 4) else []
  }

  lemma SliceMiddle(before: Bytes, middle: Bytes, after: Bytes, i: nat, j: nat)
    requires i <= j <= |middle|
    ensures (before + middle + after)[|before| + i..|before| + j] == middle[i..j]
  {
  }

  lemma ChunkFields(kind: Bytes, payload: Bytes, crc: Bytes -> nat)
    requires |kind| == 4 && |payload| < LIMIT
    ensures var chunk := Chunk(kind, payload, crc);
      chunk[0..4] == Be32(|payload|) && chunk[4..8] == kind && chunk[8..8 + |payload|] == payload
  {
  }

  function Header(width: nat, height: nat): Bytes
    requires width < LIMIT && height < LIMIT
  {
    Be32(width) + Be32(height) + [8, 6, 0, 0, 0]
  }

  /** The walk collects `piece` from the chunk and goes on behind it. */
  ghost predicate Gives(chunk: Bytes, piece: Bytes) {
    forall after: Bytes :: IdatOf(chunk + after) == piece + IdatOf(after)
  }

  /** Walking over one written chunk. */
  lemma ChunkGives(kind: Bytes, payload: Bytes, crc: Bytes -> nat, piece: Bytes)
    requires |kind| == 4 && |payload| < LIMIT && piece == if kind == IDAT then payload else []
    ensures Gives(Chunk(kind, payload, crc), piece)
  {
    var chunk := Chunk(kind, payload, crc);
    ChunkFields(kind, payload, crc);
    ReadBe32Be32(|payload|);
    forall after: Bytes ensures IdatOf(chunk + after) == piece + IdatOf(after) {
      ChunkInFront(chunk, after, kind, payload);
    }
  }

  lemma ChunkInFront(chunk: Bytes, after: Bytes, kind: Bytes, payload: Bytes)
    requires |chunk| == |payload| + 12 && ReadBe32(chunk[0..4]) == |payload|
    requires chunk[4..8] == kind && chunk[8..8 + |payload|] == payload
    ensures IdatOf(chunk + after) == (if kind == IDAT then payload else []) + IdatOf(after)
  {
    var data := chunk + after;
    assert data[0..4] == chunk[0..4] && data[4..8] == chunk[4..8];
    assert data[8..8 + |payload|] == chunk[8..8 + |payload|];
    assert data[|chunk|..] == after;
    PieceOf(data, kind, payload);
  }

  lemma PieceOf(data: Bytes, kind: Bytes, payload: Bytes)
    requires |data| >= |payload| + 12 && ReadBe32(data[0..4]) == |payload|
    requires data[4..8] == kind && data[8..8 + |payload|] == payload
    ensures IdatPiece(data) == if kind == IDAT then payload else []
  {
  }

  /** Chunks by type and payload, as a file holds them. */
  function Chunks(parts: seq<(Bytes, Bytes)>, crc: Bytes -> nat): Bytes
    requires forall p :: p in parts ==> |p.0| == 4 && |p.1| < LIMIT
  {
    if parts == [] then [] else Chunk(parts[0].0, parts[0].1, crc) + Chunks(parts[1..], crc)
  }

  /** The payloads of the IDAT chunks, in order. */
  function ImageData(parts: seq<(Bytes, Bytes)>): Bytes {
    if parts == [] then [] else (if parts[0].0 == IDAT then parts[0].1 else []) + ImageData(parts[1..])
  }

  lemma WalkOne(chunk: Bytes, piece: Bytes, tail: Bytes, rest: Bytes)
    requires Gives(chunk, piece)
    ensures IdatOf((chunk + tail) + rest) == piece + IdatOf(tail + rest)
  {
    assert (chunk + tail) + rest == chunk + (tail + rest);
  }

  /** The walk over any chunks collects exactly the image data; fewer than twelve bytes behind them do not matter. */
  lemma {:induction false} WalkCollects(parts: seq<(Bytes, Bytes)>, crc: Bytes -> nat, rest: Bytes)
    requires forall p :: p in parts ==> |p.0| == 4 && |p.1| < LIMIT
    requires |rest| < 12
    ensures IdatOf(Chunks(parts, crc) + rest) == ImageData(parts)
    decreases |parts|
  {
    if parts == [] {
      assert [] + rest == rest;
    } else {
      var p, tail := parts[0], Chunks(parts[1..], crc);
      WalkCollects(parts[1..], crc, rest);
      ChunkGives(p.0, p.1, crc, if p.0 == IDAT then p.1 else []);
      WalkOne(Chunk(p.0, p.1, crc), if p.0 == IDAT then p.1 else [], tail, rest);
    }
  }

  /** Walking over three chunks. */
  lemma WalkThree(c1: Bytes, c2: Bytes, c3: Bytes, p1: Bytes, p2: Bytes, p3: Bytes)
    requires Gives(c1, p1) && Gives(c2, p2) && Gives(c3, p3)
    ensures IdatOf(c1 + (c2 + (c3 + []))) == p1 + (p2 + (p3 + []))
  {
    assert IdatOf(c1 + (c2 + (c3 + []))) == p1 + IdatOf(c2 + (c3 + []));
  }

  lemma OtherKinds()
    ensures IHDR != IDAT && IEND != IDAT
  {
    assert IHDR[1] != IDAT[1] && IEND[1] != IDAT[1];
  }

  lemma WalkThreeChunks(c1: Bytes, c2: Bytes, c3: Bytes, header: Bytes, body: Bytes, crc: Bytes -> nat)
    requires |header| < LIMIT && |body| < LIMIT
    requires c1 == Chunk(IHDR, header, crc) && c2 == Chunk(IDAT, body, crc) && c3 == Chunk(IEND, [], crc)
    ensures IdatOf(c1 + (c2 + (c3 + []))) == body
  {
    OtherKinds();
    ChunkGives(IHDR, header, crc, []);
    ChunkGives(IDAT, body, crc, body);
    ChunkGives(IEND, [], crc, []);
    WalkThree(c1, c2, c3, [], body, []);
    assert [] + (body + ([] + [])) == body;
  }

  lemma Regrouped(sig: Bytes, c1: Bytes, c2: Bytes, c3: Bytes)
    ensures (sig + c1 + c2 + c3)[|sig|..] == c1 + (c2 + (c3 + []))
  {
  }

  /** The walk over a written image recovers exactly the compressed scanlines, and the header its size. */
  lemma WalkWritten(width: nat, height: nat, scanlines: Bytes, deflate: Bytes -> Bytes, crc: Bytes -> nat)
    requires PngRgba(width, height, scanlines, deflate, crc).Some?
    ensures var data := PngRgba(width, height, scanlines, deflate, crc).value;
      && |data| >= 26 && data[..8] == SIGNATURE
      && IdatOf(data[8..]) == deflate(scanlines)
      && ReadBe32(data[16..20]) == width && ReadBe32(data[20..24]) == height
      && data[24] == 8 && data[25] == 6
  {
    var body, header := deflate(scanlines), Header(width, height);
    var c1, c2, c3 := Chunk(IHDR, header, crc), Chunk(IDAT, body, crc), Chunk(IEND, [], crc);
    WalkThreeChunks(c1, c2, c3, header, body, crc);
    Regrouped(SIGNATURE, c1, c2, c3);
    WrittenHeader(width, height, c1, c2, c3, header, crc);
  }

  lemma WrittenHeader(width: nat, height: nat, c1: Bytes, c2: Bytes, c3: Bytes, header: Bytes, crc: Bytes -> nat)
    requires width < LIMIT && height < LIMIT && header == Header(width, height) && c1 == Chunk(IHDR, header, crc)
    ensures var data := SIGNATURE + c1 + c2 + c3;
      && |data| >= 33 && data[..8] == SIGNATURE
      && ReadBe32(data[16..20]) == width && ReadBe32(data[20..24]) == height && data[24] == 8 && data[25] == 6
  {
    ChunkFields(IHDR, header, crc);
    HeaderFields(SIGNATURE, c1, c2 + c3, header);
    assert SIGNATURE + c1 + c2 + c3 == SIGNATURE + c1 + (c2 + c3);
    HeaderReads(width, height);
  }

  lemma HeaderReads(width: nat, height: nat)
    requires width < LIMIT && height < LIMIT
    ensures var header := Header(width, height);
      && ReadBe32(header[0..4]) == width && ReadBe32(header[4..8]) == height && header[8] == 8 && header[9] == 6
  {
    var header := Header(width, height);
    assert header[0..4] == Be32(width) && header[4..8] == Be32(height);
    ReadBe32Be32(width);
    ReadBe32Be32(height);
  }

  lemma HeaderFields(sig: Bytes, c1: Bytes, rest: Bytes, header: Bytes)
    requires |sig| == 8 && |header| == 13 && |c1| == 25 && c1[8..21] == header
    ensures var data := sig + c1 + rest;
      && data[..8] == sig && data[16..20] == header[0..4] && data[20..24] == header[4..8]
      && data[24] == header[8] && data[25] == header[9]
  {
    SliceMiddle(sig, c1, rest, 8, 12);
    SliceMiddle(sig, c1, rest, 12, 16);
    assert c1[8..21][0..4] == c1[8..12] && c1[8..21][4..8] == c1[12..16];
    assert c1[8..21][8] == c1[16] && c1[8..21][9] == c1[17];
  }
}
