// Rejecting blank animation frames from their filtered residuals, and drawing catalog sprites.

module PetRenderer {
  import opened Text
  import opened Png

  // ---- _png_has_visible_alpha ----

  /** Some alpha residual of the row that starts at `cursor` is not zero. */
  predicate RowResidual(raw: Bytes, cursor: nat, w: nat)
    requires cursor + 4 * w <= |raw|
  {
    exists j :: 0 <= j < w && raw[cursor + 3 + 4 * j] != 0
  }

  predicate SomeResidual(raw: Bytes, w: nat, h: nat)
    requires Holds(raw, w, h)
    decreases h
  {
    h > 0 && (RowResidual(raw, 1, w) || SomeResidual(raw[4 * w + 1..], w, h - 1))
  }

  /** The answer of the fast check; `inflate` stands for `zlib.decompress`, None for its error. */
  predicate FastVisible(data: Bytes, inflate: Bytes -> Option<Bytes>) {
    if |data| < 26 || data[..8] != SIGNATURE then true
    else
      var w, h := ReadBe32(data[16..20]), ReadBe32(data[20..24]);
      if data[24] != 8 || data[25] != 6 then true
      else match inflate(IdatOf(data[8..]))
        case None => true
        case Some(raw) => !Holds(raw, w, h) || SomeResidual(raw, w, h)
  }

  method HasVisibleAlpha(data: Bytes, inflate: Bytes -> Option<Bytes>) returns (visible: bool)
    ensures visible == FastVisible(data, inflate)
  {
    if |data| < 26 || data[..8] != SIGNATURE {
      return true;
    }
    var width, height := ReadBe32(data[16..20]), ReadBe32(data[20..24]);
    if data[24] != 8 || data[25] != 6 {
      return true;
    }
    var idat := IdatLoop(data);
    var raw := inflate(idat);
    if raw.None? {
      return true;
    }
    visible := ResidualLoop(raw.value, width, height);
  }

  /** The walk over the chunks. */
  method IdatLoop(data: Bytes) returns (idat: Bytes)
    requires |data| >= 8
    ensures idat == IdatOf(data[8..])
  {
    idat := [];
    var offset := 8;
    while offset + 12 <= |data|
      invariant IdatOf(data[8..]) == idat + IdatOf(Behind(data, offset))
      decreases |data| - offset
    {
      var size := ReadBe32(data[offset..offset + 4]);
      OneChunk(data, idat, offset, size);
      idat := AppendData(data, idat, offset, size);
      offset := offset + size + 12;
    }
    assert idat + [] == idat;
  }

  /** The data of the chunk at `offset`, if it is an IDAT chunk. */
  method AppendData(data: Bytes, start: Bytes, offset: nat, size: nat) returns (idat: Bytes)
    requires offset + 12 <= |data| && size == ReadBe32(data[offset..offset + 4])
    ensures idat == start + IdatPiece(Behind(data, offset))
  {
    ChunkOf(data, offset, size, Behind(data, offset));
    idat := start;
    if data[offset + 4..offset + 8] == IDAT {
      idat := idat + Clip(data, offset + 8, offset + 8 + size);
    }
  }

  lemma OneChunk(data: Bytes, idat: Bytes, offset: nat, size: nat)
    requires offset + 12 <= |data| && size == ReadBe32(data[offset..offset + 4])
    ensures idat + IdatOf(Behind(data, offset)) == (idat + IdatPiece(Behind(data, offset))) + IdatOf(Behind(data, offset + size + 12))
  {
    var rest := Behind(data, offset);
    ChunkOf(data, offset, size, rest);
    Regrouped(idat, IdatPiece(rest), IdatOf(Behind(data, offset + size + 12)));
  }

  /** The chunk at `offset`, seen from there. */
  lemma ChunkOf(data: Bytes, offset: nat, size: nat, rest: Bytes)
    requires offset + 12 <= |data| && size == ReadBe32(data[offset..offset + 4]) && rest == data[offset..]
    ensures ChunkSize(rest) == size + 12 && Behind(rest, size + 12) == Behind(data, offset + size + 12)
    ensures IdatPiece(rest) == if data[offset + 4..offset + 8] == IDAT then Clip(data, offset + 8, offset + 8 + size) else []
  {
    assert rest[0..4] == data[offset..offset + 4] && rest[4..8] == data[offset + 4..offset + 8];
    assert Clip(rest, 8, 8 + size) == Clip(data, offset + 8, offset + 8 + size);
  }

  lemma Regrouped(a: Bytes, b: Bytes, c: Bytes)
    ensures a + (b + c) == (a + b) + c
  {
  }

  method ResidualLoop(raw: Bytes, width: nat, height: nat) returns (visible: bool)
    ensures visible == (!Holds(raw, width, height) || SomeResidual(raw, width, height))
  {
    var stride := width * 4;
    RowBytesIsProduct(width, height);
    if |raw| < height * (stride + 1) {
      return true;
    }
    var cursor: nat, row: nat := 0, 0;
    while row < height
      invariant row <= height && cursor <= |raw|
      invariant Holds(raw[cursor..], width, height - row)
      invariant SomeResidual(raw, width, height) == SomeResidual(raw[cursor..], width, height - row)
    {
      NextRow(raw, cursor, width, height - row);
      cursor := cursor + 1;
      if RowResidual(raw, cursor, width) {
        return true;
      }
      cursor := cursor + stride;
      row := row + 1;
    }
    visible := false;
  }

  lemma NextRow(raw: Bytes, cursor: nat, w: nat, h: nat)
    requires cursor <= |raw| && h > 0 && Holds(raw[cursor..], w, h)
    ensures cursor + 1 + 4 * w <= |raw| && Holds(raw[cursor + 1 + 4 * w..], w, h - 1)
    ensures SomeResidual(raw[cursor..], w, h) <==> RowResidual(raw, cursor + 1, w) || SomeResidual(raw[cursor + 1 + 4 * w..], w, h - 1)
  {
    RowInSuffix(raw, cursor, w);
  }

  lemma RowInSuffix(raw: Bytes, cursor: nat, w: nat)
    requires cursor + 4 * w + 1 <= |raw|
    ensures RowResidual(raw, cursor + 1, w) == RowResidual(raw[cursor..], 1, w)
    ensures raw[cursor..][4 * w + 1..] == raw[cursor + 4 * w + 1..]
  {
    assert forall j :: 0 <= j < w ==> raw[cursor..][4 + 4 * j] == raw[cursor + 4 + 4 * j];
  }

  // ---- why the residuals are enough ----

  predicate AlphaZero(line: Bytes) {
    forall k :: 0 <= k < |line| && k % 4 == 3 ==> line[k] == 0
  }

  /** Below a row of zero alphas, the alphas of a row stay zero exactly as long as the residuals do. */
  lemma {:induction false} AlphaFollowsResidual(f: Byte, line: Bytes, prior: Bytes, n: nat)
    requires f <= 4 && n <= |line| == |prior| && AlphaZero(prior)
    ensures AlphaZero(UnfilterRow(f, line, prior, n)) <==> AlphaZero(line[..n])
  {
    if n > 0 {
      AlphaFollowsResidual(f, line, prior, n - 1);
      var row, b := UnfilterRow(f, line, prior, n - 1), UnfilterRow(f, line, prior, n)[n - 1];
      assert line[..n] == line[..n - 1] + [line[n - 1]];
      assert UnfilterRow(f, line, prior, n) == row + [b];
      AlphaZeroAppend(row, b);
      AlphaZeroAppend(line[..n - 1], line[n - 1]);
      if n % 4 == 0 && AlphaZero(row) {
        AlphaByteKept(f, line, prior, n, row);
      }
    }
  }

  /** Between zero alphas an alpha residual is the alpha itself, whatever the filter. */
  lemma AlphaByteKept(f: Byte, line: Bytes, prior: Bytes, n: nat, row: Bytes)
    requires f <= 4 && 0 < n <= |line| == |prior| && n % 4 == 0 && AlphaZero(prior)
    requires row == UnfilterRow(f, line, prior, n - 1) && AlphaZero(row)
    ensures UnfilterRow(f, line, prior, n)[n - 1] == line[n - 1]
  {
    assert (n - 1) % 4 == 3 && prior[n - 1] == 0;
    if n > 4 {
      assert (n - 5) % 4 == 3 && row[n - 5] == 0 && prior[n - 5] == 0;
    }
    assert Predict(f, 0, 0, 0) == 0;
  }

  lemma AlphaZeroAppend(line: Bytes, b: Byte)
    ensures AlphaZero(line + [b]) <==> AlphaZero(line) && (|line| % 4 == 3 ==> b == 0)
  {
    if AlphaZero(line + [b]) {
      assert forall k :: 0 <= k < |line| ==> (line + [b])[k] == line[k];
      assert (line + [b])[|line|] == b;
    }
  }

  lemma RowResidualIsAlpha(raw: Bytes, w: nat)
    requires 4 * w + 1 <= |raw|
    ensures RowResidual(raw, 1, w) <==> !AlphaZero(raw[1..4 * w + 1])
  {
    var line := raw[1..4 * w + 1];
    if !AlphaZero(line) {
      var k :| 0 <= k < |line| && k % 4 == 3 && line[k] != 0;
      var j := (k - 3) / 4;
      assert k == 3 + 4 * j;
      assert raw[1 + 3 + 4 * j] != 0;
    }
    if RowResidual(raw, 1, w) {
      var j :| 0 <= j < w && raw[1 + 3 + 4 * j] != 0;
      assert line[3 + 4 * j] != 0 && (3 + 4 * j) % 4 == 3;
    }
  }

  predicate AlphaZeroRows(rows: seq<Bytes>) {
    forall r :: 0 <= r < |rows| ==> AlphaZero(rows[r])
  }

  lemma {:induction false} RowsFollowResiduals(raw: Bytes, w: nat, h: nat, prior: Bytes)
    requires Holds(raw, w, h) && ValidFilters(raw, w, h) && |prior| == 4 * w && AlphaZero(prior)
    ensures SomeResidual(raw, w, h) <==> !AlphaZeroRows(UnfilterFrom(raw, w, h, prior))
    decreases h
  {
    if h > 0 {
      var line := raw[1..4 * w + 1];
      var row := UnfilterRow(raw[0], line, prior, 4 * w);
      AlphaFollowsResidual(raw[0], line, prior, 4 * w);
      assert line[..4 * w] == line;
      RowResidualIsAlpha(raw, w);
      AlphaZeroRowsSplit(row, UnfilterFrom(raw[4 * w + 1..], w, h - 1, row));
      if AlphaZero(row) {
        RowsFollowResiduals(raw[4 * w + 1..], w, h - 1, row);
      }
    }
  }

  lemma AlphaZeroRowsSplit(row: Bytes, rest: seq<Bytes>)
    ensures AlphaZeroRows([row] + rest) <==> AlphaZero(row) && AlphaZeroRows(rest)
  {
    var rows := [row] + rest;
    assert rows[0] == row;
    assert forall r :: 0 <= r < |rest| ==> rest[r] == rows[r + 1];
    assert forall r :: 1 <= r < |rows| ==> rows[r] == rest[r - 1];
  }

  /** The fast check answers true exactly when some pixel of the fully decoded image has alpha. */
  lemma ResidualCheckIsExact(raw: Bytes, w: nat, h: nat)
    requires Holds(raw, w, h) && ValidFilters(raw, w, h)
    ensures SomeResidual(raw, w, h) <==> SomeAlpha(Unfilter(raw, w, h))
  {
    RowsFollowResiduals(raw, w, h, Zeros(4 * w));
    var rows := Unfilter(raw, w, h);
    if !AlphaZeroRows(rows) {
      var r :| 0 <= r < |rows| && !AlphaZero(rows[r]);
      var k :| 0 <= k < |rows[r]| && k % 4 == 3 && rows[r][k] != 0;
    }
  }

  /** The alpha residual of pixel (r, c), behind the filter byte of its row, is zero. */
  predicate ZeroResidual(raw: Bytes, w: nat, r: nat, c: nat) {
    var i := r * (4 * w + 1) + 1 + 4 * c + 3;
    i < |raw| && raw[i] == 0
  }

  predicate AllResidualsZero(raw: Bytes, w: nat, h: nat) {
    forall r, c :: 0 <= r < h && 0 <= c < w ==> ZeroResidual(raw, w, r, c)
  }

  lemma ResidualBelow(raw: Bytes, w: nat, r: nat, c: nat)
    requires 4 * w + 1 <= |raw|
    ensures ZeroResidual(raw[4 * w + 1..], w, r, c) <==> ZeroResidual(raw, w, r + 1, c)
  {
    assert (r + 1) * (4 * w + 1) == r * (4 * w + 1) + (4 * w + 1);
  }

  lemma FirstRowResiduals(raw: Bytes, w: nat)
    requires 4 * w + 1 <= |raw|
    ensures RowResidual(raw, 1, w) <==> exists c :: 0 <= c < w && !ZeroResidual(raw, w, 0, c)
  {
    if RowResidual(raw, 1, w) {
      var j :| 0 <= j < w && raw[1 + 3 + 4 * j] != 0;
      assert !ZeroResidual(raw, w, 0, j);
    }
    if c :| 0 <= c < w && !ZeroResidual(raw, w, 0, c) {
      assert raw[1 + 3 + 4 * c] != 0;
    }
  }

  /** The rows are searched at exactly the alpha residuals. */
  lemma {:induction false} ResidualsSearched(raw: Bytes, w: nat, h: nat)
    requires Holds(raw, w, h)
    ensures SomeResidual(raw, w, h) <==> !AllResidualsZero(raw, w, h)
    decreases h
  {
    if h > 0 {
      var rest := raw[4 * w + 1..];
      ResidualsSearched(rest, w, h - 1);
      FirstRowResiduals(raw, w);
      forall r: nat, c: nat ensures ZeroResidual(rest, w, r, c) <==> ZeroResidual(raw, w, r + 1, c) {
        ResidualBelow(raw, w, r, c);
      }
      RowsBelow(raw, rest, w, h);
    }
  }

  lemma RowsBelow(raw: Bytes, rest: Bytes, w: nat, h: nat)
    requires h > 0 && forall r: nat, c: nat :: ZeroResidual(rest, w, r, c) <==> ZeroResidual(raw, w, r + 1, c)
    ensures AllResidualsZero(raw, w, h) <==>
      AllResidualsZero(rest, w, h - 1) && forall c :: 0 <= c < w ==> ZeroResidual(raw, w, 0, c)
  {
    if AllResidualsZero(rest, w, h - 1) && forall c :: 0 <= c < w ==> ZeroResidual(raw, w, 0, c) {
      forall r, c | 0 <= r < h && 0 <= c < w ensures ZeroResidual(raw, w, r, c) {
        if r > 0 {
          assert ZeroResidual(rest, w, r - 1, c);
        }
      }
    }
    if AllResidualsZero(raw, w, h) {
      forall r, c | 0 <= r < h - 1 && 0 <= c < w ensures ZeroResidual(rest, w, r, c) {
        assert ZeroResidual(raw, w, r + 1, c);
      }
    }
  }

  /** The file can be judged: an 8-bit RGBA PNG whose image data inflates to enough bytes. */
  predicate Judged(data: Bytes, inflate: Bytes -> Option<Bytes>) {
    && |data| >= 26 && data[..8] == [0x89, 0x50, 0x4E, 0x47, 0x0D, 0x0A, 0x1A, 0x0A] && data[24] == 8 && data[25] == 6
    && inflate(IdatOf(data[8..])).Some?
    && |inflate(IdatOf(data[8..])).value| >= ReadBe32(data[20..24]) * (4 * ReadBe32(data[16..20]) + 1)
  }

  predicate Blank(data: Bytes, inflate: Bytes -> Option<Bytes>)
    requires Judged(data, inflate)
  {
    AllResidualsZero(inflate(IdatOf(data[8..])).value, ReadBe32(data[16..20]), ReadBe32(data[20..24]))
  }

  /** Only a file that can be judged, and has no alpha residual but zero, is called blank. */
  lemma BlankIff(data: Bytes, inflate: Bytes -> Option<Bytes>)
    ensures !FastVisible(data, inflate) <==> Judged(data, inflate) && Blank(data, inflate)
  {
    if |data| >= 26 && inflate(IdatOf(data[8..])).Some? {
      var raw, w, h := inflate(IdatOf(data[8..])).value, ReadBe32(data[16..20]), ReadBe32(data[20..24]);
      RowBytesIsProduct(w, h);
      if Holds(raw, w, h) {
        ResidualsSearched(raw, w, h);
      }
    }
  }

  /** An 8-bit RGBA file with this size and these filtered rows in its IDAT chunks. */
  predicate HoldsImage(data: Bytes, inflate: Bytes -> Option<Bytes>, raw: Bytes, w: nat, h: nat) {
    && |data| >= 26 && data[..8] == SIGNATURE && ReadBe32(data[16..20]) == w && ReadBe32(data[20..24]) == h
    && data[24] == 8 && data[25] == 6 && inflate(IdatOf(data[8..])) == Some(raw)
    && Holds(raw, w, h) && ValidFilters(raw, w, h)
  }

  /** Such a file is judged visible exactly when some pixel of the fully decoded image has alpha. */
  lemma FileCheckIsExact(data: Bytes, inflate: Bytes -> Option<Bytes>, raw: Bytes, w: nat, h: nat)
    requires HoldsImage(data, inflate, raw, w, h)
    ensures FastVisible(data, inflate) <==> SomeAlpha(Unfilter(raw, w, h))
  {
    ResidualCheckIsExact(raw, w, h);
  }

  /** A written image whose rows carry filter type 0 is judged visible exactly when a row has alpha. */
  lemma WrittenVisible(png: Bytes, lines: seq<Bytes>, w: nat, h: nat, deflate: Bytes -> Bytes, inflate: Bytes -> Option<Bytes>, crc: Bytes -> nat)
    requires forall b :: inflate(deflate(b)) == Some(b)
    requires AllWide(lines, 4 * w) && h == |lines|
    requires PngRgba(w, h, Interleave(lines), deflate, crc) == Some(png)
    ensures FastVisible(png, inflate) <==> SomeAlpha(lines)
  {
    var raw := Interleave(lines);
    WalkWritten(w, h, raw, deflate, crc);
    UnfilterInterleave(lines, w, Zeros(4 * w));
    ResidualCheckIsExact(raw, w, h);
  }

  // ---- PetRenderer._sprite_png ----

  datatype Rgba = Rgba(r: Byte, g: Byte, b: Byte, a: Byte)

  function MaxLen(rows: seq<string>): nat {
    if rows == [] then 0
    else var m := MaxLen(rows[1..]); if |rows[0]| > m then |rows[0]| else m
  }

  /** `row.ljust(width, ".")` */
  function Padded(row: string, width: nat): string {
    if |row| >= width then row else row + seq(width - |row|, _ => '.')
  }

  function Look(palette: map<char, Rgba>, c: char): Rgba {
    if c in palette then palette[c] else Rgba(0, 0, 0, 0)
  }

  /** Every element `n` times in a row. */
  function Stretch<T>(s: seq<T>, n: nat): seq<T> {
    if s == [] then [] else seq(n, _ => s[0]) + Stretch(s[1..], n)
  }

  lemma {:induction false} StretchAppend<T>(s: seq<T>, x: T, n: nat)
    ensures Stretch(s + [x], n) == Stretch(s, n) + seq(n, _ => x)
    decreases |s|
  {
    if s == [] {
      assert s + [x] == [x];
    } else {
      StretchAppend(s[1..], x, n);
      assert (s + [x])[1..] == s[1..] + [x];
    }
  }

  lemma {:induction false} StretchAt<T>(s: seq<T>, n: nat, i: nat, d: nat, at: nat)
    requires i < |s| && d < n && at == i * n + d
    ensures at < |Stretch(s, n)| && Stretch(s, n)[at] == s[i]
    decreases i
  {
    if i > 0 {
      assert i * n == (i - 1) * n + n;
      StretchAt(s[1..], n, i - 1, d, at - n);
    }
  }

  lemma {:induction false} StretchLen<T>(s: seq<T>, n: nat)
    ensures |Stretch(s, n)| == |s| * n
    decreases |s|
  {
    if s != [] {
      StretchLen(s[1..], n);
      assert |s| * n == (|s| - 1) * n + n;
    }
  }

  function Flatten(pixels: seq<Rgba>): (b: Bytes)
    ensures |b| == 4 * |pixels|
  {
    if pixels == [] then []
    else [pixels[0].r, pixels[0].g, pixels[0].b, pixels[0].a] + Flatten(pixels[1..])
  }

  /** Pixel `q` of a line, as four bytes. */
  predicate PixelAt(line: Bytes, q: nat, px: Rgba) {
    4 * q + 4 <= |line| && line[4 * q..4 * q + 4] == [px.r, px.g, px.b, px.a]
  }

  lemma {:induction false} FlattenAt(pixels: seq<Rgba>, i: nat)
    requires i < |pixels|
    ensures PixelAt(Flatten(pixels), i, pixels[i])
    decreases |pixels|
  {
    if i > 0 {
      FlattenAt(pixels[1..], i - 1);
      var p := pixels[0];
      SliceBehind([p.r, p.g, p.b, p.a], Flatten(pixels[1..]), 4 * (i - 1), 4 * (i - 1) + 4);
    }
  }

  /** The pixels of a sprite row before scaling. */
  function RowPixels(row: string, width: nat, palette: map<char, Rgba>): seq<Rgba> {
    var padded := Padded(row, width);
    seq(|padded|, i requires 0 <= i < |padded| => Look(palette, padded[i]))
  }

  function SpriteLine(row: string, width: nat, palette: map<char, Rgba>, scale: nat): Bytes {
    Flatten(Stretch(RowPixels(row, width, palette), scale))
  }

  /** One scaled line for each of the first `n` sprite rows. */
  function SpriteRows(sprite: seq<string>, width: nat, palette: map<char, Rgba>, scale: nat, n: nat): (rows: seq<Bytes>)
    requires n <= |sprite|
    ensures |rows| == n && forall i :: 0 <= i < n ==> rows[i] == SpriteLine(sprite[i], width, palette, scale)
  {
    if n == 0 then [] else SpriteRows(sprite, width, palette, scale, n - 1) + [SpriteLine(sprite[n - 1], width, palette, scale)]
  }

  function SpriteLines(sprite: seq<string>, palette: map<char, Rgba>, scale: nat): seq<Bytes> {
    Stretch(SpriteRows(sprite, MaxLen(sprite), palette, scale, |sprite|), scale)
  }

  /** The scanlines `_sprite_png` hands to the writer, with the scaled size. */
  method SpriteScanlines(sprite: seq<string>, palette: map<char, Rgba>, scale: nat)
    returns (pixels: Bytes, width: nat, height: nat)
    requires sprite != []
    ensures pixels == Interleave(SpriteLines(sprite, palette, scale))
    ensures width == MaxLen(sprite) * scale && height == |sprite| * scale
  {
    var sourceWidth := MaxLen(sprite);
    width, height := sourceWidth * scale, |sprite| * scale;
    pixels := [];
    for i := 0 to |sprite|
      invariant pixels == Interleave(Stretch(SpriteRows(sprite, sourceWidth, palette, scale, i), scale))
    {
      var line := SpriteLine(sprite[i], sourceWidth, palette, scale);
      NextSpriteRow(sprite, sourceWidth, palette, scale, i, line);
      pixels := AppendCopies(pixels, line, scale, Stretch(SpriteRows(sprite, sourceWidth, palette, scale, i), scale));
    }
  }

  lemma NextSpriteRow(sprite: seq<string>, width: nat, palette: map<char, Rgba>, scale: nat, i: nat, line: Bytes)
    requires i < |sprite| && line == SpriteLine(sprite[i], width, palette, scale)
    ensures Stretch(SpriteRows(sprite, width, palette, scale, i + 1), scale)
      == Stretch(SpriteRows(sprite, width, palette, scale, i), scale) + seq(scale, _ => line)
  {
    StretchAppend(SpriteRows(sprite, width, palette, scale, i), line, scale);
  }

  /** The inner loop: the same line, `scale` times, each behind a filter byte 0. */
  method AppendCopies(start: Bytes, line: Bytes, scale: nat, ghost above: seq<Bytes>) returns (pixels: Bytes)
    requires start == Interleave(above)
    ensures pixels == Interleave(above + seq(scale, _ => line))
  {
    pixels := start;
    assert above + seq(0, _ => line) == above;
    for n := 0 to scale
      invariant pixels == Interleave(above + seq(n, _ => line))
    {
      InterleaveAppend(above + seq(n, _ => line), line);
      assert above + seq(n, _ => line) + [line] == above + seq(n + 1, _ => line);
      pixels := pixels + [0] + line;
    }
  }

  lemma {:induction false} MaxLenBounds(rows: seq<string>, row: string)
    requires row in rows
    ensures |row| <= MaxLen(rows)
    decreases |rows|
  {
    if row != rows[0] {
      MaxLenBounds(rows[1..], row);
    }
  }

  /** The colour of a sprite cell, blank cells to the right of a short row included. */
  function Cell(sprite: seq<string>, palette: map<char, Rgba>, r: nat, c: nat): Rgba
    requires r < |sprite|
  {
    var sign := if c < |sprite[r]| then sprite[r][c] else '.';
    if sign in palette then palette[sign] else Rgba(0, 0, 0, 0)
  }

  lemma SpriteLineWidth(sprite: seq<string>, palette: map<char, Rgba>, scale: nat, i: nat)
    requires i < |sprite|
    ensures |SpriteLine(sprite[i], MaxLen(sprite), palette, scale)| == 4 * (MaxLen(sprite) * scale)
  {
    MaxLenBounds(sprite, sprite[i]);
    StretchLen(RowPixels(sprite[i], MaxLen(sprite), palette), scale);
  }

  lemma SpriteLinesShape(sprite: seq<string>, palette: map<char, Rgba>, scale: nat)
    ensures |SpriteLines(sprite, palette, scale)| == |sprite| * scale
    ensures AllWide(SpriteLines(sprite, palette, scale), 4 * (MaxLen(sprite) * scale))
  {
    var rows := SpriteRows(sprite, MaxLen(sprite), palette, scale, |sprite|);
    StretchLen(rows, scale);
    StretchMembers(rows, scale);
    forall i | 0 <= i < |sprite| ensures |rows[i]| == 4 * (MaxLen(sprite) * scale) {
      SpriteLineWidth(sprite, palette, scale, i);
    }
  }

  lemma {:induction false} StretchMembers<T>(s: seq<T>, n: nat)
    ensures forall x :: x in Stretch(s, n) ==> x in s
    decreases |s|
  {
    if s != [] {
      StretchMembers(s[1..], n);
      assert forall x :: x in s[1..] ==> x in s;
    }
  }

  /** Every cell of the sprite becomes a scale-by-scale block of its colour in the decoded image. */
  lemma SpritePixel(sprite: seq<string>, palette: map<char, Rgba>, scale: nat, r: nat, dr: nat, c: nat, dc: nat, row: nat, q: nat)
    requires r < |sprite| && dr < scale && c < MaxLen(sprite) && dc < scale
    requires row == r * scale + dr && q == c * scale + dc
    ensures row < |SpriteLines(sprite, palette, scale)|
    ensures PixelAt(SpriteLines(sprite, palette, scale)[row], q, Cell(sprite, palette, r, c))
  {
    StretchAt(SpriteRows(sprite, MaxLen(sprite), palette, scale, |sprite|), scale, r, dr, row);
    SpriteLinePixel(sprite, palette, scale, r, c, dc, q);
  }

  lemma SpriteLinePixel(sprite: seq<string>, palette: map<char, Rgba>, scale: nat, r: nat, c: nat, dc: nat, q: nat)
    requires r < |sprite| && c < MaxLen(sprite) && dc < scale && q == c * scale + dc
    ensures PixelAt(SpriteLine(sprite[r], MaxLen(sprite), palette, scale), q, Cell(sprite, palette, r, c))
  {
    MaxLenBounds(sprite, sprite[r]);
    var cells := RowPixels(sprite[r], MaxLen(sprite), palette);
    StretchAt(cells, scale, c, dc, q);
    FlattenAt(Stretch(cells, scale), q);
  }

  predicate SomeCellAlpha(sprite: seq<string>, palette: map<char, Rgba>) {
    exists r, c :: 0 <= r < |sprite| && 0 <= c < MaxLen(sprite) && Cell(sprite, palette, r, c).a != 0
  }

  lemma {:induction false} Quotient(x: nat, n: nat, m: nat) returns (q: nat, d: nat)
    requires x < m * n
    ensures q < m && d < n && x == q * n + d
    decreases m
  {
    assert m * n == (m - 1) * n + n;
    if x < n {
      q, d := 0, x;
    } else {
      q, d := Quotient(x - n, n, m - 1);
      q := q + 1;
      assert q * n == (q - 1) * n + n;
    }
  }

  lemma PixelAlpha(lines: seq<Bytes>, row: nat, q: nat, px: Rgba)
    requires row < |lines| && PixelAt(lines[row], q, px)
    ensures lines[row][4 * q + 3] == px.a && (px.a != 0 ==> SomeAlpha(lines))
  {
    assert lines[row][4 * q..4 * q + 4][3] == px.a;
    assert (4 * q + 3) % 4 == 3;
  }

  lemma CellAlphaShows(sprite: seq<string>, palette: map<char, Rgba>, scale: nat, r: nat, c: nat)
    requires scale > 0 && r < |sprite| && c < MaxLen(sprite) && Cell(sprite, palette, r, c).a != 0
    ensures SomeAlpha(SpriteLines(sprite, palette, scale))
  {
    var row, q := CornerPixel(sprite, palette, scale, r, c);
    PixelAlpha(SpriteLines(sprite, palette, scale), row, q, Cell(sprite, palette, r, c));
  }

  lemma CornerPixel(sprite: seq<string>, palette: map<char, Rgba>, scale: nat, r: nat, c: nat) returns (row: nat, q: nat)
    requires scale > 0 && r < |sprite| && c < MaxLen(sprite)
    ensures row < |SpriteLines(sprite, palette, scale)|
    ensures PixelAt(SpriteLines(sprite, palette, scale)[row], q, Cell(sprite, palette, r, c))
  {
    row, q := r * scale, c * scale;
    SpritePixel(sprite, palette, scale, r, 0, c, 0, row, q);
  }

  lemma AlphaShowsCell(sprite: seq<string>, palette: map<char, Rgba>, scale: nat, row: nat, k: nat)
    requires row < |SpriteLines(sprite, palette, scale)| && k < |SpriteLines(sprite, palette, scale)[row]|
    requires k % 4 == 3 && SpriteLines(sprite, palette, scale)[row][k] != 0
    ensures SomeCellAlpha(sprite, palette)
  {
    var lines, q := SpriteLines(sprite, palette, scale), k / 4;
    SpriteLinesShape(sprite, palette, scale);
    assert lines[row] in lines;
    assert 4 * q + 3 == k;
    var r, dr := Quotient(row, scale, |sprite|);
    var c, dc := Quotient(q, scale, MaxLen(sprite));
    SpritePixel(sprite, palette, scale, r, dr, c, dc, row, q);
    PixelAlpha(lines, row, q, Cell(sprite, palette, r, c));
  }

  /** The sprite image decodes to the scaled sprite and is judged visible exactly when a cell has alpha. */
  lemma SpriteImage(png: Bytes, sprite: seq<string>, palette: map<char, Rgba>, scale: nat,
                    deflate: Bytes -> Bytes, inflate: Bytes -> Option<Bytes>, crc: Bytes -> nat, w: nat, h: nat)
    requires sprite != [] && scale > 0 && w == MaxLen(sprite) * scale && h == |sprite| * scale
    requires forall b :: inflate(deflate(b)) == Some(b)
    requires PngRgba(w, h, Interleave(SpriteLines(sprite, palette, scale)), deflate, crc) == Some(png)
    ensures DecodesTo(Interleave(SpriteLines(sprite, palette, scale)), w, h, Zeros(4 * w), SpriteLines(sprite, palette, scale))
    ensures FastVisible(png, inflate) <==> SomeCellAlpha(sprite, palette)
  {
    var lines := SpriteLines(sprite, palette, scale);
    SpriteLinesShape(sprite, palette, scale);
    UnfilterInterleave(lines, w, Zeros(4 * w));
    WrittenVisible(png, lines, w, h, deflate, inflate, crc);
    SpriteAlpha(sprite, palette, scale);
  }

  lemma SpriteAlpha(sprite: seq<string>, palette: map<char, Rgba>, scale: nat)
    requires scale > 0
    ensures SomeAlpha(SpriteLines(sprite, palette, scale)) <==> SomeCellAlpha(sprite, palette)
  {
    var lines := SpriteLines(sprite, palette, scale);
    if SomeCellAlpha(sprite, palette) {
      var r, c :| 0 <= r < |sprite| && 0 <= c < MaxLen(sprite) && Cell(sprite, palette, r, c).a != 0;
      CellAlphaShows(sprite, palette, scale, r, c);
    }
    if SomeAlpha(lines) {
      var row, k :| 0 <= row < |lines| && 0 <= k < |lines[row]| && k % 4 == 3 && lines[row][k] != 0;
      AlphaShowsCell(sprite, palette, scale, row, k);
    }
  }
}
