// What one image sequence in the stream does, told from its text: parameters, data, size and pixels.

module StreamImages {
  import opened Text
  import opened Png
  import opened KittySequence
  import K = Kitty
  import Sixel
  import C = ImageCompositor

  /** The value the parameters give a key: the last one written. */
  function Said(ps: seq<(char, string)>, key: char): Option<string> {
    if ps == [] then None
    else if ps[|ps| - 1].0 == key then Some(ps[|ps| - 1].1)
    else Said(ps[..|ps| - 1], key)
  }

  function At(values: K.Params, key: char): Option<string> {
    if [key] in values then Some(values[[key]]) else None
  }

  /** The value known for an image: of this sequence, else of the earlier sequences for the same image. */
  function Known(ps: seq<(char, string)>, meta: map<string, K.Params>, id: string, key: char): Option<string> {
    if Said(ps, key).Some? then Said(ps, key) else if id in meta then At(meta[id], key) else None
  }

  /** Parameters, a semicolon and the data. */
  function Command(ps: seq<(char, string)>, encoded: string): string {
    Join(Items(ps), ',') + ";" + encoded
  }

  function SequenceText(ps: seq<(char, string)>, encoded: string): string {
    C.KITTY_START + Command(ps, encoded) + C.GRAPHICS_END
  }

  predicate Writable(ps: seq<(char, string)>, encoded: string) {
    QuietParams(ps) && '\U{1B}' !in encoded
  }

  function ImageOf(ps: seq<(char, string)>): string {
    Said(ps, 'i').UnwrapOr("default")
  }

  // ---- the text gives the parameters back ----

  lemma QuietFront(ps: seq<(char, string)>, n: nat)
    requires QuietParams(ps) && |ps| == n + 1
    ensures QuietParams(ps[..n]) && Quiet([ps[n].0]) && Quiet(ps[n].1)
  {
    assert ps[n] in ps;
    forall p | p in ps[..n] ensures p in ps {
    }
  }

  lemma LastItem(ps: seq<(char, string)>, n: nat)
    requires QuietParams(ps) && |ps| == n + 1
    ensures K.ParamsOf(Items(ps)) == K.ParamsOf(Items(ps[..n]))[[ps[n].0] := ps[n].1]
  {
    QuietFront(ps, n);
    SplitItem(ps[n]);
    assert Items(ps)[..n] == Items(ps[..n]);
  }

  lemma {:induction false} SaidReads(ps: seq<(char, string)>, key: char)
    requires QuietParams(ps)
    ensures At(K.ParamsOf(Items(ps)), key) == Said(ps, key)
    decreases |ps|
  {
    if ps != [] {
      var n := |ps| - 1;
      QuietFront(ps, n);
      LastItem(ps, n);
      SaidReads(ps[..n], key);
      if [ps[n].0] == [key] {
        assert [ps[n].0][0] == key;
      }
    }
  }

  lemma NoParams(encoded: string)
    ensures var payload := Command([], encoded); K.ValuesOf(payload) == map[] && K.EncodedOf(payload) == encoded
  {
    SplitSemi("", encoded);
    FindChar("", "", ',');
    assert K.ParamsOf([""][..0]) == map[];
  }

  lemma TextReads(ps: seq<(char, string)>, encoded: string)
    requires Writable(ps, encoded)
    ensures var payload := Command(ps, encoded);
      K.ValuesOf(payload) == K.ParamsOf(Items(ps)) && K.EncodedOf(payload) == encoded && '\U{1B}' !in payload
  {
    if ps == [] {
      NoParams(encoded);
    } else {
      CommandReads(ps, encoded);
    }
  }

  lemma ValueReads(ps: seq<(char, string)>, encoded: string, key: char, default: string)
    requires Writable(ps, encoded)
    ensures K.Get(K.ValuesOf(Command(ps, encoded)), [key], default) == Said(ps, key).UnwrapOr(default)
  {
    TextReads(ps, encoded);
    SaidReads(ps, key);
  }

  lemma KnownReads(ps: seq<(char, string)>, encoded: string, meta: map<string, K.Params>, key: char)
    requires Writable(ps, encoded)
    ensures K.IdOf(Command(ps, encoded)) == ImageOf(ps)
    ensures At(K.Remembered(meta, Command(ps, encoded)), key) == Known(ps, meta, ImageOf(ps), key)
  {
    ValueReads(ps, encoded, 'i', "default");
    TextReads(ps, encoded);
    SaidReads(ps, key);
  }

  /** What a host reads in a written frame: the fixed parameters, an id of at least 1, and only positive sizes. */
  lemma FrameSays(encoded: string, columns: int, rows: int, imageId: Option<int>)
    requires '\U{1B}' !in encoded
    ensures var values := K.ValuesOf(FramePayload(encoded, columns, rows, imageId));
      && At(values, 'a') == Some("T") && At(values, 'f') == Some("100") && At(values, 'q') == Some("2")
      && At(values, 'c') == (if columns >= 1 then Some(Decimal(columns)) else None)
      && At(values, 'r') == (if rows >= 1 then Some(Decimal(rows)) else None)
      && (imageId.None? ==> At(values, 'i') == None)
      && (imageId.Some? ==> At(values, 'i') == Some(if imageId.value >= 1 then Decimal(imageId.value) else "1"))
    ensures K.EncodedOf(FramePayload(encoded, columns, rows, imageId)) == encoded
  {
    FrameReads(encoded, columns, rows, imageId, 'a');
    FrameReads(encoded, columns, rows, imageId, 'f');
    FrameReads(encoded, columns, rows, imageId, 'q');
    FrameReads(encoded, columns, rows, imageId, 'c');
    FrameReads(encoded, columns, rows, imageId, 'r');
    FrameReads(encoded, columns, rows, imageId, 'i');
  }

  lemma FrameReads(encoded: string, columns: int, rows: int, imageId: Option<int>, key: char)
    requires '\U{1B}' !in encoded
    ensures At(K.ValuesOf(FramePayload(encoded, columns, rows, imageId)), key) == FrameValue(columns, rows, imageId, key)
    ensures K.EncodedOf(FramePayload(encoded, columns, rows, imageId)) == encoded
  {
    FrameParamsQuiet(columns, rows, imageId);
    TextReads(FrameParams(columns, rows, imageId), encoded);
    assert FramePayload(encoded, columns, rows, imageId) == Command(FrameParams(columns, rows, imageId), encoded);
    FrameSaid(columns, rows, imageId, key);
  }

  function FrameValue(columns: int, rows: int, imageId: Option<int>, key: char): Option<string> {
    if key == 'a' then Some("T")
    else if key == 'f' then Some("100")
    else if key == 'q' then Some("2")
    else if key == 'c' && columns > 0 then Some(Decimal(columns))
    else if key == 'r' && rows > 0 then Some(Decimal(rows))
    else if key == 'i' && imageId.Some? then Some(Decimal(AtLeastOne(imageId.value)))
    else None
  }

  lemma FrameSaid(columns: int, rows: int, imageId: Option<int>, key: char)
    ensures At(K.ParamsOf(Items(FrameParams(columns, rows, imageId))), key) == FrameValue(columns, rows, imageId, key)
  {
    FrameParamsQuiet(columns, rows, imageId);
    SaidReads(FrameParams(columns, rows, imageId), key);
    var fixed := [('a', "T"), ('f', "100"), ('q', "2")];
    var id := if imageId.Some? then [('i', Decimal(AtLeastOne(imageId.value)))] else [];
    var wide := if columns > 0 then [('c', Decimal(columns))] else [];
    var high := if rows > 0 then [('r', Decimal(rows))] else [];
    SaidLast(fixed + id + wide, high, key);
    SaidLast(fixed + id, wide, key);
    SaidLast(fixed, id, key);
    SaidFixed(key);
  }

  lemma SaidFixed(key: char)
    ensures Said([('a', "T"), ('f', "100"), ('q', "2")], key)
      == if key == 'a' then Some("T") else if key == 'f' then Some("100") else if key == 'q' then Some("2") else None
  {
    var one, two, three := [('a', "T")], [('a', "T"), ('f', "100")], [('a', "T"), ('f', "100"), ('q', "2")];
    assert three[..2] == two && two[..1] == one && one[..0] == [];
    assert three[2] == ('q', "2") && two[1] == ('f', "100") && one[0] == ('a', "T");
    assert Said(one, key) == if key == 'a' then Some("T") else None;
    assert Said(two, key) == if key == 'f' then Some("100") else Said(one, key);
    assert Said(three, key) == if key == 'q' then Some("2") else Said(two, key);
  }

  lemma SaidLast(ps: seq<(char, string)>, last: seq<(char, string)>, key: char)
    requires |last| <= 1
    ensures Said(ps + last, key) == if last != [] && last[0].0 == key then Some(last[0].1) else Said(ps, key)
  {
    if last == [] {
      assert ps + last == ps;
    } else {
      assert (ps + last)[..|ps|] == ps;
    }
  }

  // ---- one sequence in the stream ----

  /** What is emitted: the issue, and the frame while the limit on frames allows it. */
  predicate Reports(lim: K.Limits, before: C.State, after: C.State, out: K.Out, e: C.Emitted) {
    && e.issues == (if out.issue.Some? then [out.issue.value] else [])
    && e.frames == (if out.frame.Some? && before.framesSeen < lim.maxFrames then [out.frame.value] else [])
    && after.framesSeen == before.framesSeen + |e.frames|
  }

  /** Reading a complete sequence, in a stream that is not inside another one, takes up exactly its text. */
  ghost predicate Reads(codec: K.Codec, lim: K.Limits, s: C.Session, ps: seq<(char, string)>, encoded: string,
                        after: C.Session, e: C.Emitted) {
    && Writable(ps, encoded) && C.FirstStart(s.pending) < 0
    && C.Fed(codec, lim, s, SequenceText(ps, encoded)) == (after, e)
  }

  lemma SequenceIsHandled(codec: K.Codec, lim: K.Limits, st: C.State, payload: string, next: C.State, e: C.Emitted)
    requires '\U{1B}' !in payload && C.Handle(codec, lim, st, "_G" + payload) == (next, e)
    ensures var text := C.KITTY_START + payload + C.GRAPHICS_END;
      C.KITTY_START <= text && C.FirstStart(text) == 0 && C.Drain(codec, lim, st, text) == (next, "", e)
  {
    WholeSequence(payload);
    var text := C.KITTY_START + payload + C.GRAPHICS_END;
    OneSequence(codec, lim, st, text, "_G" + payload, next, e);
  }

  lemma SequenceFed(codec: K.Codec, lim: K.Limits, s: C.Session, payload: string, next: C.State, e: C.Emitted)
    requires '\U{1B}' !in payload && C.FirstStart(s.pending) < 0
    requires C.Handle(codec, lim, s.st, "_G" + payload) == (next, e)
    ensures C.Fed(codec, lim, s, C.KITTY_START + payload + C.GRAPHICS_END) == (C.Session(next, ""), e)
  {
    SequenceIsHandled(codec, lim, s.st, payload, next, e);
    BehindJunk(codec, lim, s.st, s.pending, C.KITTY_START + payload + C.GRAPHICS_END);
  }

  lemma HandledIs(codec: K.Codec, lim: K.Limits, st: C.State, payload: string, next: C.State, e: C.Emitted)
    requires C.Handle(codec, lim, st, "_G" + payload) == (next, e)
    ensures next.store == K.CommandStore(codec, lim, st.store, payload)
    ensures Reports(lim, st, next, K.CommandOut(codec, lim, st.store, payload), e)
  {
    var sequence := "_G" + payload;
    assert sequence[2..] == payload && "_G" <= sequence;
  }

  lemma ReadsTells(codec: K.Codec, lim: K.Limits, s: C.Session, ps: seq<(char, string)>, encoded: string,
                   after: C.Session, e: C.Emitted)
    requires Reads(codec, lim, s, ps, encoded, after, e)
    ensures after.pending == "" && after.st.store == K.CommandStore(codec, lim, s.st.store, Command(ps, encoded))
    ensures Reports(lim, s.st, after.st, K.CommandOut(codec, lim, s.st.store, Command(ps, encoded)), e)
  {
    var payload := Command(ps, encoded);
    TextReads(ps, encoded);
    var (next, emitted) := C.Handle(codec, lim, s.st, "_G" + payload);
    SequenceFed(codec, lim, s, payload, next, emitted);
    HandledIs(codec, lim, s.st, payload, next, emitted);
  }

  /** Text in which no sequence starts gives nothing; its last 64000 characters stay. */
  lemma JunkTells(codec: K.Codec, lim: K.Limits, s: C.Session, data: string, all: string)
    requires all == s.pending + data && forall j :: 0 <= j ==> !C.IsStart(all, j)
    ensures C.Fed(codec, lim, s, data)
      == (C.Session(s.st, if |all| > 64_000 then all[|all| - 64_000..] else all), C.Emitted([], []))
  {
  }

  /** A sequence that is not terminated yet is kept from its first character on. */
  lemma UnfinishedTells(codec: K.Codec, lim: K.Limits, s: C.Session, data: string, all: string, i: nat)
    requires all == s.pending + data && C.IsStart(all, i) && forall j :: 0 <= j < i ==> !C.IsStart(all, j)
    requires forall j :: i + 3 <= j ==> !OccursAt(all, C.GRAPHICS_END, j)
    ensures i <= |all| && C.Fed(codec, lim, s, data) == (C.Session(s.st, all[i..]), C.Emitted([], []))
  {
    assert C.FirstStart(all) == i;
    FindInSuffix(all, C.GRAPHICS_END, i, 3);
  }

  // ---- which command it is ----

  /** A placement without data. */
  predicate Places(ps: seq<(char, string)>, encoded: string) {
    Said(ps, 'a') == Some("p") && encoded == ""
  }

  /** The bytes the text carries: base64, and compressed when `o=z`. */
  function Carried(codec: K.Codec, ps: seq<(char, string)>, encoded: string): Option<Bytes> {
    var bytes := codec.b64decode(encoded);
    if bytes.Some? && Said(ps, 'o') == Some("z") then codec.inflate(bytes.value) else bytes
  }

  lemma CommandIs(codec: K.Codec, ps: seq<(char, string)>, encoded: string, payload: string)
    requires Writable(ps, encoded) && payload == Command(ps, encoded)
    ensures K.IdOf(payload) == ImageOf(ps) && (K.IsPlacement(payload) <==> Places(ps, encoded))
    ensures K.Payload(codec, payload) == Carried(codec, ps, encoded) && (K.MoreFollows(payload) <==> Said(ps, 'm') == Some("1"))
  {
    ValueReads(ps, encoded, 'i', "default");
    ValueReads(ps, encoded, 'a', "");
    ValueReads(ps, encoded, 'o', "");
    ValueReads(ps, encoded, 'm', "0");
    TextReads(ps, encoded);
  }

  /** The parameters of the sequence are remembered for its image, those of other images stay. */
  ghost predicate Remembers(ps: seq<(char, string)>, before: map<string, K.Params>, after: map<string, K.Params>) {
    && ImageOf(ps) in after && after.Keys == before.Keys + {ImageOf(ps)}
    && (forall id :: id in before && id != ImageOf(ps) ==> after[id] == before[id])
    && forall key :: At(after[ImageOf(ps)], key) == Known(ps, before, ImageOf(ps), key)
  }

  lemma NotedRemembers(ps: seq<(char, string)>, encoded: string, store: K.Store)
    requires Writable(ps, encoded)
    ensures Remembers(ps, store.meta, K.Noted(store, Command(ps, encoded)).meta)
  {
    ValueReads(ps, encoded, 'i', "default");
    forall key ensures At(K.Remembered(store.meta, Command(ps, encoded)), key) == Known(ps, store.meta, ImageOf(ps), key) {
      KnownReads(ps, encoded, store.meta, key);
    }
  }

  /** A placement gives nothing and buffers nothing; its parameters are remembered. */
  lemma PlacementTells(codec: K.Codec, lim: K.Limits, s: C.Session, ps: seq<(char, string)>, encoded: string,
                       after: C.Session, e: C.Emitted)
    requires Reads(codec, lim, s, ps, encoded, after, e) && Places(ps, encoded)
    ensures e == C.Emitted([], []) && after.pending == "" && after.st.framesSeen == s.st.framesSeen
    ensures after.st.store.parts == s.st.store.parts && Remembers(ps, s.st.store.meta, after.st.store.meta)
  {
    ReadsTells(codec, lim, s, ps, encoded, after, e);
    CommandIs(codec, ps, encoded, Command(ps, encoded));
    NotedRemembers(ps, encoded, s.st.store);
  }

  /** Data that does not decode is reported, and buffers nothing. */
  lemma MalformedTells(codec: K.Codec, lim: K.Limits, s: C.Session, ps: seq<(char, string)>, encoded: string,
                       after: C.Session, e: C.Emitted)
    requires Reads(codec, lim, s, ps, encoded, after, e) && !Places(ps, encoded) && Carried(codec, ps, encoded).None?
    ensures e == C.Emitted([], [K.Malformed]) && after.pending == "" && after.st.framesSeen == s.st.framesSeen
    ensures after.st.store.parts == s.st.store.parts && Remembers(ps, s.st.store.meta, after.st.store.meta)
  {
    ReadsTells(codec, lim, s, ps, encoded, after, e);
    CommandIs(codec, ps, encoded, Command(ps, encoded));
    NotedRemembers(ps, encoded, s.st.store);
  }

  /** The sequence carries data; with what is buffered for its image it makes `data`. */
  predicate Carries(codec: K.Codec, store: K.Store, ps: seq<(char, string)>, encoded: string, data: Bytes) {
    !Places(ps, encoded) && Carried(codec, ps, encoded).Some?
      && data == K.Part(store.parts, ImageOf(ps)) + Carried(codec, ps, encoded).value
  }

  /** All buffers together, with `data` for the image. */
  ghost function Pending(store: K.Store, ps: seq<(char, string)>, data: Bytes): nat {
    K.Total(store.parts[ImageOf(ps) := data])
  }

  /** Data beyond the pending limit empties all buffers and is reported. */
  lemma OverflowTells(codec: K.Codec, lim: K.Limits, s: C.Session, ps: seq<(char, string)>, encoded: string, data: Bytes,
                      after: C.Session, e: C.Emitted)
    requires Reads(codec, lim, s, ps, encoded, after, e) && Carries(codec, s.st.store, ps, encoded, data)
    requires Pending(s.st.store, ps, data) > lim.maxPending
    ensures e == C.Emitted([], [K.PendingLimit]) && after.pending == "" && after.st.framesSeen == s.st.framesSeen
    ensures after.st.store.parts == map[] && Remembers(ps, s.st.store.meta, after.st.store.meta)
  {
    ReadsTells(codec, lim, s, ps, encoded, after, e);
    CommandIs(codec, ps, encoded, Command(ps, encoded));
    NotedRemembers(ps, encoded, s.st.store);
  }

  /** A sequence with `m=1` only extends the buffer of its image. */
  lemma ChunkTells(codec: K.Codec, lim: K.Limits, s: C.Session, ps: seq<(char, string)>, encoded: string, data: Bytes,
                   after: C.Session, e: C.Emitted)
    requires Reads(codec, lim, s, ps, encoded, after, e) && Carries(codec, s.st.store, ps, encoded, data)
    requires Pending(s.st.store, ps, data) <= lim.maxPending && Said(ps, 'm') == Some("1")
    ensures e == C.Emitted([], []) && after.pending == "" && after.st.framesSeen == s.st.framesSeen
    ensures after.st.store.parts == s.st.store.parts[ImageOf(ps) := data] && Remembers(ps, s.st.store.meta, after.st.store.meta)
  {
    ReadsTells(codec, lim, s, ps, encoded, after, e);
    CommandIs(codec, ps, encoded, Command(ps, encoded));
    NotedRemembers(ps, encoded, s.st.store);
  }

  /** The sequence completes its image: `data` is whole. */
  ghost predicate Completes(codec: K.Codec, lim: K.Limits, store: K.Store, ps: seq<(char, string)>, encoded: string, data: Bytes) {
    && Carries(codec, store, ps, encoded, data) && Pending(store, ps, data) <= lim.maxPending && Said(ps, 'm') != Some("1")
  }

  lemma Dropped(codec: K.Codec, lim: K.Limits, store: K.Store, payload: string, id: string, bytes: Bytes, data: Bytes)
    requires id == K.IdOf(payload) && !K.IsPlacement(payload) && K.Payload(codec, payload) == Some(bytes) && !K.MoreFollows(payload)
    requires data == K.Part(store.parts, id) + bytes && |data| > lim.maxBytes && K.Total(store.parts[id := data]) <= lim.maxPending
    ensures K.CommandStore(codec, lim, store, payload) == K.Store(store.parts - {id}, K.Noted(store, payload).meta)
    ensures K.CommandOut(codec, lim, store, payload) == K.Out(None, Some(K.TooLarge))
  {
    var noted := K.Noted(store, payload);
    assert K.Extended(noted.parts, id, bytes) == store.parts[id := data];
    assert store.parts[id := data] - {id} == store.parts - {id};
  }

  /** A whole image above the size limit is reported; its buffer is dropped, its parameters are kept. */
  lemma TooLargeTells(codec: K.Codec, lim: K.Limits, s: C.Session, ps: seq<(char, string)>, encoded: string, data: Bytes,
                      after: C.Session, e: C.Emitted)
    requires Reads(codec, lim, s, ps, encoded, after, e) && Completes(codec, lim, s.st.store, ps, encoded, data)
    requires |data| > lim.maxBytes
    ensures e == C.Emitted([], [K.TooLarge]) && after.pending == "" && after.st.framesSeen == s.st.framesSeen
    ensures after.st.store.parts == s.st.store.parts - {ImageOf(ps)} && Remembers(ps, s.st.store.meta, after.st.store.meta)
  {
    ReadsTells(codec, lim, s, ps, encoded, after, e);
    CommandIs(codec, ps, encoded, Command(ps, encoded));
    NotedRemembers(ps, encoded, s.st.store);
    Dropped(codec, lim, s.st.store, Command(ps, encoded), ImageOf(ps), Carried(codec, ps, encoded).value, data);
  }

  // ---- a whole image ----

  function KnownFor(ps: seq<(char, string)>, store: K.Store, key: char): Option<string> {
    Known(ps, store.meta, ImageOf(ps), key)
  }

  function Number(codec: K.Codec, value: Option<string>): Option<int> {
    if value.Some? then codec.parseInt(value.value) else None
  }

  /** The sequence completes an image within the size limit. */
  ghost predicate Finishes(codec: K.Codec, lim: K.Limits, s: C.Session, ps: seq<(char, string)>, encoded: string, data: Bytes,
                           after: C.Session, e: C.Emitted) {
    && Reads(codec, lim, s, ps, encoded, after, e)
    && Completes(codec, lim, s.st.store, ps, encoded, data) && |data| <= lim.maxBytes
  }

  /** What a completing sequence gives is that of the whole image under the known parameters. */
  lemma FinishTells(codec: K.Codec, lim: K.Limits, s: C.Session, ps: seq<(char, string)>, encoded: string, data: Bytes,
                    after: C.Session, e: C.Emitted) returns (values: K.Params)
    requires Finishes(codec, lim, s, ps, encoded, data, after, e)
    ensures after.pending == "" && after.st.store == Completed(s.st.store, ImageOf(ps))
    ensures Reports(lim, s.st, after.st, K.Finish(codec, data, values), e)
    ensures forall key :: At(values, key) == KnownFor(ps, s.st.store, key)
  {
    var payload := Command(ps, encoded);
    ReadsTells(codec, lim, s, ps, encoded, after, e);
    CommandIs(codec, ps, encoded, payload);
    NotedRemembers(ps, encoded, s.st.store);
    values := K.Remembered(s.st.store.meta, payload);
    Finished(codec, lim, s.st.store, payload, ImageOf(ps), Carried(codec, ps, encoded).value, data, values);
    forall key ensures At(values, key) == KnownFor(ps, s.st.store, key) {
      KnownReads(ps, encoded, s.st.store.meta, key);
    }
  }

  lemma Finished(codec: K.Codec, lim: K.Limits, store: K.Store, payload: string, id: string, bytes: Bytes, data: Bytes, values: K.Params)
    requires id == K.IdOf(payload) && !K.IsPlacement(payload) && K.Payload(codec, payload) == Some(bytes) && !K.MoreFollows(payload)
    requires data == K.Part(store.parts, id) + bytes && |data| <= lim.maxBytes && K.Total(store.parts[id := data]) <= lim.maxPending
    requires values == K.Remembered(store.meta, payload)
    ensures K.CommandStore(codec, lim, store, payload) == Completed(store, id)
    ensures K.CommandOut(codec, lim, store, payload) == K.Finish(codec, data, values)
  {
    var noted := K.Noted(store, payload);
    assert K.Extended(noted.parts, id, bytes) == store.parts[id := data];
    assert store.parts[id := data] - {id} == store.parts - {id};
    assert noted.meta - {id} == store.meta - {id};
  }

  /** Any format but 24 and 32 passes the bytes on as they are. */
  lemma WholeFrameTells(codec: K.Codec, lim: K.Limits, s: C.Session, ps: seq<(char, string)>, encoded: string, data: Bytes,
                        after: C.Session, e: C.Emitted)
    requires Finishes(codec, lim, s, ps, encoded, data, after, e)
    requires KnownFor(ps, s.st.store, 'f') != Some("24") && KnownFor(ps, s.st.store, 'f') != Some("32")
    ensures after.pending == "" && after.st.store == Completed(s.st.store, ImageOf(ps))
    ensures e == C.Emitted(if s.st.framesSeen < lim.maxFrames then [K.Frame(data, None, None)] else [], [])
  {
    var values := FinishTells(codec, lim, s, ps, encoded, data, after, e);
    assert At(values, 'f') == KnownFor(ps, s.st.store, 'f');
  }

  /** The format known for the image is that of raw pixels of 3 or 4 bytes. */
  predicate IsRaw(ps: seq<(char, string)>, store: K.Store, channels: nat) {
    (channels == 3 && KnownFor(ps, store, 'f') == Some("24")) || (channels == 4 && KnownFor(ps, store, 'f') == Some("32"))
  }

  /** The sizes that a raw image may have. */
  predicate SizeAllowed(n: int, m: int) {
    1 <= n <= 2048 && 1 <= m <= 2048 && n * m <= 2_000_000
  }

  /** Where pixel (r, c) stands in the payload. */
  function PixelAt(n: nat, channels: nat, r: nat, c: nat): nat {
    channels * (r * n + c)
  }

  /** The rows of the picture are those of the payload. */
  predicate Depicts(data: Bytes, n: nat, m: nat, channels: nat, rows: seq<Bytes>) {
    && |rows| == m && AllWide(rows, 4 * n)
    && forall r, c :: 0 <= r < m && 0 <= c < n ==> K.PixelCopied(data, rows[r], channels, c, PixelAt(n, channels, r, c))
  }

  /** A PNG of that size whose image data is `body`. */
  predicate IsPng(png: Bytes, n: nat, m: nat, body: Bytes) {
    && |png| >= 26 && png[..8] == SIGNATURE && png[24] == 8 && png[25] == 6
    && ReadBe32(png[16..20]) == n && ReadBe32(png[20..24]) == m && IdatOf(png[8..]) == body
  }

  predicate IsFrame(frame: K.Frame, n: nat, m: nat, body: Bytes) {
    frame.width == Some(n) && frame.height == Some(m) && IsPng(frame.data, n, m, body)
  }

  /** The frame of a picture, or the issue that it does not fit into a PNG. */
  predicate Pictures(codec: K.Codec, data: Bytes, n: nat, m: nat, channels: nat, raw: Bytes, rows: seq<Bytes>, out: K.Out) {
    && Depicts(data, n, m, channels, rows) && DecodesTo(raw, n, m, Zeros(4 * n), rows)
    && if |codec.deflate(raw)| >= LIMIT then out == K.Out(None, Some(K.Unencodable))
       else out.issue.None? && out.frame.Some? && IsFrame(out.frame.value, n, m, codec.deflate(raw))
  }

  /** What a raw image of `n` times `m` pixels gives. */
  ghost predicate RawGives(codec: K.Codec, data: Bytes, n: int, m: int, channels: nat, out: K.Out) {
    if !SizeAllowed(n, m) then out == K.Out(None, Some(K.BadDimensions))
    else if |data| != n * m * channels then out == K.Out(None, Some(K.BadLength))
    else exists raw, rows :: Pictures(codec, data, n, m, channels, raw, rows, out)
  }

  lemma FitsIs(n: int, m: int)
    ensures K.RawFits(n, m) <==> SizeAllowed(n, m)
  {
    if 0 < n && 0 < m {
      K.SpanIsProduct(n, m);
    }
  }

  lemma LengthIs(n: nat, m: nat, channels: nat, stride: nat)
    requires K.Strides(stride, n, channels)
    ensures K.Span(stride, m) == n * m * channels
  {
    K.SpanIsProduct(stride, m);
  }

  lemma PixelPlace(n: nat, channels: nat, stride: nat, r: nat, c: nat)
    requires K.Strides(stride, n, channels)
    ensures PixelAt(n, channels, r, c) == r * stride + channels * c
  {
  }

  lemma LinesDepict(data: Bytes, n: nat, m: nat, channels: nat, stride: nat, rows: seq<Bytes>)
    requires K.Strides(stride, n, channels) && |data| == K.Span(stride, m) && rows == K.RawLines(data, stride, channels, m)
    ensures Depicts(data, n, m, channels, rows)
  {
    K.RawLinesWide(data, stride, n, m, channels);
    forall r, c | 0 <= r < m && 0 <= c < n ensures K.PixelCopied(data, rows[r], channels, c, PixelAt(n, channels, r, c)) {
      PixelPlace(n, channels, stride, r, c);
      K.RawPixel(data, stride, n, m, channels, r, c, PixelAt(n, channels, r, c));
    }
  }

  lemma RawPictures(codec: K.Codec, data: Bytes, n: nat, m: nat, channels: nat, stride: nat, out: K.Out)
    requires K.Strides(stride, n, channels) && |data| == K.Span(stride, m) && K.RawFits(n, m)
    requires out == K.RawFrame(codec, data, n, m, channels)
    ensures Pictures(codec, data, n, m, channels, K.RawScanlines(data, n, m, channels), K.RawLines(data, stride, channels, m), out)
  {
    LinesDepict(data, n, m, channels, stride, K.RawLines(data, stride, channels, m));
    K.RawDecodes(data, n, m, channels, stride);
    if out.frame.Some? {
      WalkWritten(n, m, K.RawScanlines(data, n, m, channels), codec.deflate, codec.crc);
    }
  }

  lemma RawFrameGives(codec: K.Codec, data: Bytes, n: int, m: int, channels: nat)
    requires channels == 3 || channels == 4
    ensures RawGives(codec, data, n, m, channels, K.RawFrame(codec, data, n, m, channels))
  {
    FitsIs(n, m);
    if SizeAllowed(n, m) {
      var stride := K.Stride(n, channels);
      LengthIs(n, m, channels, stride);
      if |data| == K.Span(stride, m) {
        RawPictures(codec, data, n, m, channels, stride, K.RawFrame(codec, data, n, m, channels));
      }
    }
  }

  /** A raw image whose width or height is not known as a number is reported. */
  lemma NoSizeTells(codec: K.Codec, lim: K.Limits, s: C.Session, ps: seq<(char, string)>, encoded: string, data: Bytes, channels: nat,
                    after: C.Session, e: C.Emitted)
    requires Finishes(codec, lim, s, ps, encoded, data, after, e) && IsRaw(ps, s.st.store, channels)
    requires Number(codec, KnownFor(ps, s.st.store, 's')).None? || Number(codec, KnownFor(ps, s.st.store, 'v')).None?
    ensures after == C.Session(C.State(Completed(s.st.store, ImageOf(ps)), s.st.framesSeen), "")
    ensures e == C.Emitted([], [K.NoDimensions])
  {
    var values := FinishTells(codec, lim, s, ps, encoded, data, after, e);
    assert At(values, 'f') == KnownFor(ps, s.st.store, 'f');
    assert At(values, 's') == KnownFor(ps, s.st.store, 's');
    assert At(values, 'v') == KnownFor(ps, s.st.store, 'v');
  }

  lemma FinishIsRaw(codec: K.Codec, data: Bytes, values: K.Params, channels: nat, n: int, m: int)
    requires (channels == 3 && At(values, 'f') == Some("24")) || (channels == 4 && At(values, 'f') == Some("32"))
    requires Number(codec, At(values, 's')) == Some(n) && Number(codec, At(values, 'v')) == Some(m)
    ensures RawGives(codec, data, n, m, channels, K.Finish(codec, data, values))
  {
    assert K.Finish(codec, data, values) == K.RawFrame(codec, data, n, m, channels);
    RawFrameGives(codec, data, n, m, channels);
  }

  /** A complete sequence of raw pixels whose `s` reads as n and `v` as m: an issue exactly when n times m
      is no allowed size, the payload has another length or the PNG cannot be written, and otherwise a frame of
      width n and height m whose pixels are those of the payload, row by row. */
  lemma RawImageTells(codec: K.Codec, lim: K.Limits, s: C.Session, ps: seq<(char, string)>, encoded: string, data: Bytes, channels: nat,
                      n: int, m: int, after: C.Session, e: C.Emitted) returns (out: K.Out)
    requires Finishes(codec, lim, s, ps, encoded, data, after, e) && IsRaw(ps, s.st.store, channels)
    requires Number(codec, KnownFor(ps, s.st.store, 's')) == Some(n) && Number(codec, KnownFor(ps, s.st.store, 'v')) == Some(m)
    ensures after.pending == "" && after.st.store == Completed(s.st.store, ImageOf(ps))
    ensures Reports(lim, s.st, after.st, out, e) && RawGives(codec, data, n, m, channels, out)
  {
    var values := FinishTells(codec, lim, s, ps, encoded, data, after, e);
    assert At(values, 'f') == KnownFor(ps, s.st.store, 'f');
    assert At(values, 's') == KnownFor(ps, s.st.store, 's');
    assert At(values, 'v') == KnownFor(ps, s.st.store, 'v');
    out := K.Finish(codec, data, values);
    FinishIsRaw(codec, data, values, channels, n, m);
  }

  // ---- a Sixel image ----

  /** A complete Sixel sequence on its own: the loop of `feed` takes exactly its text. */
  lemma WholeSixel(body: string, text: string)
    requires body != "" && '\U{1B}' !in body && text == C.SIXEL_START + body + C.GRAPHICS_END
    ensures C.FirstStart(text) == 0 && Find(text[0..], C.GRAPHICS_END, 3) == |text| - 2
    ensures text[0..][1..|text| - 2] == "P" + body && text[0..][|text| - 2 + 2..] == ""
  {
    assert OccursAt(text, C.SIXEL_START, 0) by { assert text[0..2] == C.SIXEL_START; }
    assert C.IsStart(text, 0);
    assert text[0..] == text;
    assert OccursAt(text, C.GRAPHICS_END, |text| - 2) by { assert text[|text| - 2..] == C.GRAPHICS_END; }
    forall j | 3 <= j < |text| - 2 ensures !OccursAt(text, C.GRAPHICS_END, j) {
      assert text[j] == body[j - 2];
      assert text[j..j + 2][0] == text[j];
    }
  }

  lemma DeviceFed(codec: K.Codec, lim: K.Limits, s: C.Session, body: string, next: C.State, e: C.Emitted)
    requires body != "" && '\U{1B}' !in body && C.FirstStart(s.pending) < 0
    requires C.Handle(codec, lim, s.st, "P" + body) == (next, e)
    ensures C.Fed(codec, lim, s, C.SIXEL_START + body + C.GRAPHICS_END) == (C.Session(next, ""), e)
  {
    var text := C.SIXEL_START + body + C.GRAPHICS_END;
    WholeSixel(body, text);
    OneSequence(codec, lim, s.st, text, "P" + body, next, e);
    BehindJunk(codec, lim, s.st, s.pending, text);
  }

  /** A Sixel number written in decimal reads as itself. */
  lemma {:induction false} NumberReads(n: nat)
    ensures Sixel.AllDigits(Decimal(n)) && Sixel.Number(Decimal(n)) == n
    decreases n
  {
    if n >= 10 {
      NumberReads(n / 10);
      var s := Decimal(n);
      assert s[..|s| - 1] == Decimal(n / 10);
    }
  }

  /** What a decoded Sixel image gives: its picture in its size, or an issue. */
  predicate SixelGives(codec: K.Codec, decoded: Sixel.Result<Sixel.Image>, out: K.Out) {
    match decoded
    case Rejected(_) => out == K.Out(None, Some(K.BadSixel))
    case Ok(image) =>
      if image.width >= LIMIT || image.height >= LIMIT || |codec.deflate(image.scanlines)| >= LIMIT then
        out == K.Out(None, Some(K.Unencodable))
      else out.issue.None? && out.frame.Some? && IsFrame(out.frame.value, image.width, image.height, codec.deflate(image.scanlines))
  }

  lemma SixelFrameGives(codec: K.Codec, decoded: Sixel.Result<Sixel.Image>)
    ensures SixelGives(codec, decoded, C.SixelFrame(codec, decoded))
  {
    if decoded.Ok? && C.SixelFrame(codec, decoded).frame.Some? {
      WalkWritten(decoded.value.width, decoded.value.height, decoded.value.scanlines, codec.deflate, codec.crc);
    }
  }

  /** A complete Sixel sequence emits the picture of its body, or the issue; nothing else changes. */
  lemma SixelTells(codec: K.Codec, lim: K.Limits, s: C.Session, body: string, after: C.Session, e: C.Emitted) returns (out: K.Out)
    requires '\U{1B}' !in body && C.FirstStart(s.pending) < 0
    requires C.Fed(codec, lim, s, C.SIXEL_START + ("q" + body) + C.GRAPHICS_END) == (after, e)
    ensures after.pending == "" && after.st.store == s.st.store
    ensures Reports(lim, s.st, after.st, out, e)
    ensures SixelGives(codec, Sixel.Decoded(Sixel.Limits(2048, 2048, 2_000_000), "q" + body), out)
  {
    var sequence := "P" + ("q" + body);
    assert sequence[..2] == "Pq" && sequence[1..] == "q" + body;
    assert sequence[0] != '_';
    var (next, emitted) := C.Handle(codec, lim, s.st, sequence);
    DeviceFed(codec, lim, s, "q" + body, next, emitted);
    out := C.SixelFrame(codec, Sixel.Decoded(C.SIXEL_LIMITS, "q" + body));
    SixelFrameGives(codec, Sixel.Decoded(C.SIXEL_LIMITS, "q" + body));
  }

  /** Any other device control string gives nothing. */
  lemma OtherDeviceTells(codec: K.Codec, lim: K.Limits, s: C.Session, body: string)
    requires body != "" && body[0] != 'q' && '\U{1B}' !in body && C.FirstStart(s.pending) < 0
    ensures C.Fed(codec, lim, s, C.SIXEL_START + body + C.GRAPHICS_END) == (C.Session(s.st, ""), C.Emitted([], []))
  {
    var sequence := "P" + body;
    assert sequence[0] == 'P' && sequence[1] == body[0];
    assert !("_G" <= sequence) && !("Pq" <= sequence);
    DeviceFed(codec, lim, s, body, s.st, C.Emitted([], []));
  }
}
