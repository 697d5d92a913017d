// Writing a frame as a Kitty sequence, and reading it back with the compositor.

module KittySequence {
  import opened Text
  import opened Png
  import K = Kitty
  import C = ImageCompositor

  /** One parameter `c=value`. */
  function Item(p: (char, string)): string {
    [p.0] + "=" + p.1
  }

  function Items(ps: seq<(char, string)>): (items: seq<string>)
    ensures |items| == |ps| && forall i :: 0 <= i < |ps| ==> items[i] == Item(ps[i])
  {
    if ps == [] then [] else Items(ps[..|ps| - 1]) + [Item(ps[|ps| - 1])]
  }

  /** `str(n)` */
  function Decimal(n: nat): (s: string)
    ensures forall c :: c in s ==> '0' <= c <= '9'
  {
    if n < 10 then ['0' + n as char] else Decimal(n / 10) + ['0' + (n % 10) as char]
  }

  function AtLeastOne(n: int): nat {
    if n < 1 then 1 else n
  }

  /** The parameters of `kitty_graphics_sequence`. */
  function FrameParams(columns: int, rows: int, imageId: Option<int>): seq<(char, string)> {
    [('a', "T"), ('f', "100"), ('q', "2")]
      + (if imageId.Some? then [('i', Decimal(AtLeastOne(imageId.value)))] else [])
      + (if columns > 0 then [('c', Decimal(columns))] else [])
      + (if rows > 0 then [('r', Decimal(rows))] else [])
  }

  /** `kitty_graphics_sequence`, on the frame's base64 text. */
  function GraphicsSequence(encoded: string, columns: int, rows: int, imageId: Option<int>): string {
    C.KITTY_START + Join(Items(FrameParams(columns, rows, imageId)), ',') + ";" + encoded + C.GRAPHICS_END
  }

  /** No character that the command syntax gives a meaning to. */
  predicate Quiet(s: string) {
    forall c :: c in s ==> c != ',' && c != ';' && c != '=' && c != '\U{1B}'
  }

  predicate QuietParams(ps: seq<(char, string)>) {
    forall p :: p in ps ==> Quiet([p.0]) && Quiet(p.1)
  }

  /** Quiet, and no other values than those of a whole PNG frame. */
  predicate FrameLike(p: (char, string)) {
    && Quiet([p.0]) && Quiet(p.1)
    && p.0 != 'm' && p.0 != 'o' && (p.0 == 'a' ==> p.1 == "T") && (p.0 == 'f' ==> p.1 == "100")
  }

  lemma FixedParams(ps: seq<(char, string)>)
    requires ps == [('a', "T"), ('f', "100"), ('q', "2")]
    ensures ('a', "T") in ps && ('f', "100") in ps && forall p :: p in ps ==> FrameLike(p)
  {
    assert ps[0] == ('a', "T") && ps[1] == ('f', "100") && ps[2] == ('q', "2");
  }

  lemma NumberParam(key: char, n: nat)
    requires key == 'i' || key == 'c' || key == 'r'
    ensures FrameLike((key, Decimal(n)))
  {
  }

  lemma FrameParamsQuiet(columns: int, rows: int, imageId: Option<int>)
    ensures var ps := FrameParams(columns, rows, imageId);
      ('a', "T") in ps && ('f', "100") in ps && (forall p :: p in ps ==> FrameLike(p)) && QuietParams(ps)
  {
    FixedParams([('a', "T"), ('f', "100"), ('q', "2")]);
    if imageId.Some? { NumberParam('i', AtLeastOne(imageId.value)); }
    if columns > 0 { NumberParam('c', columns); }
    if rows > 0 { NumberParam('r', rows); }
    LikeIsQuiet(FrameParams(columns, rows, imageId));
  }

  lemma LikeIsQuiet(ps: seq<(char, string)>)
    requires forall p :: p in ps ==> FrameLike(p)
    ensures QuietParams(ps)
  {
  }

  lemma SplitItem(p: (char, string))
    requires Quiet([p.0]) && Quiet(p.1)
    ensures K.SplitOnce(Item(p), '=') == ([p.0], p.1) && '=' in Item(p)
  {
    assert p.0 in [p.0];
    FindChar([p.0], p.1, '=');
    assert Item(p)[..1] == [p.0] && Item(p)[2..] == p.1;
    assert Item(p)[1] == '=';
  }

  /** A parameter that is written once reads back. */
  lemma {:induction false} ParamReads(ps: seq<(char, string)>, key: char, value: string)
    requires QuietParams(ps) && forall p :: p in ps && p.0 == key ==> p.1 == value
    ensures [key] in K.ParamsOf(Items(ps)) ==> K.ParamsOf(Items(ps))[[key]] == value
    ensures [key] in K.ParamsOf(Items(ps)) <==> (key, value) in ps
    decreases |ps|
  {
    if ps != [] {
      var n := |ps| - 1;
      assert ps == ps[..n] + [ps[n]];
      ParamReads(ps[..n], key, value);
      SplitItem(ps[n]);
      assert Items(ps)[..n] == Items(ps[..n]);
      if [ps[n].0] == [key] {
        assert [ps[n].0][0] == key;
      }
    }
  }

  lemma {:induction false} JoinQuiet(items: seq<string>, c: char)
    requires c != ',' && forall item :: item in items ==> c !in item
    ensures c !in Join(items, ',')
    decreases |items|
  {
    if |items| > 1 {
      JoinQuiet(items[1..], c);
    }
  }

  lemma ItemQuiet(p: (char, string), c: char)
    requires Quiet([p.0]) && Quiet(p.1) && (c == ',' || c == ';' || c == '\U{1B}')
    ensures c !in Item(p)
  {
    assert p.0 in [p.0];
  }

  lemma ItemsQuiet(ps: seq<(char, string)>, c: char)
    requires QuietParams(ps) && (c == ',' || c == ';' || c == '\U{1B}')
    ensures forall item :: item in Items(ps) ==> c !in item
  {
    var items := Items(ps);
    forall item | item in items ensures c !in item {
      var i :| 0 <= i < |items| && items[i] == item;
      assert ps[i] in ps;
      ItemQuiet(ps[i], c);
    }
  }

  lemma SplitSemi(text: string, encoded: string)
    requires ';' !in text
    ensures K.SplitOnce(text + ";" + encoded, ';') == (text, encoded)
  {
    FindChar(text, encoded, ';');
    var payload := text + ";" + encoded;
    assert payload[..|text|] == text && payload[|text| + 1..] == encoded;
  }

  /** The command text gives back its parameters and its data. */
  lemma CommandReads(ps: seq<(char, string)>, encoded: string)
    requires ps != [] && QuietParams(ps)
    ensures var payload := Join(Items(ps), ',') + ";" + encoded;
      K.ValuesOf(payload) == K.ParamsOf(Items(ps)) && K.EncodedOf(payload) == encoded
    ensures '\U{1B}' !in Join(Items(ps), ',')
  {
    var items := Items(ps);
    ItemsQuiet(ps, ',');
    ItemsQuiet(ps, ';');
    ItemsQuiet(ps, '\U{1B}');
    JoinQuiet(items, ';');
    JoinQuiet(items, '\U{1B}');
    SplitSemi(Join(items, ','), encoded);
    SplitJoin(items, ',');
  }

  /** A complete sequence on its own: the loop of `feed` takes exactly its text. */
  lemma WholeSequence(text: string)
    requires '\U{1B}' !in text
    ensures var s := C.KITTY_START + text + C.GRAPHICS_END;
      && C.FirstStart(s) == 0 && Find(s[0..], C.GRAPHICS_END, 3) == |s| - 2
      && s[0..][1..|s| - 2] == "_G" + text && s[0..][|s| - 2 + 2..] == ""
  {
    var s := C.KITTY_START + text + C.GRAPHICS_END;
    assert OccursAt(s, C.KITTY_START, 0) by { assert s[0..3] == C.KITTY_START; }
    assert C.IsStart(s, 0);
    assert s[0..] == s;
    assert OccursAt(s, C.GRAPHICS_END, |s| - 2) by { assert s[|s| - 2..] == C.GRAPHICS_END; }
    forall j | 3 <= j < |s| - 2 ensures !OccursAt(s, C.GRAPHICS_END, j) {
      assert s[j] == text[j - 3];
      assert s[j..j + 2][0] == s[j];
    }
  }

  /** The store when an image has been completed. */
  function Completed(st: K.Store, id: string): K.Store {
    K.Store(st.parts - {id}, st.meta - {id})
  }

  /** Nothing is buffered for the image, and its data fits beside what is buffered for others. */
  ghost predicate TakesWhole(lim: K.Limits, st: K.Store, id: string, data: Bytes) {
    K.Part(st.parts, id) == [] && K.Total(K.Extended(st.parts, id, data)) <= lim.maxPending && |data| <= lim.maxBytes
  }

  /** The command a frame is written as completes an image in one piece. */
  lemma FrameCommand(codec: K.Codec, lim: K.Limits, st: K.Store, payload: string, data: Bytes)
    requires WholeFrame(K.ValuesOf(payload)) && codec.b64decode(K.EncodedOf(payload)) == Some(data)
    requires TakesWhole(lim, st, K.IdOf(payload), data)
    ensures K.Command(codec, lim, st, payload) == (Completed(st, K.IdOf(payload)), K.Out(Some(K.Frame(data, None, None)), None))
  {
    var id := K.IdOf(payload);
    FrameAbsorbed(codec, lim, K.Noted(st, payload), id, data);
    assert K.Noted(st, payload).meta - {id} == st.meta - {id};
  }

  lemma FrameAbsorbed(codec: K.Codec, lim: K.Limits, st: K.Store, id: string, data: Bytes)
    requires TakesWhole(lim, st, id, data) && id in st.meta && K.Get(st.meta[id], "f", "100") == "100"
    ensures K.AbsorbStore(lim, st, id, data, false) == Completed(st, id)
    ensures K.AbsorbOut(codec, lim, st, id, data, false) == K.Out(Some(K.Frame(data, None, None)), None)
  {
    assert [] + data == data;
    assert K.Extended(st.parts, id, data) - {id} == st.parts - {id};
  }

  /** The parameters of a command that sends a whole PNG frame. */
  predicate WholeFrame(values: K.Params) {
    && "a" in values && values["a"] == "T" && "f" in values && values["f"] == "100"
    && "m" !in values && "o" !in values
  }

  function FramePayload(encoded: string, columns: int, rows: int, imageId: Option<int>): string {
    Join(Items(FrameParams(columns, rows, imageId)), ',') + ";" + encoded
  }

  lemma FramePayloadCompletes(codec: K.Codec, lim: K.Limits, st: K.Store, encoded: string, data: Bytes, columns: int, rows: int,
                              imageId: Option<int>, id: string)
    requires codec.b64decode(encoded) == Some(data) && id == K.IdOf(FramePayload(encoded, columns, rows, imageId))
    requires TakesWhole(lim, st, id, data)
    ensures K.Command(codec, lim, st, FramePayload(encoded, columns, rows, imageId))
      == (Completed(st, id), K.Out(Some(K.Frame(data, None, None)), None))
  {
    var ps, payload := FrameParams(columns, rows, imageId), FramePayload(encoded, columns, rows, imageId);
    FrameParamsQuiet(columns, rows, imageId);
    CommandReads(ps, encoded);
    PayloadParams(ps, payload);
    FrameCommand(codec, lim, st, payload, data);
  }

  lemma SequenceIsPayload(encoded: string, columns: int, rows: int, imageId: Option<int>)
    requires '\U{1B}' !in encoded
    ensures GraphicsSequence(encoded, columns, rows, imageId)
      == C.KITTY_START + FramePayload(encoded, columns, rows, imageId) + C.GRAPHICS_END
    ensures '\U{1B}' !in FramePayload(encoded, columns, rows, imageId)
  {
    var ps := FrameParams(columns, rows, imageId);
    FrameParamsQuiet(columns, rows, imageId);
    CommandReads(ps, encoded);
    Grouped(C.KITTY_START, Join(Items(ps), ','), ";", encoded, C.GRAPHICS_END);
  }

  lemma Grouped(a: string, b: string, c: string, d: string, e: string)
    ensures a + b + c + d + e == a + (b + c + d) + e
  {
  }

  /** The session after a whole frame, and what it emits: the frame, while the limit on frames allows it. */
  function AfterFrame(lim: K.Limits, s: C.Session, id: string): C.Session {
    C.Session(C.State(Completed(s.st.store, id), s.st.framesSeen + if s.st.framesSeen < lim.maxFrames then 1 else 0), "")
  }

  function FrameEmitted(lim: K.Limits, s: C.Session, data: Bytes): C.Emitted {
    C.Emitted(if s.st.framesSeen < lim.maxFrames then [K.Frame(data, None, None)] else [], [])
  }

  /** A frame written as a Kitty sequence is read back, with exactly its bytes, by a compositor in any state
      that is not inside another sequence and buffers nothing for the image; other images stay as they are. */
  lemma SequenceRoundTrip(codec: K.Codec, lim: K.Limits, s: C.Session, encoded: string, data: Bytes, columns: int, rows: int,
                          imageId: Option<int>, id: string)
    requires codec.b64decode(encoded) == Some(data) && '\U{1B}' !in encoded
    requires C.FirstStart(s.pending) < 0 && id == K.IdOf(FramePayload(encoded, columns, rows, imageId))
    requires TakesWhole(lim, s.st.store, id, data)
    ensures C.Fed(codec, lim, s, GraphicsSequence(encoded, columns, rows, imageId)) == (AfterFrame(lim, s, id), FrameEmitted(lim, s, data))
  {
    var text, payload := GraphicsSequence(encoded, columns, rows, imageId), FramePayload(encoded, columns, rows, imageId);
    FramePayloadCompletes(codec, lim, s.st.store, encoded, data, columns, rows, imageId, id);
    SequenceIsPayload(encoded, columns, rows, imageId);
    WholeSequence(payload);
    FrameHandled(codec, lim, s, payload, id, data);
    OneSequence(codec, lim, s.st, text, "_G" + payload, AfterFrame(lim, s, id).st, FrameEmitted(lim, s, data));
    BehindJunk(codec, lim, s.st, s.pending, text);
  }

  /** Junk in front of a sequence does not matter. */
  lemma BehindJunk(codec: K.Codec, lim: K.Limits, st: C.State, junk: string, s: string)
    requires C.FirstStart(junk) < 0 && s != "" && s[0] == '\U{1B}' && C.FirstStart(s) == 0
    ensures C.Drain(codec, lim, st, junk + s) == C.Drain(codec, lim, st, s)
  {
    var whole := junk + s;
    forall j | 0 <= j < |junk| ensures !C.IsStart(whole, j) {
      NoStartInJunk(junk, s, j);
    }
    assert whole[|junk|..] == s;
    C.StartInSuffix(whole, |junk|);
    C.DropJunk(codec, lim, st, whole, |junk|);
  }

  lemma NoStartInJunk(junk: string, s: string, j: nat)
    requires C.FirstStart(junk) < 0 && s != "" && s[0] == '\U{1B}' && j < |junk|
    ensures !C.IsStart(junk + s, j)
  {
    var whole := junk + s;
    if C.IsStart(whole, j) {
      StartSigns(whole, j);
      if j + 2 <= |junk| {
        assert !C.IsStart(junk, j);
        StartSigns(junk, j);
      }
    }
  }

  /** A start by its characters. */
  lemma StartSigns(s: string, j: nat)
    ensures C.IsStart(s, j) <==>
      j + 2 <= |s| && s[j] == '\U{1B}' && (s[j + 1] == 'P' || (j + 3 <= |s| && s[j + 1] == '_' && s[j + 2] == 'G'))
  {
    PairOccurs(s, '\U{1B}', 'P', j);
    assert C.SIXEL_START == ['\U{1B}', 'P'];
    if j + 3 <= |s| {
      assert s[j..j + 3] == [s[j], s[j + 1], s[j + 2]];
      assert C.KITTY_START == ['\U{1B}', '_', 'G'];
    }
  }

  lemma PayloadParams(ps: seq<(char, string)>, payload: string)
    requires QuietParams(ps) && ('a', "T") in ps && ('f', "100") in ps
    requires forall p :: p in ps ==> FrameLike(p)
    requires K.ValuesOf(payload) == K.ParamsOf(Items(ps))
    ensures WholeFrame(K.ValuesOf(payload))
  {
    ParamReads(ps, 'a', "T");
    ParamReads(ps, 'f', "100");
    ParamReads(ps, 'm', "");
    ParamReads(ps, 'o', "");
  }

  /** One sequence with nothing behind it is handled, and leaves nothing pending. */
  lemma OneSequence(codec: K.Codec, lim: K.Limits, st: C.State, s: string, sequence: string, next: C.State, e: C.Emitted)
    requires C.FirstStart(s) == 0 && Find(s[0..], C.GRAPHICS_END, 3) == |s| - 2 && |s| >= 3
    requires s[0..][1..|s| - 2] == sequence && s[0..][|s| - 2 + 2..] == ""
    requires C.Handle(codec, lim, st, sequence) == (next, e)
    ensures C.Drain(codec, lim, st, s) == (next, "", e)
  {
    assert C.FirstStart("") < 0;
    C.PlusZero(e);
  }

  lemma FrameHandled(codec: K.Codec, lim: K.Limits, s: C.Session, payload: string, id: string, data: Bytes)
    requires K.Command(codec, lim, s.st.store, payload) == (Completed(s.st.store, id), K.Out(Some(K.Frame(data, None, None)), None))
    ensures C.Handle(codec, lim, s.st, "_G" + payload) == (AfterFrame(lim, s, id).st, FrameEmitted(lim, s, data))
  {
    var sequence := "_G" + payload;
    assert sequence[2..] == payload && "_G" <= sequence;
  }
}
