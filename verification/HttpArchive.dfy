/** Archived responses (wpr/httparchive.py): the chunk and delay text codecs, the edits made through
    them, and the in-place response object whose methods carry them out. */
module HttpArchive {
  import opened Basics
  import opened PyStrings
  import opened Numerals

  type Header = (string, string)

  const CHUNK_EDIT_SEPARATOR := "[WEB_PAGE_REPLAY_CHUNK_BOUNDARY]"
  const DELAY_BANNER_LEFT := "[WEB_PAGE_REPLAY_EDIT_ARCHIVE --- "
  const DELAY_BANNER_MIDDLE := "Delays are above. "
  const DELAY_BANNER_RIGHT := "Response content is below.]"
  const DELAY_EDIT_SEPARATOR :=
    "\n" + (DELAY_BANNER_LEFT + (DELAY_BANNER_MIDDLE + DELAY_BANNER_RIGHT)) + "\n"

  /** Unset: falsy in Python. Opaque: a value without a list under 'data'. Milliseconds otherwise. */
  datatype Delays = Unset | Opaque | Timed(headers: int, data: seq<int>)

  datatype Response = Response(
    version: int, status: int, reason: string, headers: seq<Header>, data: seq<string>, delays: Delays)
  {
    /** As many data delays as chunks: what the sender's `zip` relies on. */
    predicate Aligned() {
      delays.Timed? && |delays.data| == |data|
    }
    predicate Compressed() {
      GetHeader(headers, "content-encoding") in {Some("gzip"), Some("deflate")}
    }
    predicate Gzip() {
      GetHeader(headers, "content-encoding") == Some("gzip")
    }
    predicate Chunked() {
      GetHeader(headers, "transfer-encoding") == Some("chunked")
    }
    predicate IsText() {
      match GetHeader(headers, "content-type")
      case None => false
      case Some(t) => t != "" && ("text/" <= t || t == "application/x-javascript")
    }
  }

  /** The unseen zlib layer: one output chunk for every input chunk. */
  datatype Zlib = Zlib(compress: (seq<string>, bool) -> seq<string>,
                       uncompress: (seq<string>, bool) -> seq<string>)
  {
    ghost predicate PerChunk() {
      && (forall cs, g :: |compress(cs, g)| == |cs|)
      && (forall cs, g :: |uncompress(cs, g)| == |cs|)
    }
  }

  /** The unseen JSON layer; loads gives None when the text cannot be parsed. */
  datatype Json = Json(dumps: Delays -> string, loads: string -> Option<Delays>)
  {
    /** An inverse pair, and no delay separator can start inside what it prints. */
    ghost predicate Faithful() {
      forall d :: loads(dumps(d)) == Some(d) && !Contains(dumps(d) + "\n", DELAY_EDIT_SEPARATOR)
    }
  }

  // ---------------------------------------------------------------- headers

  function GetHeader(headers: seq<Header>, key: string): Option<string> {
    if headers == [] then None
    else if headers[0].0 == key then Some(headers[0].1)
    else GetHeader(headers[1..], key)
  }

  function SetHeader(headers: seq<Header>, key: string, value: string): seq<Header> {
    if headers == [] then [(key, value)]
    else if headers[0].0 == key then [(key, value)] + headers[1..]
    else [headers[0]] + SetHeader(headers[1..], key, value)
  }

  function CountHeader(headers: seq<Header>, key: string): nat {
    if headers == [] then 0 else (if headers[0].0 == key then 1 else 0) + CountHeader(headers[1..], key)
  }

  /** Setting a header changes what is read under that key and under no other, and never duplicates it. */
  lemma {:induction false} SetThenGet(headers: seq<Header>, key: string, value: string, other: string)
    ensures var h := SetHeader(headers, key, value);
      && GetHeader(h, other) == (if other == key then Some(value) else GetHeader(headers, other))
      && CountHeader(h, other) == (if other == key && CountHeader(headers, key) == 0 then 1
                                   else CountHeader(headers, other))
  {
    if headers != [] && headers[0].0 != key {
      SetThenGet(headers[1..], key, value, other);
    }
  }

  /** Every recorded content-length says `n`. */
  ghost predicate LengthsSay(headers: seq<Header>, n: nat) {
    forall h :: h in headers && h.0 == "content-length" ==> h.1 == Print(n, 10)
  }

  lemma {:induction false} CountZero(headers: seq<Header>, key: string)
    ensures CountHeader(headers, key) == 0 <==> forall h :: h in headers ==> h.0 != key
    ensures CountHeader(headers, key) == 0 <==> GetHeader(headers, key) == None
  {
    if headers != [] {
      CountZero(headers[1..], key);
    }
  }

  /** The headers behind the first content-length. */
  function LaterHeaders(headers: seq<Header>): seq<Header> {
    if headers == [] then []
    else if headers[0].0 == "content-length" then headers[1..]
    else LaterHeaders(headers[1..])
  }

  /** Setting the length makes every content-length right exactly when those behind the first are. */
  lemma {:induction false} SetLength(headers: seq<Header>, n: nat)
    ensures LengthsSay(SetHeader(headers, "content-length", Print(n, 10)), n) <==> LengthsSay(LaterHeaders(headers), n)
    ensures CountHeader(headers, "content-length") <= 1 ==> LengthsSay(LaterHeaders(headers), n)
  {
    if headers != [] {
      var rest := headers[1..];
      if headers[0].0 == "content-length" {
        CountZero(rest, "content-length");
        LengthsFirst(("content-length", Print(n, 10)), rest, n);
      } else {
        SetLength(rest, n);
        LengthsFirst(headers[0], SetHeader(rest, "content-length", Print(n, 10)), n);
      }
    }
  }

  lemma LengthsFirst(h: Header, rest: seq<Header>, n: nat)
    ensures LengthsSay([h] + rest, n) <==> LengthsSay(rest, n) && (h.0 == "content-length" ==> h.1 == Print(n, 10))
  {
    assert h in [h] + rest;
    assert forall x :: x in rest ==> x in [h] + rest;
  }

  // ---------------------------------------------------------------- responses as values

  function Zeros(n: nat): seq<int> {
    seq(n, _ => 0)
  }

  /** What `fix_delays` leaves; None is the length-mismatch (or missing-key) exception. */
  function FixedDelays(d: Delays, chunks: nat): Option<Delays> {
    match d
    case Unset => Some(Timed(0, Zeros(chunks)))
    case Opaque => None
    case Timed(_, data) => if |data| == chunks then Some(d) else None
  }

  function TextOf(r: Response, z: Zlib): Option<string> {
    if !r.IsText() then None
    else Some(Join(CHUNK_EDIT_SEPARATOR, if r.Compressed() then z.uncompress(r.data, r.Gzip()) else r.data))
  }

  function WithText(r: Response, text: string, z: Zlib): Response {
    var chunks := Split(text, CHUNK_EDIT_SEPARATOR);
    var data := if r.Compressed() then z.compress(chunks, r.Gzip()) else chunks;
    r.(data := data,
       headers := if r.Chunked() then r.headers
                  else SetHeader(r.headers, "content-length", Print(|Concat(data)|, 10)))
  }

  /** Response and raised-flag after `set_delays`: the new delays stay in place even when rejected. */
  function WithDelays(r: Response, text: string, json: Json): (Response, bool) {
    var d := match json.loads(text) case None => r.delays case Some(d) => d;
    match FixedDelays(d, |r.data|)
    case None => (r.(delays := d), true)
    case Some(fixed) => (r.(delays := fixed), false)
  }

  function Edited(r: Response, text: string, z: Zlib, json: Json): (Response, bool) {
    var parts := Split(text, DELAY_EDIT_SEPARATOR);
    if |parts| != 2 then (r, false)
    else
      var (timed, raised) := WithDelays(r, parts[0], json);
      if raised then (timed, true) else (WithText(timed, parts[1], z), false)
  }

  function AsText(r: Response, z: Zlib, json: Json): string {
    Join(DELAY_EDIT_SEPARATOR,
         [json.dumps(r.delays), match TextOf(r, z) case None => "" case Some(t) => t])
  }

  // ---------------------------------------------------------------- the two separators

  lemma ChunkSeparatorBorderFree()
    ensures BorderFree(CHUNK_EDIT_SEPARATOR)
  {
    var sep := CHUNK_EDIT_SEPARATOR;
    assert forall i :: 0 < i < |sep| ==> sep[i] != '[';
    forall b | 0 < b < |sep| ensures sep[..b] != sep[|sep| - b..] {
      assert sep[..b][0] == '[' && sep[|sep| - b..][0] == sep[|sep| - b];
    }
  }

  lemma BannerOnOneLine()
    ensures '\n' !in DELAY_BANNER_LEFT
    ensures '\n' !in DELAY_BANNER_MIDDLE
    ensures '\n' !in DELAY_BANNER_RIGHT
  {
  }

  /** The delay separator starts and ends with a newline, and has no longer border. */
  lemma DelaySeparatorBorders()
    ensures BordersUpTo(DELAY_EDIT_SEPARATOR, 1) && !BorderFree(DELAY_EDIT_SEPARATOR)
  {
    var sep := DELAY_EDIT_SEPARATOR;
    BannerOnOneLine();
    assert forall i :: 0 < i < |sep| - 1 ==> sep[i] != '\n';
    forall b | 1 < b < |sep| ensures sep[..b] != sep[|sep| - b..] {
      assert sep[..b][0] == '\n' && sep[|sep| - b..][0] == sep[|sep| - b];
    }
    assert sep[..1] == sep[|sep| - 1..];
  }

  /** The chunk codec loses nothing exactly on the non-empty lists free of the separator; the other way
      round it loses nothing at all. */
  lemma ChunkCodec(chunks: seq<string>, text: string)
    ensures Split(Join(CHUNK_EDIT_SEPARATOR, chunks), CHUNK_EDIT_SEPARATOR) == chunks
            <==> chunks != [] && AllFree(chunks, CHUNK_EDIT_SEPARATOR)
    ensures Join(CHUNK_EDIT_SEPARATOR, Split(text, CHUNK_EDIT_SEPARATOR)) == text
  {
    ChunkSeparatorBorderFree();
    SplitUndoesJoin(chunks, CHUNK_EDIT_SEPARATOR);
    JoinSplit(text, CHUNK_EDIT_SEPARATOR);
  }

  // ---------------------------------------------------------------- edits

  /** The text form splits back into its delays and its data, whatever chunk text the data is:
      only a delay separator inside the data makes more than two parts. */
  lemma TextFormSplits(delays: string, data: string)
    requires !Contains(delays + "\n", DELAY_EDIT_SEPARATOR)
    ensures Split(Join(DELAY_EDIT_SEPARATOR, [delays, data]), DELAY_EDIT_SEPARATOR)
            == [delays] + Split(data, DELAY_EDIT_SEPARATOR)
    ensures |Split(data, DELAY_EDIT_SEPARATOR)| == 1 <==> !Contains(data, DELAY_EDIT_SEPARATOR)
    ensures !Contains(data, DELAY_EDIT_SEPARATOR) ==> Split(data, DELAY_EDIT_SEPARATOR) == [data]
  {
    var sep := DELAY_EDIT_SEPARATOR;
    DelaySeparatorBorders();
    assert sep[..1] == "\n";
    FirstAtSeam(delays, sep, 1, data);
    assert Join(sep, [delays, data]) == delays + sep + data;
    SplitCut(delays + sep + data, sep, delays, data);
    FindSpec(data, sep);
  }

  /** The chunks as text has them. */
  function PlainChunks(r: Response, z: Zlib): seq<string> {
    if r.Compressed() then z.uncompress(r.data, r.Gzip()) else r.data
  }

  /** The chunks as the response keeps them. */
  function Stored(r: Response, plain: seq<string>, z: Zlib): seq<string> {
    if r.Compressed() then z.compress(plain, r.Gzip()) else plain
  }

  function DataText(r: Response, z: Zlib): string {
    match TextOf(r, z) case None => "" case Some(t) => t
  }

  /** Chunks that survive being written out as text and stored again. */
  ghost predicate Survive(r: Response, z: Zlib) {
    if r.IsText() then
      var plain := PlainChunks(r, z);
      plain != [] && AllFree(plain, CHUNK_EDIT_SEPARATOR) && Stored(r, plain, z) == r.data
    else r.data == Stored(r, [""], z)
  }

  /** Which chunks are compressed, and how, is told by their content-encoding. */
  lemma EncodingDecides(r: Response, plain: seq<string>, z: Zlib)
    ensures var encoding := GetHeader(r.headers, "content-encoding");
      && (encoding == Some("gzip") ==>
            PlainChunks(r, z) == z.uncompress(r.data, true) && Stored(r, plain, z) == z.compress(plain, true))
      && (encoding == Some("deflate") ==>
            PlainChunks(r, z) == z.uncompress(r.data, false) && Stored(r, plain, z) == z.compress(plain, false))
      && (encoding !in {Some("gzip"), Some("deflate")} ==> PlainChunks(r, z) == r.data && Stored(r, plain, z) == plain)
  {
    assert "gzip"[0] == 'g' && "deflate"[0] == 'd';
  }

  /** Text types and one kind of script have a text form: the plain chunks, joined. */
  lemma TextOfMeans(r: Response, z: Zlib)
    ensures TextOf(r, z)
            == match GetHeader(r.headers, "content-type")
               case None => None
               case Some(t) => if "text/" <= t || t == "application/x-javascript"
                               then Some(Join(CHUNK_EDIT_SEPARATOR, PlainChunks(r, z))) else None
  {
  }

  /** What an edit of two parts does. Delays that cannot be parsed leave those there were; others replace them,
      even when they are then rejected because they are not one for each chunk the response had. Missing
      ones become zeros. The chunks are replaced exactly when nothing is rejected. */
  lemma EditMeans(r: Response, text: string, z: Zlib, json: Json)
    requires |Split(text, DELAY_EDIT_SEPARATOR)| == 2
    ensures var parts := Split(text, DELAY_EDIT_SEPARATOR);
      var (r', raised) := Edited(r, text, z, json);
      && (json.loads(parts[0]) == None && r.Aligned() ==> !raised && r'.delays == r.delays)
      && (forall h, d :: json.loads(parts[0]) == Some(Timed(h, d)) ==>
            r'.delays == Timed(h, d) && (raised <==> |d| != |r.data|))
      && (json.loads(parts[0]) == Some(Opaque) ==> raised && r'.delays == Opaque)
      && (json.loads(parts[0]) == Some(Unset) ==>
            !raised && r'.delays.Timed? && r'.delays.headers == 0 && |r'.delays.data| == |r.data|
            && forall i :: 0 <= i < |r.data| ==> r'.delays.data[i] == 0)
      && r'.version == r.version && r'.status == r.status && r'.reason == r.reason
      && (if raised then r'.data == r.data && r'.headers == r.headers
          else r'.data == Stored(r, Split(parts[1], CHUNK_EDIT_SEPARATOR), z))
  {
    hide Split, SetHeader, GetHeader;
  }

  /** Writing any response out as text and reading it back. The edit is skipped exactly when the data
      holds a delay separator, and rejected exactly when the delays did not fit before; neither changes
      anything. Otherwise the chunks stay exactly when there are some, free of the chunk separator and
      restored by compressing them again, or when a response that is not text is one empty chunk; and the
      delays stay unless there were none, which become zeros. */
  lemma EditRoundTrip(r: Response, z: Zlib, json: Json)
    requires json.Faithful() && z.PerChunk()
    ensures var skipped := Contains(DataText(r, z), DELAY_EDIT_SEPARATOR);
      var (r', raised) := Edited(r, AsText(r, z, json), z, json);
      && (raised <==> !skipped && FixedDelays(r.delays, |r.data|).None?)
      && (skipped || raised ==> r' == r)
      && (r'.data == r.data <==> skipped || raised || Survive(r, z))
      && (r'.delays == r.delays <==> skipped || !r.delays.Unset?)
  {
    hide Edited, DataText, WithText, Survive;
    TextFormRead(r, z, json);
    TextSurvives(r, z);
    if FixedDelays(r.delays, |r.data|).Some? {
      WithTextSetsData(r, FixedDelays(r.delays, |r.data|).value, DataText(r, z), z);
    }
  }

  /** What becomes of a response whose own text form is read. */
  lemma TextFormRead(r: Response, z: Zlib, json: Json)
    requires json.Faithful()
    ensures Edited(r, AsText(r, z, json), z, json)
            == if Contains(DataText(r, z), DELAY_EDIT_SEPARATOR) then (r, false)
               else match FixedDelays(r.delays, |r.data|)
                 case None => (r, true)
                 case Some(fixed) => (WithText(r.(delays := fixed), DataText(r, z), z), false)
  {
    hide WithText, TextOf;
    TextFormSplits(json.dumps(r.delays), DataText(r, z));
    assert AsText(r, z, json) == Join(DELAY_EDIT_SEPARATOR, [json.dumps(r.delays), DataText(r, z)]);
    hide DataText, Split, AsText;
  }

  lemma WithTextSetsData(r: Response, delays: Delays, text: string, z: Zlib)
    ensures var r' := WithText(r.(delays := delays), text, z);
      r'.data == WithText(r, text, z).data && r'.delays == delays
  {
  }

  lemma TextSurvives(r: Response, z: Zlib)
    requires z.PerChunk()
    ensures WithText(r, DataText(r, z), z).data == r.data <==> Survive(r, z)
  {
    if r.IsText() {
      var plain := PlainChunks(r, z);
      var again := Split(Join(CHUNK_EDIT_SEPARATOR, plain), CHUNK_EDIT_SEPARATOR);
      assert DataText(r, z) == Join(CHUNK_EDIT_SEPARATOR, plain);
      ChunkCodec(plain, "");
      if plain != [] {
        ChunkSeparatorBorderFree();
        SplitJoin(plain, CHUNK_EDIT_SEPARATOR);
        SplitAllSize(plain, CHUNK_EDIT_SEPARATOR);
      }
    } else {
      NothingInEmpty(CHUNK_EDIT_SEPARATOR);
    }
  }

  const IMAGE := Response(11, 200, "OK", [("content-type", "image/png")], ["PNG"], Timed(0, [0]))

  /** An image of one chunk: reading its text form back, without changing it, leaves an empty chunk. */
  lemma ImageLosesItsData(z: Zlib, json: Json)
    requires json.Faithful()
    ensures Edited(IMAGE, AsText(IMAGE, z, json), z, json).0.data == [""]
  {
    ImageIsNoText();
    NothingInEmpty(CHUNK_EDIT_SEPARATOR);
    AbsentChar("", DELAY_EDIT_SEPARATOR);
    assert DataText(IMAGE, z) == "";
    hide Edited, Split, AsText;
    TextFormRead(IMAGE, z, json);
  }

  /** A page about this very format: its data holds the delay separator, and whatever is edited in its text
      form, behind or in front of that, the edit is skipped. */
  lemma EditIsSkipped(r: Response, delays: string, before: string, after: string, z: Zlib, json: Json)
    requires !Contains(delays + "\n", DELAY_EDIT_SEPARATOR)
    ensures Edited(r, Join(DELAY_EDIT_SEPARATOR, [delays, before + DELAY_EDIT_SEPARATOR + after]), z, json) == (r, false)
  {
    var data := before + DELAY_EDIT_SEPARATOR + after;
    assert data[|before|..|before| + |DELAY_EDIT_SEPARATOR|] == DELAY_EDIT_SEPARATOR;
    assert At(data, DELAY_EDIT_SEPARATOR, |before|);
    TextFormSplits(delays, data);
    hide Split;
  }

  lemma ImageIsNoText()
    ensures !IMAGE.IsText() && !IMAGE.Compressed()
  {
    assert [("content-type", "image/png")][1..] == [];
    assert "image/png"[0] != "text/"[0];
  }

  lemma NothingInEmpty(sep: string)
    requires sep != ""
    ensures Split("", sep) == [""]
  {
  }

  /** For every edit text: the response is still aligned exactly when the text is skipped, or both its
      delays and its chunks number what the response had before. So no edit, however consistent in
      itself, changes the number of chunks and leaves a response that can be sent whole. */
  lemma EditKeepsAlignment(r: Response, text: string, z: Zlib, json: Json)
    requires r.Aligned() && z.PerChunk()
    ensures var parts := Split(text, DELAY_EDIT_SEPARATOR);
      var (r', raised) := Edited(r, text, z, json);
      && (r'.Aligned() <==>
            || |parts| != 2
            || (&& FixedDelays(match json.loads(parts[0]) case None => r.delays case Some(d) => d,
                               |r.data|).Some?
                && |Split(parts[1], CHUNK_EDIT_SEPARATOR)| == |r.data|))
      && (raised ==> !r'.Aligned())
      && (r'.Aligned() ==> |r'.data| == |r.data|)
  {
  }

  /** Setting text on an unchunked response makes content-length tell the length of the new body, with at
      most one entry gained; a second entry, should there be one, keeps what it said. Chunked responses
      keep their headers. */
  lemma WithTextDeclaresLength(r: Response, text: string, z: Zlib)
    ensures var r' := WithText(r, text, z);
      var n := |Concat(r'.data)|;
      if GetHeader(r.headers, "transfer-encoding") == Some("chunked") then r'.headers == r.headers
      else
        && GetHeader(r'.headers, "content-length") == Some(Print(n, 10))
        && (LengthsSay(r'.headers, n) <==> LengthsSay(LaterHeaders(r.headers), n))
        && (CountHeader(r.headers, "content-length") <= 1 ==>
              LengthsSay(r'.headers, n) && CountHeader(r'.headers, "content-length") == 1)
  {
    var n := |Concat(WithText(r, text, z).data)|;
    SetLength(r.headers, n);
    SetThenGet(r.headers, "content-length", Print(n, 10), "content-length");
  }

  // ---------------------------------------------------------------- the response object

  /** The state `__setstate__` receives; older archives carry `server_delays`. */
  datatype Pickled = Pickled(
    version: int, status: int, reason: string, headers: seq<Header>, data: seq<string>,
    serverDelays: Option<seq<int>>, delays: Option<Delays>)
  {
    /** The older entry wins over the newer one. */
    function Timing(): Delays {
      if serverDelays.Some? then Timed(0, serverDelays.value)
      else match delays case None => Unset case Some(d) => d
    }
  }

  class ArchivedHttpResponse {
    var version: int
    var status: int
    var reason: string
    var headers: seq<Header>
    var responseData: seq<string>
    var delays: Delays

    function Value(): Response
      reads this
    {
      Response(version, status, reason, headers, responseData, delays)
    }

    /** The bare object Python makes before `__init__`, `__setstate__` or a copy fills it. */
    constructor Bare() {
    }

    /** A response that is built without an exception is aligned. */
    method Init(version: int, status: int, reason: string, headers: seq<Header>, data: seq<string>,
                delays: Delays) returns (raised: bool)
      modifies this
      ensures raised <==> FixedDelays(delays, |data|).None?
      ensures !raised ==> Value().Aligned()
      ensures Value() == Response(version, status, reason, headers, data,
                                  if delays.Unset? then Timed(0, Zeros(|data|)) else delays)
    {
      this.version, this.status, this.reason := version, status, reason;
      this.headers, this.responseData, this.delays := headers, data, delays;
      raised := FixDelays();
    }

    /** Unpickling: delays of either archive generation, or zeros when there are none. A response that
        is loaded without an exception is aligned. */
    method SetState(state: Pickled) returns (raised: bool)
      modifies this
      ensures raised <==> FixedDelays(state.Timing(), |state.data|).None?
      ensures !raised ==> Value().Aligned()
      ensures Value() == Response(state.version, state.status, state.reason, state.headers, state.data,
                                  if state.Timing().Unset? then Timed(0, Zeros(|state.data|)) else state.Timing())
      ensures state.serverDelays.Some? ==> delays == Timed(0, state.serverDelays.value)
      ensures state.serverDelays.None? && state.delays.Some? && !state.delays.value.Unset? ==> delays == state.delays.value
    {
      version, status, reason := state.version, state.status, state.reason;
      headers, responseData := state.headers, state.data;
      if state.serverDelays.Some? {
        delays := Timed(0, state.serverDelays.value);
      } else if state.delays.None? {
        delays := Unset;
      } else {
        delays := state.delays.value;
      }
      raised := FixDelays();
    }

    method FixDelays() returns (raised: bool)
      modifies `delays
      ensures raised <==> FixedDelays(old(delays), |responseData|).None?
      ensures delays == if old(delays).Unset? then Timed(0, Zeros(|responseData|)) else old(delays)
      ensures !raised <==> Value().Aligned()
    {
      raised := false;
      if delays.Unset? {
        delays := Timed(0, Zeros(|responseData|));
      } else if delays.Opaque? || |delays.data| != |responseData| {
        raised := true;
      }
    }

    /** Overwrites the first entry under the key in place, or appends one. */
    method SetHeaderInPlace(key: string, value: string)
      modifies `headers
      ensures headers == SetHeader(old(headers), key, value)
    {
      ghost var before := headers;
      for i := 0 to |headers|
        invariant headers == before
        invariant SetHeader(before, key, value) == before[..i] + SetHeader(before[i..], key, value)
      {
        if headers[i].0 == key {
          headers := headers[i := (key, value)];
          return;
        }
        assert before[..i] + [before[i]] == before[..i + 1];
      }
      headers := headers + [(key, value)];
    }

    method SetData(text: string, z: Zlib)
      modifies `headers, `responseData
      ensures Value() == WithText(old(Value()), text, z)
    {
      var chunks := Split(text, CHUNK_EDIT_SEPARATOR);
      if Value().Compressed() {
        responseData := z.compress(chunks, Value().Gzip());
      } else {
        responseData := chunks;
      }
      if !Value().Chunked() {
        SetHeaderInPlace("content-length", Print(|Concat(responseData)|, 10));
      }
    }

    method SetDelays(text: string, json: Json) returns (raised: bool)
      modifies `delays
      ensures (Value(), raised) == WithDelays(old(Value()), text, json)
    {
      var parsed := json.loads(text);
      if parsed.Some? {
        delays := parsed.value;
      }
      raised := FixDelays();
    }

    method SetResponseFromText(text: string, z: Zlib, json: Json) returns (raised: bool)
      modifies `headers, `responseData, `delays
      ensures (Value(), raised) == Edited(old(Value()), text, z, json)
    {
      var parts := Split(text, DELAY_EDIT_SEPARATOR);
      if |parts| != 2 {
        return false;
      }
      raised := SetDelays(parts[0], json);
      if !raised {
        SetData(parts[1], z);
      }
    }
  }
}
