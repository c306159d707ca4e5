/** Sending an archived response (wpr/httpproxy.py): the header it may gain, the chunks its delays let
    through, and what the client reads back. */
module HttpProxy {
  import opened Basics
  import opened PyStrings
  import opened Numerals
  import opened HttpArchive
  import opened ChunkedCoding

  const LENGTH_KEY := "content-length"

  /** An unchunked response without a content-length gains one, for the whole body. */
  function WithLength(r: Response): Response {
    if r.Chunked() || GetHeader(r.headers, LENGTH_KEY).Some? then r
    else r.(headers := r.headers + [(LENGTH_KEY, Print(|Concat(r.data)|, 10))])
  }

  function SentHeaders(headers: seq<Header>): seq<Header> {
    if headers == [] then []
    else (if headers[0].0 == "server" then [] else [headers[0]]) + SentHeaders(headers[1..])
  }

  /** `time.sleep` raises on a negative argument. */
  predicate CanSleep(ms: int, useDelays: bool) {
    useDelays ==> ms >= 0
  }

  /** How many of the zipped chunks and delays are written before a sleep fails. */
  function Written(data: seq<string>, delays: seq<int>, useDelays: bool): (n: nat)
    ensures n <= |data| && n <= |delays|
  {
    if data == [] || delays == [] || !CanSleep(delays[0], useDelays) then 0
    else 1 + Written(data[1..], delays[1..], useDelays)
  }

  function Framed(chunks: seq<string>, chunked: bool): string {
    if chunked then EncodeChunks(chunks) else Concat(chunks)
  }

  predicate Completes(data: seq<string>, delays: seq<int>, useDelays: bool) {
    var n := Written(data, delays, useDelays);
    n == |data| || n == |delays|
  }

  /** Whether the status line and headers go out at all. */
  predicate SendsHead(r: Response, useDelays: bool) {
    useDelays ==> r.delays.Timed? && r.delays.headers >= 0
  }

  /** How many chunks are written. */
  function SentChunks(r: Response, useDelays: bool): (n: nat)
    ensures n <= |r.data|
  {
    if r.delays.Timed? && SendsHead(r, useDelays) then Written(r.data, r.delays.data, useDelays) else 0
  }

  /** Whether the sending ends without an exception. */
  predicate Finishes(r: Response, useDelays: bool) {
    r.delays.Timed? && SendsHead(r, useDelays) && Completes(r.data, r.delays.data, useDelays)
  }

  function BodyBytes(r: Response, useDelays: bool): string {
    Framed(r.data[..SentChunks(r, useDelays)], r.Chunked())
    + (if r.Chunked() && Finishes(r, useDelays) then LAST_CHUNK else "")
  }

  // ---------------------------------------------------------------- which chunks are written

  /** Chunk `i` has a delay, and no sleep up to it is negative, where there is any sleeping. */
  predicate Reached(r: Response, useDelays: bool, i: nat) {
    && r.delays.Timed? && i < |r.delays.data|
    && (useDelays ==> r.delays.headers >= 0 && forall j :: 0 <= j <= i ==> r.delays.data[j] >= 0)
  }

  lemma {:induction false} WrittenMeans(data: seq<string>, delays: seq<int>, useDelays: bool, i: nat)
    ensures i < Written(data, delays, useDelays)
            <==> i < |data| && i < |delays| && forall j :: 0 <= j <= i ==> CanSleep(delays[j], useDelays)
  {
    if data != [] && delays != [] && i > 0 {
      WrittenMeans(data[1..], delays[1..], useDelays, i - 1);
      var more := delays[1..];
      if i < |delays| {
        assert forall j :: 0 < j <= i ==> delays[j] == more[j - 1];
        assert forall j :: 0 <= j <= i - 1 ==> more[j] == delays[j + 1];
      }
    }
  }

  /** A chunk is written exactly when it is reached. */
  lemma SentMeans(r: Response, useDelays: bool, i: nat)
    ensures i < SentChunks(r, useDelays) <==> i < |r.data| && Reached(r, useDelays, i)
  {
    if r.delays.Timed? {
      WrittenMeans(r.data, r.delays.data, useDelays, i);
    }
  }

  /** A delay for every chunk, and no negative sleep, where there is any sleeping. */
  predicate SendsAll(r: Response, useDelays: bool) {
    && r.delays.Timed? && |r.data| <= |r.delays.data|
    && (useDelays ==> r.delays.headers >= 0 && forall i :: 0 <= i < |r.data| ==> r.delays.data[i] >= 0)
  }

  lemma AllSent(r: Response, useDelays: bool)
    ensures SendsAll(r, useDelays) <==> Finishes(r, useDelays) && SentChunks(r, useDelays) == |r.data|
  {
    if r.data != [] {
      SentMeans(r, useDelays, |r.data| - 1);
    }
  }

  // ---------------------------------------------------------------- what reaches the client

  /** What a client reads of any chunked response. The chunks written that precede the first empty one
      always arrive. If one of them is empty, or the sending finishes, they are read as a complete body;
      chunks without a delay vanish without a trace. If a sleep fails first, reading goes on into whatever
      comes next on the connection. */
  lemma ClientReads(r: Response, useDelays: bool, tail: string)
    requires r.Chunked()
    ensures var n := SentChunks(r, useDelays);
      var k := FirstEmpty(r.data[..n]);
      var rest := if Finishes(r, useDelays) then LAST_CHUNK + tail else tail;
      ReadBody(BodyBytes(r, useDelays) + tail)
      == if k < n then Body(r.data[..k], EncodeChunks(r.data[k + 1..n]) + rest)
         else if Finishes(r, useDelays) then Body(r.data[..n], tail)
         else Prepend(r.data[..n], ReadBody(tail))
  {
    hide ReadBody, FirstEmpty, EncodeChunks, SentChunks, Finishes;
    var n := SentChunks(r, useDelays);
    var sent := r.data[..n];
    var rest := if Finishes(r, useDelays) then LAST_CHUNK + tail else tail;
    Associates(EncodeChunks(sent), LAST_CHUNK, tail);
    assert EncodeChunks(sent) + "" == EncodeChunks(sent);
    ReadPrefix(sent, rest);
    ReadLastChunk(tail);
    var k := FirstEmpty(sent);
    assert sent[..k] == r.data[..k];
    assert k < n ==> sent[k + 1..] == r.data[k + 1..n];
    assert sent + [] == sent;
  }

  /** The client gets the archived chunks, and consumes exactly the message, if and only if no sleep
      fails before the last chunk, no chunk lacks a delay and none is empty. */
  lemma NothingDropped(r: Response, useDelays: bool, tail: string)
    requires r.Chunked()
    ensures ReadBody(BodyBytes(r, useDelays) + tail) == Body(r.data, tail)
            <==> SendsAll(r, useDelays) && forall c :: c in r.data ==> c != ""
  {
    hide ReadBody, FirstEmpty, BodyBytes, SentChunks, Finishes, SendsAll, EncodeChunks;
    ClientReads(r, useDelays, tail);
    AllSent(r, useDelays);
    ReadingConsumes(tail);
    var n := SentChunks(r, useDelays);
    var k := FirstEmpty(r.data[..n]);
    if k < n {
      assert r.data[k] in r.data && |r.data[..k]| < |r.data|;
    } else if n == |r.data| {
      assert r.data[..n] == r.data;
      assert forall i :: 0 <= i < n ==> r.data[..n][i] == r.data[i];
    } else {
      assert |r.data[..n]| < |r.data|;
    }
  }

  /** When the sending is cut short and nothing follows on the connection, reading fails, unless an empty
      chunk was written before, which reads as the end. */
  lemma CutShort(r: Response, useDelays: bool)
    requires r.Chunked() && !Finishes(r, useDelays)
    ensures ReadBody(BodyBytes(r, useDelays)) == IncompleteRead
            <==> forall i :: 0 <= i < SentChunks(r, useDelays) ==> r.data[i] != ""
  {
    hide FirstEmpty, BodyBytes, SentChunks, Finishes, EncodeChunks;
    ClientReads(r, useDelays, "");
    assert BodyBytes(r, useDelays) + "" == BodyBytes(r, useDelays);
    assert ReadBody("") == IncompleteRead;
    hide ReadBody;
    var n := SentChunks(r, useDelays);
    var k := FirstEmpty(r.data[..n]);
    if k < n {
      assert r.data[k] == "";
    } else {
      assert forall i :: 0 <= i < n ==> r.data[..n][i] == r.data[i];
    }
  }

  const CHUNKED_HEADERS := [("transfer-encoding", "chunked")]

  /** A page of two chunks with one negative delay: the second chunk is never sent, and the client, which
      got the first, fails on the missing rest. */
  lemma NegativeDelayExample()
    ensures var r := Response(11, 200, "OK", CHUNKED_HEADERS, ["first", "second"], Timed(0, [0, -1]));
      && r.Aligned() && BodyBytes(r, false) == EncodeChunks(["first", "second"]) + LAST_CHUNK
      && BodyBytes(r, true) == EncodeChunks(["first"]) && ReadBody(BodyBytes(r, true)) == IncompleteRead
  {
    var r := Response(11, 200, "OK", CHUNKED_HEADERS, ["first", "second"], Timed(0, [0, -1]));
    SentMeans(r, true, 0);
    SentMeans(r, true, 1);
    assert SentChunks(r, true) == 1;
    AllSent(r, true);
    AllSent(r, false);
    assert Reached(r, true, 0) && !Reached(r, true, 1);
    assert !Finishes(r, true) && SendsAll(r, false);
    hide SentChunks, Finishes, EncodeChunks, ReadBody;
    CutShort(r, true);
    assert r.data[..1] == ["first"] && r.data[..2] == r.data;
    assert EncodeChunks(["first"]) + "" == EncodeChunks(["first"]);
  }

  lemma GetAppended(headers: seq<Header>, key: string, value: string)
    requires GetHeader(headers, key).None?
    ensures GetHeader(headers + [(key, value)], key) == Some(value)
    ensures CountHeader(headers, key) == 0 && CountHeader(headers + [(key, value)], key) == 1
  {
    CountZero(headers, key);
    CountAppended(headers, key, value);
    CountZero(headers + [(key, value)], key);
    AppendedIsSet(headers, key, value);
    SetThenGet(headers, key, value, key);
  }

  lemma {:induction false} AppendedIsSet(headers: seq<Header>, key: string, value: string)
    requires GetHeader(headers, key).None?
    ensures headers + [(key, value)] == SetHeader(headers, key, value)
  {
    if headers != [] {
      AppendedIsSet(headers[1..], key, value);
      assert headers + [(key, value)] == [headers[0]] + (headers[1..] + [(key, value)]);
    }
  }

  lemma {:induction false} CountAppended(headers: seq<Header>, key: string, value: string)
    ensures CountHeader(headers + [(key, value)], key) == CountHeader(headers, key) + 1
  {
    if headers != [] {
      CountAppended(headers[1..], key, value);
      assert (headers + [(key, value)])[1..] == headers[1..] + [(key, value)];
    }
  }

  /** Every chunk that holds anything is written. */
  ghost predicate SendsEveryByte(r: Response, useDelays: bool) {
    forall i :: 0 <= i < |r.data| && r.data[i] != "" ==> Reached(r, useDelays, i)
  }

  /** An unchunked response loses exactly the chunks from the first that is not reached. When the recorded
      lengths are right, every content-length it is sent with tells the number of bytes written if and
      only if no byte is lost. At most one content-length is gained, and sending again gains none. */
  lemma DeclaredLengthIsWritten(r: Response, useDelays: bool)
    requires !r.Chunked()
    ensures var r' := WithLength(r);
      var written := BodyBytes(r', useDelays);
      && written + Concat(r.data[SentChunks(r, useDelays)..]) == Concat(r.data)
      && (LengthsSay(r.headers, |Concat(r.data)|) ==>
            (LengthsSay(r'.headers, |written|) <==> SendsEveryByte(r, useDelays)))
      && 1 <= CountHeader(r'.headers, LENGTH_KEY) <= Max(1, CountHeader(r.headers, LENGTH_KEY))
      && WithLength(r') == r'
  {
    GainsLength(r);
    hide SendsEveryByte;
    var r' := WithLength(r);
    var n, sent := |Concat(r.data)|, SentChunks(r, useDelays);
    assert SentChunks(r', useDelays) == sent;
    assert BodyBytes(r', useDelays) == Concat(r.data[..sent]) + "";
    assert r.data == r.data[..sent] + r.data[sent..];
    ConcatPlus(r.data[..sent], r.data[sent..]);
    hide BodyBytes, SentChunks;
    NothingLost(r, useDelays);
    LengthsAgree(r'.headers, n, |BodyBytes(r', useDelays)|);
  }

  /** Right lengths are right for one number only. */
  lemma LengthsAgree(headers: seq<Header>, m: nat, n: nat)
    requires CountHeader(headers, LENGTH_KEY) >= 1
    ensures LengthsSay(headers, m) ==> (LengthsSay(headers, n) <==> m == n)
  {
    CountZero(headers, LENGTH_KEY);
    var h :| h in headers && h.0 == LENGTH_KEY;
    SamePrint(m, n);
  }

  /** What is lost is empty exactly when every non-empty chunk is written. */
  lemma NothingLost(r: Response, useDelays: bool)
    ensures Concat(r.data[SentChunks(r, useDelays)..]) == "" <==> SendsEveryByte(r, useDelays)
  {
    var n := SentChunks(r, useDelays);
    EmptyConcat(r.data[n..]);
    forall i | 0 <= i < |r.data| ensures i < n <==> Reached(r, useDelays, i) {
      SentMeans(r, useDelays, i);
    }
    hide SentChunks, Reached;
    assert forall i :: n <= i < |r.data| ==> r.data[n..][i - n] == r.data[i];
  }

  lemma {:induction false} EmptyConcat(chunks: seq<string>)
    ensures Concat(chunks) == "" <==> forall i :: 0 <= i < |chunks| ==> chunks[i] == ""
  {
    if chunks != [] {
      EmptyConcat(chunks[1..]);
      assert forall i :: 0 < i < |chunks| ==> chunks[i] == chunks[1..][i - 1];
    }
  }

  lemma SamePrint(m: nat, n: nat)
    ensures Print(m, 10) == Print(n, 10) <==> m == n
  {
    PrintParse(m, 10);
    PrintParse(n, 10);
  }

  lemma GainsLength(r: Response)
    ensures var r' := WithLength(r);
      && r'.Chunked() == r.Chunked() && WithLength(r') == r'
      && (!r.Chunked() ==> 1 <= CountHeader(r'.headers, LENGTH_KEY) <= Max(1, CountHeader(r.headers, LENGTH_KEY)))
      && (LengthsSay(r.headers, |Concat(r.data)|) ==> LengthsSay(r'.headers, |Concat(r.data)|))
  {
    var r' := WithLength(r);
    CountZero(r.headers, LENGTH_KEY);
    if r' != r {
      var value := Print(|Concat(r.data)|, 10);
      GetAppended(r.headers, LENGTH_KEY, value);
      AppendedIsSet(r.headers, LENGTH_KEY, value);
      SetThenGet(r.headers, LENGTH_KEY, value, "transfer-encoding");
    }
  }

  // ---------------------------------------------------------------- the headers on the wire

  lemma {:induction false} SentAppend(a: seq<Header>, b: seq<Header>)
    ensures SentHeaders(a + b) == SentHeaders(a) + SentHeaders(b)
  {
    if a == [] {
      assert a + b == b;
    } else {
      SentAppend(a[1..], b);
      TailOfSum(a, b);
    }
  }

  /** Only the server's own name is held back: every other header is sent as it is recorded, as often and with
      the same value. */
  lemma {:induction false} SentMatchesRecorded(headers: seq<Header>, key: string)
    ensures key != "server" ==>
              && GetHeader(SentHeaders(headers), key) == GetHeader(headers, key)
              && CountHeader(SentHeaders(headers), key) == CountHeader(headers, key)
    ensures CountHeader(SentHeaders(headers), "server") == 0
  {
    if headers != [] {
      SentMatchesRecorded(headers[1..], key);
      if headers[0].0 != "server" {
        assert SentHeaders(headers)[1..] == SentHeaders(headers[1..]);
      } else {
        assert SentHeaders(headers) == SentHeaders(headers[1..]);
      }
    }
  }

  /** Headers are sent in order, and all of them when there is no server name among them. */
  lemma {:induction false} SentInOrder(headers: seq<Header>)
    ensures CountHeader(headers, "server") == 0 ==> SentHeaders(headers) == headers
    ensures forall h :: h in SentHeaders(headers) <==> h in headers && h.0 != "server"
  {
    if headers != [] {
      SentInOrder(headers[1..]);
      assert headers == [headers[0]] + headers[1..];
    }
  }

  lemma SentLengths(headers: seq<Header>, n: nat)
    ensures LengthsSay(SentHeaders(headers), n) <==> LengthsSay(headers, n)
  {
    SentInOrder(headers);
  }

  /** What a client is told about the body it gets. It is told that the body is chunked exactly when the bytes are,
      and for an unchunked response whose recorded lengths are right it is told a length, which is the
      number of bytes written if and only if none is lost. */
  lemma ClientIsToldRight(r: Response, useDelays: bool)
    ensures var r' := WithLength(r);
      var sent := SentHeaders(r'.headers);
      var written := BodyBytes(r', useDelays);
      if GetHeader(sent, "transfer-encoding") == Some("chunked")
      then && sent == SentHeaders(r.headers)
           && written == EncodeChunks(r.data[..SentChunks(r, useDelays)]) + (if Finishes(r, useDelays) then LAST_CHUNK else "")
      else && written == Concat(r.data[..SentChunks(r, useDelays)])
           && CountHeader(sent, LENGTH_KEY) >= 1
           && (LengthsSay(r.headers, |Concat(r.data)|) ==>
                 (LengthsSay(sent, |written|) <==> SendsEveryByte(r, useDelays)))
  {
    var r' := WithLength(r);
    GainsLength(r);
    SentMatchesRecorded(r'.headers, "transfer-encoding");
    SentMatchesRecorded(r'.headers, LENGTH_KEY);
    hide SentHeaders, GetHeader, CountHeader;
    if r.Chunked() {
      assert r' == r;
    } else {
      DeclaredLengthIsWritten(r, useDelays);
      SentLengths(r'.headers, |BodyBytes(r', useDelays)|);
      hide SendsEveryByte, LengthsSay, WithLength;
      assert SentChunks(r', useDelays) == SentChunks(r, useDelays);
    }
  }

  // ---------------------------------------------------------------- the handler

  /** What the handler has put on the connection. */
  class Connection {
    var headSent: bool
    var status: int
    var headers: seq<Header>
    var body: string

    constructor ()
      ensures !headSent && headers == [] && body == ""
    {
      headSent, status, headers, body := false, 0, [], "";
    }
  }

  /** `send_archived_http_response`. The response object keeps a header it gains; an exception (a failing
      sleep, delays without a list) ends the sending where it happens. */
  method SendArchivedHttpResponse(response: ArchivedHttpResponse, conn: Connection, useDelays: bool)
    requires !conn.headSent && conn.headers == [] && conn.body == ""
    modifies response`headers, conn
    ensures response.Value() == WithLength(old(response.Value()))
    ensures conn.headSent <==> (useDelays ==> response.delays.Timed? && response.delays.headers >= 0)
    ensures conn.headSent ==> conn.status == response.status && conn.headers == SentHeaders(response.headers)
    ensures forall k :: conn.headSent && k != "server" ==> GetHeader(conn.headers, k) == GetHeader(response.headers, k)
    ensures conn.body == BodyBytes(response.Value(), useDelays)
  {
    var isChunked := response.Value().Chunked();
    var hasContentLength := GetHeader(response.headers, LENGTH_KEY).Some?;
    if !isChunked && !hasContentLength {
      AppendedIsSet(response.headers, LENGTH_KEY, Print(|Concat(response.responseData)|, 10));
      SetThenGet(response.headers, LENGTH_KEY, Print(|Concat(response.responseData)|, 10), "transfer-encoding");
      response.headers := response.headers + [(LENGTH_KEY, Print(|Concat(response.responseData)|, 10))];
    }
    if useDelays && (!response.delays.Timed? || response.delays.headers < 0) {
      return;
    }
    conn.headSent, conn.status := true, response.status;
    SendHeaders(response.headers, conn);
    forall k | k != "server" ensures GetHeader(conn.headers, k) == GetHeader(response.headers, k) {
      SentMatchesRecorded(response.headers, k);
    }
    if !response.delays.Timed? {
      return;
    }
    SendBody(response.responseData, response.delays.data, isChunked, useDelays, conn);
  }

  method SendHeaders(headers: seq<Header>, conn: Connection)
    requires conn.headers == []
    modifies conn`headers
    ensures conn.headers == SentHeaders(headers)
  {
    for i := 0 to |headers|
      invariant conn.headers + SentHeaders(headers[i..]) == SentHeaders(headers)
    {
      if headers[i].0 != "server" {
        conn.headers := conn.headers + [headers[i]];
      }
    }
  }

  method SendBody(data: seq<string>, delays: seq<int>, isChunked: bool, useDelays: bool, conn: Connection)
    requires conn.body == ""
    modifies conn`body
    ensures var n := Written(data, delays, useDelays);
      conn.body == Framed(data[..n], isChunked)
                   + (if isChunked && Completes(data, delays, useDelays) then LAST_CHUNK else "")
  {
    var size := if |data| < |delays| then |data| else |delays|;
    for i := 0 to size
      invariant conn.body == Framed(data[..i], isChunked)
      invariant Written(data, delays, useDelays) == i + Written(data[i..], delays[i..], useDelays)
    {
      if useDelays && delays[i] < 0 {
        return;
      }
      FramedMore(data[..i], data[i], isChunked);
      assert data[..i + 1] == data[..i] + [data[i]];
      if isChunked {
        conn.body := conn.body + EncodeChunk(data[i]);
      } else {
        conn.body := conn.body + data[i];
      }
    }
    if isChunked {
      conn.body := conn.body + LAST_CHUNK;
    }
  }

  lemma {:induction false} FramedMore(chunks: seq<string>, chunk: string, isChunked: bool)
    ensures Framed(chunks + [chunk], isChunked)
            == Framed(chunks, isChunked) + (if isChunked then EncodeChunk(chunk) else chunk)
  {
    if chunks == [] {
      assert chunks + [chunk] == [chunk];
      assert EncodeChunk(chunk) + "" == EncodeChunk(chunk) && chunk + "" == chunk;
    } else {
      FramedMore(chunks[1..], chunk, isChunked);
      assert (chunks + [chunk])[1..] == chunks[1..] + [chunk];
    }
  }
}
