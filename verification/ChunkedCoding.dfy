/** Chunked transfer coding (section 3.6.1 of RFC 2616) as this repository reads it
    (wpr/httpclient.py) and writes it (wpr/httpproxy.py). */
module ChunkedCoding {
  import opened Basics
  import opened PyStrings
  import opened Numerals

  const CRLF := "\r\n"
  const LAST_CHUNK := "0\r\n\r\n"

  // ---------------------------------------------------------------- writing

  function EncodeChunk(chunk: string): string {
    Print(|chunk|, 16) + CRLF + (chunk + CRLF)
  }

  function EncodeChunks(chunks: seq<string>): string {
    if chunks == [] then "" else EncodeChunk(chunks[0]) + EncodeChunks(chunks[1..])
  }

  // ---------------------------------------------------------------- reading

  /** What reading a chunked body comes to. IncompleteRead: unparsable size or data missing.
      NameError: a chunk extension, whose branch names an undefined variable. */
  datatype Body = Body(chunks: seq<string>, rest: string) | IncompleteRead | NameError

  /** `readline()`: up to and including the first newline, or everything. */
  function Line(input: string): (line: string)
    ensures |line| <= |input| && line == input[..|line|]
    ensures input != "" ==> line != ""
  {
    var i := Find(input, "\n");
    if i < 0 then input else input[..i + 1]
  }

  function AfterLine(input: string): string {
    input[|Line(input)|..]
  }

  function AfterTrailers(input: string): string {
    if Line(input) == "" || Line(input) == CRLF then AfterLine(input)
    else AfterTrailers(AfterLine(input))
  }

  datatype Size = Size(n: int) | NoSize | BadExtension

  function ReadSize(line: string): (size: Size)
    ensures size.Size? ==> line != ""
  {
    if Find(line, ";") >= 0 then BadExtension
    else match IntBase16(line)
      case None => NoSize
      case Some(n) => Size(n)
  }

  function Max(a: int, b: int): int {
    if a > b then a else b
  }

  /** One round of the reading loop: the end, an error, or a chunk and the input behind its line break. */
  datatype Round = Last(rest: string) | Failed(error: Body) | Chunk(data: string, next: string)

  /** `_safe_read`: a non-positive amount reads nothing, a missing byte is an error. */
  function ReadRound(input: string): (round: Round)
    ensures round.Chunk? ==> |round.next| < |input|
    ensures round.Failed? ==> !round.error.Body?
  {
    var rest := AfterLine(input);
    match ReadSize(Line(input))
    case BadExtension => Failed(NameError)
    case NoSize => Failed(IncompleteRead)
    case Size(n) =>
      if n == 0 then Last(rest)
      else if |rest| < Max(n, 0) + 2 then Failed(IncompleteRead)
      else Chunk(rest[..Max(n, 0)], rest[Max(n, 0)..][2..])
  }

  /** The chunks a chunked body holds. */
  function ReadBody(input: string): Body {
    match ReadRound(input)
    case Failed(error) => error
    case Last(rest) => Body([], AfterTrailers(rest))
    case Chunk(data, next) => Prepend([data], ReadBody(next))
  }

  function Prepend(chunks: seq<string>, body: Body): Body {
    match body
    case Body(more, rest) => Body(chunks + more, rest)
    case failure => failure
  }

  // ---------------------------------------------------------------- reading back what was written

  lemma FindChar(prefix: string, c: char, rest: string)
    requires c !in prefix
    ensures Find(prefix + [c] + rest, [c]) == |prefix|
  {
    var t := prefix + [c] + rest;
    forall j | 0 <= j < |prefix| ensures !At(t, [c], j) {
      assert t[j] == prefix[j] != c;
      assert t[j..j + 1][0] == t[j];
    }
    assert t[|prefix|..|prefix| + 1] == [c];
    FindIs(t, [c], |prefix|);
  }

  /** The size line of an encoded chunk, and what follows it. */
  lemma SizeLine(n: nat, rest: string)
    ensures var line := Print(n, 16) + CRLF;
      Line(line + rest) == line && AfterLine(line + rest) == rest && ReadSize(line) == Size(n)
  {
    PrintDigits(n, 16);
    PrintParse(n, 16);
    hide Print, Parse;
    DigitLine(Print(n, 16), n, rest);
  }

  lemma DigitLine(digits: string, n: nat, rest: string)
    requires digits != "" && Parse(digits, 16) == Some(n)
    requires forall c :: c in digits ==> DigitValue(c) >= 0
    ensures var line := digits + CRLF;
      Line(line + rest) == line && AfterLine(line + rest) == rest && ReadSize(line) == Size(n)
  {
    var line := digits + CRLF;
    assert line + rest == (digits + "\r") + "\n" + rest;
    assert line == digits + "\r" + "\n";
    DigitLineParses(digits);
    FindChar(digits + "\r", '\n', rest);
    AbsentChar(line, ";");
    hide Parse, IntBase16, Find;
  }

  lemma BlankLine(rest: string)
    ensures Line(CRLF + rest) == CRLF && AfterTrailers(CRLF + rest) == rest
  {
    FindChar("\r", '\n', rest);
    assert CRLF + rest == "\r" + "\n" + rest;
  }

  lemma ReadLastChunk(rest: string)
    ensures ReadBody(LAST_CHUNK + rest) == Body([], rest)
  {
    assert Print(0, 16) == "0";
    assert LAST_CHUNK + rest == (Print(0, 16) + CRLF) + (CRLF + rest);
    SizeLine(0, CRLF + rest);
    BlankLine(rest);
  }

  lemma ReadOneChunk(chunk: string, rest: string)
    requires chunk != ""
    ensures ReadBody(EncodeChunk(chunk) + rest) == Prepend([chunk], ReadBody(rest))
  {
    var line, data := Print(|chunk|, 16) + CRLF, chunk + CRLF + rest;
    assert EncodeChunk(chunk) + rest == line + data;
    SizeLine(|chunk|, data);
    assert data[..|chunk|] == chunk && data[|chunk| + 2..] == rest;
  }

  lemma EmptyChunkEnds()
    ensures EncodeChunk("") == LAST_CHUNK
  {
    assert Print(0, 16) == "0";
  }

  /** Index of the first empty chunk, or the number of chunks. */
  function FirstEmpty(chunks: seq<string>): (k: nat)
    ensures k <= |chunks|
    ensures forall i :: 0 <= i < k ==> chunks[i] != ""
    ensures k < |chunks| ==> chunks[k] == ""
  {
    if chunks == [] || chunks[0] == "" then 0 else 1 + FirstEmpty(chunks[1..])
  }

  /** Reading what was written, whatever follows it: up to the first empty chunk, which reads as the end
      of the body, or else all chunks and then the body that follows. */
  lemma {:induction false} ReadPrefix(chunks: seq<string>, rest: string)
    ensures var k := FirstEmpty(chunks);
      ReadBody(EncodeChunks(chunks) + rest)
      == if k < |chunks| then Body(chunks[..k], EncodeChunks(chunks[k + 1..]) + rest)
         else Prepend(chunks, ReadBody(rest))
  {
    hide ReadBody, EncodeChunk, EncodeChunks;
    if chunks == [] {
      NoChunks(rest);
      EmptyPrepend(ReadBody(rest));
    } else {
      var more := EncodeChunks(chunks[1..]) + rest;
      FirstChunk(chunks, rest);
      if chunks[0] == "" {
        EmptyChunkEnds();
        ReadLastChunk(more);
      } else {
        ReadOneChunk(chunks[0], more);
        ReadPrefix(chunks[1..], rest);
        FirstEmptyOfTail(chunks);
        PrependTwice(chunks[0], chunks[1..], ReadBody(rest));
      }
    }
  }

  lemma PrependTwice(first: string, more: seq<string>, body: Body)
    ensures Prepend([first], Prepend(more, body)) == Prepend([first] + more, body)
  {
    if body.Body? {
      assert [first] + (more + body.chunks) == ([first] + more) + body.chunks;
    }
  }

  /** Reading what was written returns exactly the chunks before the first empty one, and stops right
      behind the message, or behind the empty chunk, which reads as the end. */
  lemma ReadBack(chunks: seq<string>, tail: string)
    ensures var k := FirstEmpty(chunks);
      ReadBody(EncodeChunks(chunks) + (LAST_CHUNK + tail))
      == Body(chunks[..k], if k < |chunks| then EncodeChunks(chunks[k + 1..]) + (LAST_CHUNK + tail) else tail)
  {
    hide ReadBody, EncodeChunks;
    ReadPrefix(chunks, LAST_CHUNK + tail);
    ReadLastChunk(tail);
    assert chunks + [] == chunks == chunks[..|chunks|];
  }

  /** A body that was read to its end has used up at least one byte. */
  lemma {:induction false} ReadingConsumes(input: string)
    ensures ReadBody(input).Body? ==> |ReadBody(input).rest| < |input|
    decreases |input|
  {
    match ReadRound(input)
    case Failed(error) =>
    case Last(rest) => TrailersConsume(rest);
    case Chunk(data, next) => ReadingConsumes(next);
  }

  lemma {:induction false} TrailersConsume(input: string)
    ensures |AfterTrailers(input)| <= |input|
    decreases |input|
  {
    if Line(input) != "" && Line(input) != CRLF {
      TrailersConsume(AfterLine(input));
    }
  }

  lemma NoChunks(rest: string)
    ensures EncodeChunks([]) + rest == rest
  {
  }

  lemma FirstChunk(chunks: seq<string>, rest: string)
    requires chunks != []
    ensures EncodeChunks(chunks) + rest == EncodeChunk(chunks[0]) + (EncodeChunks(chunks[1..]) + rest)
  {
    Associates(EncodeChunk(chunks[0]), EncodeChunks(chunks[1..]), rest);
  }

  lemma FirstEmptyOfTail(chunks: seq<string>)
    requires chunks != [] && chunks[0] != ""
    ensures [chunks[0]] + chunks[1..] == chunks
    ensures var k := FirstEmpty(chunks[1..]);
      && FirstEmpty(chunks) == k + 1
      && chunks[..k + 1] == [chunks[0]] + chunks[1..][..k]
      && (k + 1 < |chunks| ==> chunks[k + 2..] == chunks[1..][k + 1..])
  {
    FirstEmptyBehind(chunks);
    hide FirstEmpty;
    Shifted(chunks, FirstEmpty(chunks[1..]));
  }

  lemma FirstEmptyBehind(chunks: seq<string>)
    requires chunks != [] && chunks[0] != ""
    ensures FirstEmpty(chunks) == FirstEmpty(chunks[1..]) + 1
  {
  }

  lemma Shifted(chunks: seq<string>, k: nat)
    requires k < |chunks|
    ensures chunks[..k + 1] == [chunks[0]] + chunks[1..][..k]
    ensures k + 1 < |chunks| ==> chunks[k + 2..] == chunks[1..][k + 1..]
  {
  }

  /** The round trip is exact, on the list and on the bytes consumed, exactly when no chunk is empty. */
  lemma RoundTripExact(chunks: seq<string>, tail: string)
    ensures ReadBody(EncodeChunks(chunks) + (LAST_CHUNK + tail)) == Body(chunks, tail)
            <==> forall c :: c in chunks ==> c != ""
  {
    ReadBack(chunks, tail);
    var k := FirstEmpty(chunks);
    if k == |chunks| {
      assert chunks[..k] == chunks;
    } else {
      assert |chunks[..k]| < |chunks| && chunks[k] in chunks;
    }
  }

  // ---------------------------------------------------------------- what other senders may write

  /** Trailer lines behind the last chunk. */
  function EncodeTrailers(lines: seq<string>): string {
    if lines == [] then "" else lines[0] + CRLF + EncodeTrailers(lines[1..])
  }

  predicate TrailerLines(lines: seq<string>) {
    lines != [] ==> lines[0] != "" && '\n' !in lines[0] && TrailerLines(lines[1..])
  }

  /** Trailers, which section 3.6.1 of RFC 2616 allows, are read and dropped up to the blank line. */
  lemma {:induction false} TrailersAreDropped(lines: seq<string>, tail: string)
    requires TrailerLines(lines)
    ensures AfterTrailers(EncodeTrailers(lines) + (CRLF + tail)) == tail
    decreases |lines|
  {
    if lines == [] {
      assert EncodeTrailers(lines) + (CRLF + tail) == CRLF + tail;
      BlankLine(tail);
    } else {
      var line, rest := lines[0] + CRLF, EncodeTrailers(lines[1..]) + (CRLF + tail);
      assert EncodeTrailers(lines) + (CRLF + tail) == line + rest;
      assert line + rest == (lines[0] + "\r") + "\n" + rest;
      FindChar(lines[0] + "\r", '\n', rest);
      assert Line(line + rest) == line && AfterLine(line + rest) == rest;
      assert |line| > |CRLF|;
      TrailersAreDropped(lines[1..], tail);
    }
  }

  /** A whole message with trailers reads as its chunks. */
  lemma TrailedMessage(chunks: seq<string>, lines: seq<string>, tail: string)
    requires TrailerLines(lines) && forall i :: 0 <= i < |chunks| ==> chunks[i] != ""
    ensures ReadBody(EncodeChunks(chunks) + ("0" + CRLF + (EncodeTrailers(lines) + (CRLF + tail)))) == Body(chunks, tail)
  {
    var end := EncodeTrailers(lines) + (CRLF + tail);
    TrailersAreDropped(lines, tail);
    assert Print(0, 16) == "0";
    SizeLine(0, end);
    assert ReadBody("0" + CRLF + end) == Body([], tail);
    hide ReadBody, EncodeChunks;
    ReadPrefix(chunks, "0" + CRLF + end);
    assert chunks + [] == chunks;
  }

  /** One round of reading, by its size line: zero ends the body, a positive size takes so many bytes and the two
      behind them, and fails when they are not all there. */
  lemma RoundBySize(digits: string, n: nat, rest: string)
    requires digits != "" && Parse(digits, 16) == Some(n)
    requires forall c :: c in digits ==> DigitValue(c) >= 0
    ensures ReadRound(digits + CRLF + rest)
            == if n == 0 then Last(rest)
               else if |rest| < n + 2 then Failed(IncompleteRead) else Chunk(rest[..n], rest[n + 2..])
  {
    hide Parse;
    DigitLine(digits, n, rest);
  }

  /** A negative size, which `int` accepts, makes an empty chunk of it: only two bytes are skipped. */
  lemma NegativeSize(rest: string)
    requires |rest| >= 2
    ensures ReadRound("-5" + CRLF + rest) == Chunk("", rest[2..])
  {
    assert "-5" + CRLF + rest == "-5\r" + "\n" + rest;
    FindChar("-5\r", '\n', rest);
    AbsentChar("-5\r\n", ";");
    MinusFive();
    hide IntBase16;
    assert Line("-5" + CRLF + rest) == "-5\r\n";
  }

  lemma MinusFive()
    ensures IntBase16("-5\r\n") == Some(-5)
  {
    StripEnd("-5");
    assert "-5" + "\r\n" == "-5\r\n" && "-5"[1..] == "5";
    assert Parse("5", 16) == Some(5);
  }

  /** A size line that is no number ends the reading with the same error as missing data: here any word with
      something in it that is no digit. */
  lemma NoSizeNoBody(word: string, i: nat, rest: string)
    requires i < |word| && DigitValue(word[i]) < 0 && '\n' !in word && ';' !in word
    requires word[0] !in {'0', '+', '-'} && !IsSpace(word[0]) && !IsSpace(word[|word| - 1])
    ensures ReadBody(word + CRLF + rest) == IncompleteRead
  {
    var line := word + CRLF;
    assert line + rest == (word + "\r") + "\n" + rest;
    FindChar(word + "\r", '\n', rest);
    assert Line(line + rest) == line;
    AbsentChar(line, ";");
    WordIsNoNumber(word, i);
    hide IntBase16, Find;
  }

  lemma WordIsNoNumber(word: string, i: nat)
    requires i < |word| && DigitValue(word[i]) < 0
    requires word[0] !in {'0', '+', '-'} && !IsSpace(word[0]) && !IsSpace(word[|word| - 1])
    ensures IntBase16(word + CRLF) == None
  {
    StripEnd(word);
    NotDigits(word, i);
    hide Parse, StripLeft, StripRight;
    assert SkipPrefix(word) == word;
  }

  function Capital(c: char): char {
    if 'a' <= c <= 'z' then c - 'a' + 'A' else c
  }

  function Capitals(s: string): string {
    seq(|s|, i requires 0 <= i < |s| => Capital(s[i]))
  }

  lemma {:induction false} CapitalsParse(s: string)
    ensures Parse(Capitals(s), 16) == Parse(s, 16)
  {
    if |s| > 1 {
      assert Capitals(s)[..|s| - 1] == Capitals(s[..|s| - 1]);
      CapitalsParse(s[..|s| - 1]);
    }
  }

  /** Sizes in capital digits are read as well. */
  lemma CapitalSize(n: nat, rest: string)
    ensures var line := Capitals(Print(n, 16)) + CRLF;
      Line(line + rest) == line && AfterLine(line + rest) == rest && ReadSize(line) == Size(n)
  {
    PrintDigits(n, 16);
    CapitalsParse(Print(n, 16));
    PrintParse(n, 16);
    CapitalDigits(Print(n, 16));
    hide Print, Parse, Capitals;
    DigitLine(Capitals(Print(n, 16)), n, rest);
  }

  lemma CapitalDigits(s: string)
    requires s != "" && forall c :: c in s ==> 0 <= DigitValue(c) < 16
    ensures Capitals(s) != "" && forall c :: c in Capitals(s) ==> DigitValue(c) >= 0
  {
    forall i | 0 <= i < |s| ensures DigitValue(Capitals(s)[i]) >= 0 {
      assert s[i] in s;
    }
  }

  // ---------------------------------------------------------------- chunk extensions

  /** A chunk with what its size line carries behind the size. */
  datatype Extended = Extended(data: string, extension: string)

  /** Nothing, or a semicolon and more on the same line. */
  predicate IsExtension(extension: string) {
    extension != "" ==> extension[0] == ';' && '\n' !in extension
  }

  function EncodeExtended(chunks: seq<Extended>, last: string, tail: string): string {
    if chunks == [] then "0" + last + CRLF + (CRLF + tail)
    else Print(|chunks[0].data|, 16) + chunks[0].extension + CRLF
         + (chunks[0].data + CRLF + EncodeExtended(chunks[1..], last, tail))
  }

  function Plain(chunks: seq<Extended>): seq<string> {
    if chunks == [] then [] else [chunks[0].data] + Plain(chunks[1..])
  }

  predicate Extends(chunks: seq<Extended>, last: string) {
    if chunks == [] then last != "" else chunks[0].extension != "" || Extends(chunks[1..], last)
  }

  /** Chunks that are not empty, with well-formed extensions. */
  predicate Extendable(chunks: seq<Extended>) {
    chunks != [] ==> chunks[0].data != "" && IsExtension(chunks[0].extension) && Extendable(chunks[1..])
  }

  lemma ExtendedLine(n: nat, extension: string, rest: string)
    requires IsExtension(extension) && extension != ""
    ensures ReadRound(Print(n, 16) + extension + CRLF + rest) == Failed(NameError)
  {
    var digits := Print(n, 16);
    var line := digits + extension + CRLF;
    var input := line + rest;
    PrintDigits(n, 16);
    assert input == (digits + extension + "\r") + "\n" + rest;
    FindChar(digits + extension + "\r", '\n', rest);
    assert Line(input) == line;
    assert line == digits + ";" + (extension[1..] + CRLF);
    FindChar(digits, ';', extension[1..] + CRLF);
  }

  lemma WithoutExtension(chunks: seq<Extended>, last: string, tail: string)
    ensures chunks == [] && last == "" ==> EncodeExtended(chunks, last, tail) == LAST_CHUNK + tail
    ensures chunks != [] && chunks[0].extension == "" ==>
              EncodeExtended(chunks, last, tail)
              == EncodeChunk(chunks[0].data) + EncodeExtended(chunks[1..], last, tail)
  {
    if chunks != [] && chunks[0].extension == "" {
      var digits, data, more := Print(|chunks[0].data|, 16), chunks[0].data, EncodeExtended(chunks[1..], last, tail);
      assert digits + "" + CRLF + (data + CRLF + more) == (digits + CRLF + (data + CRLF)) + more;
    }
  }

  /** Extensions are allowed on every size line by section 3.6.1 of RFC 2616. A message of non-empty chunks
      is read exactly when no size line carries one, and ends in a NameError as soon as one does. */
  lemma {:induction false} ExtensionsAreFatal(chunks: seq<Extended>, last: string, tail: string)
    requires Extendable(chunks) && IsExtension(last)
    ensures ReadBody(EncodeExtended(chunks, last, tail))
            == if Extends(chunks, last) then NameError else Body(Plain(chunks), tail)
    decreases |chunks|
  {
    WithoutExtension(chunks, last, tail);
    if chunks == [] {
      if last == "" {
        ReadLastChunk(tail);
      } else {
        assert Print(0, 16) == "0";
        ExtendedLine(0, last, CRLF + tail);
      }
    } else if chunks[0].extension != "" {
      ExtendedLine(|chunks[0].data|, chunks[0].extension,
                   chunks[0].data + CRLF + EncodeExtended(chunks[1..], last, tail));
    } else {
      ReadOneChunk(chunks[0].data, EncodeExtended(chunks[1..], last, tail));
      ExtensionsAreFatal(chunks[1..], last, tail);
      hide ReadBody, EncodeExtended, EncodeChunk;
    }
  }

  /** One chunk of five bytes whose size line says `5;a=b`. */
  lemma ExtensionExample()
    ensures ReadBody("5;a=b\r\nhello\r\n0\r\n\r\n") == NameError
  {
    assert Print(5, 16) == "5";
    ExtendedLine(5, ";a=b", "hello\r\n0\r\n\r\n");
    hide Print, ReadRound;
    ExampleLine();
  }

  lemma ExampleLine()
    ensures "5" + ";a=b" + CRLF + "hello\r\n0\r\n\r\n" == "5;a=b\r\nhello\r\n0\r\n\r\n"
  {
  }

  // ---------------------------------------------------------------- the reading loop

  /** The connection side of `DetailedHTTPResponse`: unread bytes, and a clock whose k-th reading is
      `clock(k)`. */
  class DetailedHttpResponse {
    const chunked: bool
    const clock: nat -> int
    var input: string

    constructor (chunked: bool, clock: nat -> int, input: string)
      ensures this.chunked == chunked && this.clock == clock && this.input == input
    {
      this.chunked, this.clock, this.input := chunked, clock, input;
    }

    method ReadLine() returns (line: string)
      modifies `input
      ensures line == Line(old(input)) && input == AfterLine(old(input))
    {
      line := Line(input);
      input := AfterLine(input);
    }

    method SkipTrailers()
      modifies `input
      ensures input == AfterTrailers(old(input))
    {
      while true
        invariant AfterTrailers(input) == AfterTrailers(old(input))
        decreases |input|
      {
        var line := ReadLine();
        if line == "" || line == CRLF {
          break;
        }
      }
    }

    method SafeRead(amount: int) returns (data: Option<string>)
      modifies `input
      ensures data.None? <==> |old(input)| < amount
      ensures data.Some? ==> data.value == old(input)[..Max(amount, 0)] && input == old(input)[Max(amount, 0)..]
    {
      if |input| < amount {
        return None;
      }
      data := Some(input[..Max(amount, 0)]);
      input := input[Max(amount, 0)..];
    }

    /** The size line, a clock reading, the data and its line break. */
    method NextRound(start: int, tick: nat) returns (round: Round, delay: int)
      modifies `input
      ensures round == ReadRound(old(input)) && delay == clock(tick) - start
      ensures round.Last? ==> input == round.rest
      ensures round.Chunk? ==> input == round.next && |input| < |old(input)|
    {
      var line := ReadLine();
      var size := ReadSize(line);
      delay := clock(tick) - start;
      match size {
        case BadExtension => round := Failed(NameError);
        case NoSize => round := Failed(IncompleteRead);
        case Size(n) =>
          if n == 0 {
            return Last(input), delay;
          }
          var data := SafeRead(n);
          if data.None? {
            return Failed(IncompleteRead), delay;
          }
          var lineEnd := SafeRead(2);
          round := if lineEnd.None? then Failed(IncompleteRead) else Chunk(data.value, input);
      }
    }

    /** The whole body is one chunk when it is not chunked; otherwise the chunks and, for each, the time
        from the end of the previous one to its size line. Errors leave no result. */
    method ReadChunks() returns (result: Body, delays: seq<int>)
      modifies `input
      ensures !chunked ==> result == Body([old(input)], "") && delays == [0] && input == ""
      ensures chunked ==> result == ReadBody(old(input))
      ensures result.Body? ==> |delays| == |result.chunks| && input == result.rest
      ensures chunked && result.Body? ==> delays == Gaps(clock, |delays|)
    {
      hide ReadRound, AfterTrailers;
      if !chunked {
        result, delays, input := Body([input], ""), [0], "";
        return;
      }
      var chunks := [];
      delays := [];
      var ticks := 1;
      EmptyPrepend(ReadBody(input));
      while true
        invariant delays == Gaps(clock, |chunks|) && ticks == 2 * |chunks| + 1
        invariant ReadBody(old(input)) == Prepend(chunks, ReadBody(input))
        decreases |input|
      {
        var round, delay := NextRound(clock(ticks - 1), ticks);
        if round.Failed? {
          return round.error, delays;
        }
        if round.Last? {
          break;
        }
        PrependMore(chunks, round.data, ReadBody(input));
        chunks, delays := chunks + [round.data], delays + [delay];
        ticks := ticks + 2;
      }
      SkipTrailers();
      result := Body(chunks, input);
    }
  }

  /** Clock differences between odd readings and the even ones before them. */
  function Gaps(clock: nat -> int, n: nat): (gaps: seq<int>)
    ensures |gaps| == n
  {
    if n == 0 then [] else Gaps(clock, n - 1) + [clock(2 * n - 1) - clock(2 * n - 2)]
  }

  /** The delay of a chunk is the time from the clock reading behind the chunk before it, or at the start, to
      the reading behind its size line. */
  lemma {:induction false} GapIs(clock: nat -> int, n: nat, i: nat)
    requires i < n
    ensures Gaps(clock, n)[i] == clock(2 * i + 1) - clock(2 * i)
  {
    if i < n - 1 {
      GapIs(clock, n - 1, i);
    }
  }

  lemma EmptyPrepend(body: Body)
    ensures Prepend([], body) == body
  {
  }

  lemma PrependMore(chunks: seq<string>, chunk: string, body: Body)
    ensures Prepend(chunks, Prepend([chunk], body)) == Prepend(chunks + [chunk], body)
  {
    if body.Body? {
      assert chunks + ([chunk] + body.chunks) == chunks + [chunk] + body.chunks;
    }
  }
}
