/** Script injection (wpr/httpclient.py): where the two patterns match, what is inserted, and what that
    does to the chunk list when the edited text is split again. */
module ScriptInjection {
  import opened Basics
  import opened PyStrings
  import opened Numerals
  import opened HttpArchive

  const HEAD_TAG := "<head"
  const HTML_TAG := "<html"
  const MAX_LEAD := 256
  const OPEN := "<script>"
  const CLOSE := "</script>"

  /** The tag, in any case, starts at `k`. */
  predicate TagAt(text: string, tag: string, k: nat) {
    k + |tag| <= |text| && forall i :: 0 <= i < |tag| ==> Lower(text[k + i]) == tag[i]
  }

  function FindTag(text: string, tag: string, from: nat): Option<nat>
    decreases MAX_LEAD + 1 - from
  {
    if from > MAX_LEAD then None
    else if TagAt(text, tag, from) then Some(from)
    else FindTag(text, tag, from + 1)
  }

  /** End of the match of `^.{,256}?<tag.*?>`. */
  function MatchEnd(text: string, tag: string): Option<nat> {
    match FindTag(text, tag, 0)
    case None => None
    case Some(k) =>
      if k + |tag| > |text| then None
      else
        var j := FindFrom(text, ">", k + |tag|);
        if j < 0 then None else Some(j + 1)
  }

  /** `text[..p]` is in the language of the pattern, whatever the quantifiers prefer. */
  ghost predicate InLanguage(text: string, tag: string, p: nat) {
    exists k: nat :: k <= 256 && TagAt(text, tag, k) && k + |tag| < p <= |text| && text[p - 1] == '>'
  }

  lemma {:induction false} FindTagSpec(text: string, tag: string, from: nat)
    ensures match FindTag(text, tag, from)
      case None => forall k :: from <= k <= MAX_LEAD ==> !TagAt(text, tag, k)
      case Some(k) => from <= k <= MAX_LEAD && TagAt(text, tag, k)
                      && forall j :: from <= j < k ==> !TagAt(text, tag, j)
    decreases MAX_LEAD + 1 - from
  {
    if from <= MAX_LEAD && !TagAt(text, tag, from) {
      FindTagSpec(text, tag, from + 1);
    }
  }

  lemma MatchMatches(text: string, tag: string)
    ensures MatchEnd(text, tag).Some? ==> InLanguage(text, tag, MatchEnd(text, tag).value)
  {
    hide TagAt, FindTag, FindFrom, At;
    FindTagSpec(text, tag, 0);
    if MatchEnd(text, tag).Some? {
      BracketFound(text, FindTag(text, tag, 0).value + |tag|);
    }
  }

  lemma BracketFound(text: string, from: nat)
    requires from <= |text|
    ensures var j := FindFrom(text, ">", from); j >= 0 ==> from <= j < |text| && text[j] == '>'
  {
    FindFromSpec(text, ">", from);
    hide FindFrom;
    var j := FindFrom(text, ">", from);
    if j >= 0 {
      BracketIs(text, j);
    }
  }

  lemma NoneShorter(text: string, tag: string, k: nat, q: nat)
    requires k <= MAX_LEAD && TagAt(text, tag, k) && k + |tag| < q <= |text| && text[q - 1] == '>'
    ensures MatchEnd(text, tag).Some? && MatchEnd(text, tag).value <= q
  {
    hide FindTag, FindFrom, At;
    FindTagSpec(text, tag, 0);
    BracketBefore(text, FindTag(text, tag, 0).value + |tag|, q - 1);
  }

  lemma BracketBefore(text: string, from: nat, i: nat)
    requires from <= i < |text| && text[i] == '>'
    ensures 0 <= FindFrom(text, ">", from) <= i
  {
    FindFromSpec(text, ">", from);
    hide FindFrom;
    BracketAt(text, i);
  }

  /** The computed end is the shortest prefix in the language of the pattern, and there is none when
      none is computed. */
  lemma MatchEndIsShortest(text: string, tag: string)
    ensures match MatchEnd(text, tag)
      case None => forall p :: !InLanguage(text, tag, p)
      case Some(p) => InLanguage(text, tag, p) && forall q :: InLanguage(text, tag, q) ==> p <= q
  {
    MatchMatches(text, tag);
    hide MatchEnd, TagAt;
    forall q: nat | InLanguage(text, tag, q)
      ensures MatchEnd(text, tag).Some? && MatchEnd(text, tag).value <= q
    {
      var k: nat :| k <= MAX_LEAD && TagAt(text, tag, k) && k + |tag| < q <= |text| && text[q - 1] == '>';
      NoneShorter(text, tag, k, q);
    }
  }

  lemma BracketIs(text: string, i: nat)
    requires At(text, ">", i)
    ensures i < |text| && text[i] == '>'
  {
    assert text[i] == text[i..i + 1][0];
  }

  lemma BracketAt(text: string, i: nat)
    requires i < |text| && text[i] == '>'
    ensures At(text, ">", i)
  {
  }

  function Block(script: string): string {
    OPEN + (script + CLOSE)
  }

  function InsertAt(text: string, p: nat, script: string): string
    requires p <= |text|
  {
    text[..p] + (Block(script) + text[p..])
  }

  /** Where the script goes: after the head tag, or else the html tag; nowhere when it is there already. */
  function InjectionPoint(text: string, script: string): (r: Option<nat>)
    ensures r.Some? ==> 0 < r.value <= |text|
  {
    if text == "" || Find(text, script) >= 0 then None
    else if MatchEnd(text, HEAD_TAG).Some? then MatchEnd(text, HEAD_TAG)
    else MatchEnd(text, HTML_TAG)
  }

  predicate IsHtml(r: Response) {
    match GetHeader(r.headers, "content-type")
    case None => false
    case Some(t) => "text/html" <= t
  }

  function PointIn(r: Response, script: string, z: Zlib): Option<nat> {
    if IsHtml(r) && TextOf(r, z).Some? then InjectionPoint(TextOf(r, z).value, script) else None
  }

  function Inject(r: Response, script: string, z: Zlib): Response {
    match PointIn(r, script, z)
    case None => r
    case Some(p) => WithText(r, InsertAt(TextOf(r, z).value, p, script), z)
  }

  // ---------------------------------------------------------------- where the script goes, and what is inserted

  /** `text[..p]` is the shortest prefix in the language of the pattern. */
  ghost predicate Shortest(text: string, tag: string, p: nat) {
    InLanguage(text, tag, p) && forall q :: InLanguage(text, tag, q) ==> p <= q
  }

  /** The script goes behind the head tag, and behind the html tag only where there is no head tag; nowhere in
      an empty text or one that holds it already. */
  lemma InjectionPointMeans(text: string, script: string, p: nat)
    ensures InjectionPoint(text, script) == Some(p)
            <==> && text != "" && !Contains(text, script)
                 && (|| Shortest(text, "<head", p)
                     || ((forall q :: !InLanguage(text, "<head", q)) && Shortest(text, "<html", p)))
    ensures InjectionPoint(text, script) == None
            <==> || text == "" || Contains(text, script)
                 || forall q :: !InLanguage(text, "<head", q) && !InLanguage(text, "<html", q)
  {
    FindSpec(text, script);
    MatchEndIsShortest(text, HEAD_TAG);
    MatchEndIsShortest(text, HTML_TAG);
    hide MatchEnd, Find, InLanguage;
  }

  /** The patterns ignore case: a letter of a tag is met by itself and by its capital. */
  lemma TagIgnoresCase(text: string, tag: string, k: nat)
    requires forall c :: c in tag ==> c == '<' || 'a' <= c <= 'z'
    ensures TagAt(text, tag, k)
            <==> && k + |tag| <= |text|
                 && forall i :: 0 <= i < |tag| ==>
                      text[k + i] == tag[i] || (tag[i] != '<' && text[k + i] as int == tag[i] as int - 32)
  {
    forall i | 0 <= i < |tag| && k + i < |text|
      ensures Lower(text[k + i]) == tag[i]
              <==> text[k + i] == tag[i] || (tag[i] != '<' && text[k + i] as int == tag[i] as int - 32)
    {
      assert tag[i] in tag;
    }
  }

  /** The point of a response is that of its plain chunks joined, if it is a html page. */
  lemma PointInMeans(r: Response, script: string, z: Zlib, p: nat)
    ensures PointIn(r, script, z) == Some(p)
            <==> exists t :: && GetHeader(r.headers, "content-type") == Some(t) && "text/html" <= t
                             && InjectionPoint(Join(CHUNK_EDIT_SEPARATOR, PlainChunks(r, z)), script) == Some(p)
  {
    hide InjectionPoint;
    if GetHeader(r.headers, "content-type").Some? {
      var t := GetHeader(r.headers, "content-type").value;
      if "text/html" <= t {
        assert t[..9] == "text/html" && t[..5] == "text/html"[..5] == "text/";
      }
    }
  }

  /** What an injected page says: the old text with the script element written at the point. */
  lemma InjectedText(r: Response, script: string, z: Zlib)
    requires PointIn(r, script, z).Some?
    ensures var text := Join(CHUNK_EDIT_SEPARATOR, PlainChunks(r, z));
      var p := PointIn(r, script, z).value;
      var plain := Split(text[..p] + "<script>" + script + "</script>" + text[p..], CHUNK_EDIT_SEPARATOR);
      && Inject(r, script, z).data == Stored(r, plain, z)
      && Join(CHUNK_EDIT_SEPARATOR, plain) == text[..p] + "<script>" + script + "</script>" + text[p..]
  {
    var text := Join(CHUNK_EDIT_SEPARATOR, PlainChunks(r, z));
    var p := PointIn(r, script, z).value;
    JoinSplit(text[..p] + "<script>" + script + "</script>" + text[p..], CHUNK_EDIT_SEPARATOR);
    hide Join, Split, InjectionPoint;
    WrittenOut(text[..p], script, text[p..]);
    assert TextOf(r, z) == Some(text);
  }

  lemma WrittenOut(l: string, script: string, r: string)
    ensures l + (Block(script) + r) == l + "<script>" + script + "</script>" + r
  {
  }

  const CAPITALS := "<HTML><HEAD>"

  /** With a html tag and a head tag behind it, in capitals, the script goes behind the head tag. */
  lemma HeadComesFirst()
    ensures InjectionPoint(CAPITALS, "x()") == Some(12)
  {
    AbsentChar(CAPITALS, "x()");
    HeadAt(6);
    forall q: nat | InLanguage(CAPITALS, "<head", q) ensures 12 <= q {
      var k: nat :| k <= 256 && TagAt(CAPITALS, "<head", k) && k + 5 < q <= |CAPITALS| && CAPITALS[q - 1] == '>';
      HeadAt(k);
    }
    hide InjectionPoint, TagAt;
    assert InLanguage(CAPITALS, "<head", 12);
    InjectionPointMeans(CAPITALS, "x()", 12);
  }

  lemma HeadAt(k: nat)
    ensures TagAt(CAPITALS, "<head", k) <==> k == 6
  {
    var tag := "<head";
    if TagAt(CAPITALS, tag, k) {
      assert Lower(CAPITALS[k + 0]) == tag[0] && Lower(CAPITALS[k + 2]) == tag[2];
    }
  }

  // ---------------------------------------------------------------- effect on the chunks

  lemma BracketsOutsideSeparator()
    ensures '<' !in CHUNK_EDIT_SEPARATOR && '>' !in CHUNK_EDIT_SEPARATOR
  {
  }

  lemma PointFollowsBracket(text: string, script: string)
    requires InjectionPoint(text, script).Some?
    ensures text[InjectionPoint(text, script).value - 1] == '>'
  {
    hide FindTag, FindFrom;
    MatchEndsTag(text, HEAD_TAG);
    MatchEndsTag(text, HTML_TAG);
  }

  lemma MatchEndsTag(text: string, tag: string)
    ensures MatchEnd(text, tag).Some? ==>
              0 < MatchEnd(text, tag).value <= |text| && text[MatchEnd(text, tag).value - 1] == '>'
  {
    MatchEndIsShortest(text, tag);
  }

  /** The block is split only where the script itself contains the separator. */
  lemma SplitBlock(script: string)
    ensures |Split(Block(script), CHUNK_EDIT_SEPARATOR)| == |Split(script, CHUNK_EDIT_SEPARATOR)|
    ensures !Contains(script, CHUNK_EDIT_SEPARATOR) ==> Split(Block(script), CHUNK_EDIT_SEPARATOR) == [Block(script)]
  {
    var sep := CHUNK_EDIT_SEPARATOR;
    BracketsOutsideSeparator();
    NoStraddleAtSeam(OPEN, script + CLOSE, sep);
    SplitGlue(OPEN, script + CLOSE, sep);
    NoStraddleAtSeam(script, CLOSE, sep);
    SplitGlue(script, CLOSE, sep);
    assert Split(OPEN, sep) == [OPEN] && Split(CLOSE, sep) == [CLOSE];
    FindSpec(script, sep);
    assert !Contains(script, sep) ==> Split(script, sep) == [script];
  }

  lemma BlockEnds(script: string)
    ensures EndsTag(Block(script))
  {
  }

  ghost predicate EndsTag(s: string) {
    s != "" && s[|s| - 1] == '>'
  }

  /** Splitting the edited text: the pieces before the insertion, the block's pieces, the pieces after,
      fused at the two seams. */
  lemma SplitSandwich(l: string, b: string, r: string)
    requires EndsTag(l) && EndsTag(b)
    ensures var sep := CHUNK_EDIT_SEPARATOR;
      && Split(l + r, sep) == Glue(Split(l, sep), Split(r, sep))
      && Split(l + (b + r), sep) == Glue(Split(l, sep), Glue(Split(b, sep), Split(r, sep)))
  {
    SplitAfterBracket(l, r);
    SplitAfterBracket(l, b + r);
    SplitAfterBracket(b, r);
  }

  lemma SplitAfterBracket(l: string, r: string)
    requires EndsTag(l)
    ensures Split(l + r, CHUNK_EDIT_SEPARATOR)
            == Glue(Split(l, CHUNK_EDIT_SEPARATOR), Split(r, CHUNK_EDIT_SEPARATOR))
  {
    BracketsOutsideSeparator();
    NoStraddleAtSeam(l, r, CHUNK_EDIT_SEPARATOR);
    SplitGlue(l, r, CHUNK_EDIT_SEPARATOR);
  }

  /** Injecting into any chunk list keeps the number of chunks exactly when neither the chunks nor the
      script contain the separator; otherwise it adds chunks. */
  lemma ChunkCountAfterInjection(chunks: seq<string>, p: nat, script: string)
    requires var text := Join(CHUNK_EDIT_SEPARATOR, chunks); 0 < p <= |text| && text[p - 1] == '>'
    ensures var sep := CHUNK_EDIT_SEPARATOR;
      var n := |Split(InsertAt(Join(sep, chunks), p, script), sep)|;
      && n >= |chunks|
      && (n == |chunks| <==> AllFree(chunks, sep) && !Contains(script, sep))
  {
    var sep := CHUNK_EDIT_SEPARATOR;
    var text := Join(sep, chunks);
    assert text == text[..p] + text[p..];
    BlockEnds(script);
    SplitSandwich(text[..p], Block(script), text[p..]);
    SplitBlock(script);
    ChunkSeparatorBorderFree();
    SplitJoin(chunks, sep);
    SplitAllSize(chunks, sep);
    FindSpec(script, sep);
  }

  /** Exactly one chunk changes, by having the block inserted behind the end of a tag, and so does the
      body as a whole. */
  ghost predicate OneChunkGrew(before: seq<string>, after: seq<string>, block: string) {
    exists i: nat, o: nat :: GrewAt(before, after, block, i, o)
  }

  ghost predicate GrewAt(before: seq<string>, after: seq<string>, block: string, i: nat, o: nat) {
    && i < |before| && 0 < o <= |before[i]| && before[i][o - 1] == '>'
    && after == before[i := before[i][..o] + block + before[i][o..]]
    && (var q := |Concat(before[..i])| + o;
        && q <= |Concat(before)|
        && Concat(after) == Concat(before)[..q] + block + Concat(before)[q..])
  }

  lemma {:induction false} LastPieceEndsTag(pieces: seq<string>, sep: string)
    requires pieces != [] && EndsTag(Join(sep, pieces)) && '>' !in sep && sep != ""
    ensures EndsTag(pieces[|pieces| - 1])
  {
    if |pieces| > 1 {
      EndsBehind(pieces[0], sep, Join(sep, pieces[1..]));
      LastPieceEndsTag(pieces[1..], sep);
    }
  }

  lemma EndsBehind(before: string, sep: string, after: string)
    requires EndsTag(before + sep + after) && '>' !in sep && sep != ""
    ensures EndsTag(after)
  {
    LastChar(before, sep, after);
  }

  lemma LastChar(before: string, sep: string, after: string)
    requires sep != ""
    ensures var text := before + sep + after;
      text[|text| - 1] == if after == "" then sep[|sep| - 1] else after[|after| - 1]
  {
  }

  lemma SplitEndsTag(text: string, sep: string)
    requires EndsTag(text) && '>' !in sep && sep != ""
    ensures var pieces := Split(text, sep); EndsTag(pieces[|pieces| - 1])
  {
    hide Split, Join;
    JoinSplit(text, sep);
    LastPieceEndsTag(Split(text, sep), sep);
  }

  lemma GlueGrows(xs: seq<string>, block: string, ys: seq<string>)
    requires xs != [] && ys != [] && EndsTag(xs[|xs| - 1])
    ensures OneChunkGrew(Glue(xs, ys), Glue(xs, Glue([block], ys)), block)
  {
    var i := |xs| - 1;
    GlueShapes(xs, block, ys);
    PiecesGrow(xs[..i], xs[i], ys[0], block, ys[1..]);
  }

  lemma GlueShapes(xs: seq<string>, block: string, ys: seq<string>)
    requires xs != [] && ys != []
    ensures var left, x := xs[..|xs| - 1], xs[|xs| - 1];
      && Glue(xs, ys) == left + [x + ys[0]] + ys[1..]
      && Glue(xs, Glue([block], ys)) == left + [x + block + ys[0]] + ys[1..]
  {
    assert Glue([block], ys) == [block + ys[0]] + ys[1..] by {
      assert [block][..0] == [];
    }
    Regroup(xs[|xs| - 1], block, ys[0], "");
  }

  lemma PiecesGrow(left: seq<string>, x: string, y: string, block: string, right: seq<string>)
    requires EndsTag(x)
    ensures OneChunkGrew(left + [x + y] + right, left + [x + block + y] + right, block)
  {
    var before, after := left + [x + y] + right, left + [x + block + y] + right;
    assert (x + y)[..|x|] == x && (x + y)[|x|..] == y && (x + y)[|x| - 1] == x[|x| - 1];
    assert after == before[|left| := x + block + y];
    assert before[..|left|] == left;
    ConcatThree(left, x + y, right);
    ConcatThree(left, x + block + y, right);
    hide Concat;
    ConcatGrows(Concat(left), x, y, block, Concat(right));
    assert GrewAt(before, after, block, |left|, |x|);
  }

  lemma ConcatThree(xs: seq<string>, x: string, ys: seq<string>)
    ensures Concat(xs + [x] + ys) == Concat(xs) + x + Concat(ys)
  {
    ConcatPlus(xs + [x], ys);
    ConcatPlus(xs, [x]);
    assert [x][1..] == [];
    assert Concat([x]) == x + Concat([]) == x;
  }

  lemma ConcatGrows(l: string, x: string, y: string, block: string, r: string)
    ensures var old_ := l + (x + y) + r;
      l + (x + block + y) + r == old_[..|l| + |x|] + block + old_[|l| + |x|..]
  {
    var old_ := l + (x + y) + r;
    assert old_ == (l + x) + (y + r);
    assert old_[..|l| + |x|] == l + x && old_[|l| + |x|..] == y + r;
  }

  lemma InjectionGrowsOneChunk(chunks: seq<string>, p: nat, script: string)
    requires var text := Join(CHUNK_EDIT_SEPARATOR, chunks); 0 < p <= |text| && text[p - 1] == '>'
    requires AllFree(chunks, CHUNK_EDIT_SEPARATOR) && !Contains(script, CHUNK_EDIT_SEPARATOR)
    ensures OneChunkGrew(chunks, Split(InsertAt(Join(CHUNK_EDIT_SEPARATOR, chunks), p, script), CHUNK_EDIT_SEPARATOR),
                         Block(script))
  {
    var sep := CHUNK_EDIT_SEPARATOR;
    var text := Join(sep, chunks);
    ChunkCodec(chunks, text);
    assert text == text[..p] + text[p..];
    BlockEnds(script);
    SplitSandwich(text[..p], Block(script), text[p..]);
    SplitBlock(script);
    BracketsOutsideSeparator();
    SplitEndsTag(text[..p], sep);
    GlueGrows(Split(text[..p], sep), Block(script), Split(text[p..], sep));
  }

  // ---------------------------------------------------------------- effect on responses

  /** An injected response stays aligned exactly when its (uncompressed) chunks and the script are free
      of the separator; its delays and its other headers are untouched. */
  lemma InjectKeepsAlignment(r: Response, script: string, z: Zlib)
    requires r.Aligned() && z.PerChunk()
    ensures var r' := Inject(r, script, z);
      var plain := if r.Compressed() then z.uncompress(r.data, r.Gzip()) else r.data;
      && r'.delays == r.delays
      && (forall k :: k != "content-length" ==> GetHeader(r'.headers, k) == GetHeader(r.headers, k))
      && (PointIn(r, script, z).Some? ==>
            (r'.Aligned() <==> AllFree(plain, CHUNK_EDIT_SEPARATOR) && !Contains(script, CHUNK_EDIT_SEPARATOR)))
  {
    InjectKeepsHeaders(r, script, z);
    if PointIn(r, script, z).Some? {
      var plain := if r.Compressed() then z.uncompress(r.data, r.Gzip()) else r.data;
      var text := TextOf(r, z).value;
      PointFollowsBracket(text, script);
      ChunkCountAfterInjection(plain, PointIn(r, script, z).value, script);
    }
  }

  lemma InjectKeepsHeaders(r: Response, script: string, z: Zlib)
    ensures var r' := Inject(r, script, z);
      r'.version == r.version && r'.status == r.status && r'.reason == r.reason && r'.delays == r.delays
    ensures forall k :: k != "content-length" ==>
              GetHeader(Inject(r, script, z).headers, k) == GetHeader(r.headers, k)
  {
    var r' := Inject(r, script, z);
    forall k | k != "content-length" ensures GetHeader(r'.headers, k) == GetHeader(r.headers, k) {
      SetThenGet(r.headers, "content-length", Print(|Concat(r'.data)|, 10), k);
    }
  }

  /** Of an uncompressed response exactly one chunk changes, and its body is the old body with one script
      block inserted, if and only if neither chunks nor script contain the separator. */
  lemma InjectInsertsOneBlock(r: Response, script: string, z: Zlib)
    requires PointIn(r, script, z).Some? && !r.Compressed()
    ensures OneChunkGrew(r.data, Inject(r, script, z).data, Block(script))
            <==> AllFree(r.data, CHUNK_EDIT_SEPARATOR) && !Contains(script, CHUNK_EDIT_SEPARATOR)
    ensures |Inject(r, script, z).data| >= |r.data|
    ensures |Inject(r, script, z).data| == |r.data|
            <==> AllFree(r.data, CHUNK_EDIT_SEPARATOR) && !Contains(script, CHUNK_EDIT_SEPARATOR)
  {
    hide OneChunkGrew;
    var point := PointIn(r, script, z).value;
    PointFollowsBracket(TextOf(r, z).value, script);
    ChunkCountAfterInjection(r.data, point, script);
    if AllFree(r.data, CHUNK_EDIT_SEPARATOR) && !Contains(script, CHUNK_EDIT_SEPARATOR) {
      InjectionGrowsOneChunk(r.data, point, script);
    } else {
      GrownMatches(r.data, Inject(r, script, z).data, Block(script));
    }
  }

  lemma GrownMatches(before: seq<string>, after: seq<string>, block: string)
    ensures OneChunkGrew(before, after, block) ==> |after| == |before|
  {
  }

  /** Injecting twice is injecting once, as soon as what was compressed can be read: the second pass finds
      the script in place. */
  lemma InjectIsIdempotent(r: Response, script: string, z: Zlib)
    requires r.Compressed() && PointIn(r, script, z).Some? ==>
               var chunks := Split(InsertAt(TextOf(r, z).value, PointIn(r, script, z).value, script), CHUNK_EDIT_SEPARATOR);
               z.uncompress(z.compress(chunks, r.Gzip()), r.Gzip()) == chunks
    ensures Inject(Inject(r, script, z), script, z) == Inject(r, script, z)
  {
    if PointIn(r, script, z).Some? {
      InjectedTextIsRead(r, script, z);
      ScriptInPlace(TextOf(r, z).value, PointIn(r, script, z).value, script);
      hide InsertAt, TextOf, Find, MatchEnd;
    }
  }

  /** What was written is read again. */
  lemma InjectedTextIsRead(r: Response, script: string, z: Zlib)
    requires PointIn(r, script, z).Some?
    requires r.Compressed() ==>
               var chunks := Split(InsertAt(TextOf(r, z).value, PointIn(r, script, z).value, script), CHUNK_EDIT_SEPARATOR);
               z.uncompress(z.compress(chunks, r.Gzip()), r.Gzip()) == chunks
    ensures TextOf(Inject(r, script, z), z)
            == Some(InsertAt(TextOf(r, z).value, PointIn(r, script, z).value, script))
  {
    InjectKeepsHeaders(r, script, z);
    JoinSplit(InsertAt(TextOf(r, z).value, PointIn(r, script, z).value, script), CHUNK_EDIT_SEPARATOR);
    hide InsertAt, InjectionPoint, Split, Join, SetHeader, GetHeader;
  }

  lemma ScriptInPlace(text: string, p: nat, script: string)
    requires p <= |text|
    ensures Find(InsertAt(text, p, script), script) >= 0
  {
    var t := InsertAt(text, p, script);
    assert t == (text[..p] + OPEN) + script + (CLOSE + text[p..]);
    assert At(t, script, p + |OPEN|);
    FindSpec(t, script);
  }

  /** `_InjectScripts`: the response itself when nothing is inserted, otherwise an edited copy; the
      argument is never changed. */
  method InjectScripts(response: ArchivedHttpResponse, script: string, z: Zlib)
    returns (result: ArchivedHttpResponse)
    ensures result.Value() == Inject(response.Value(), script, z)
    ensures result == response || fresh(result)
    ensures result == response <==> PointIn(response.Value(), script, z).None?
    ensures response.Value() == old(response.Value())
  {
    result := response;
    var point := PointIn(response.Value(), script, z);
    if point.Some? {
      var text := TextOf(response.Value(), z).value;
      result := Copy(response);
      result.SetData(InsertAt(text, point.value, script), z);
    }
  }

  method Copy(response: ArchivedHttpResponse) returns (copy: ArchivedHttpResponse)
    ensures fresh(copy) && copy.Value() == response.Value()
  {
    copy := new ArchivedHttpResponse.Bare();
    copy.version, copy.status, copy.reason := response.version, response.status, response.reason;
    copy.headers, copy.responseData, copy.delays := response.headers, response.responseData, response.delays;
  }
}
