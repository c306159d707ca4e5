/** Archived requests as keys (wpr/httparchive.py): header trimming, and when a request still equals
    itself after it was persisted and loaded again. */
module ArchivedRequest {
  import opened Basics
  import opened PyStrings

  type Headers = map<string, string>

  const ACCEPT_ENCODING := "accept-encoding"
  const SDCH := "sdch"
  const COMMA := ","
  const CONDITIONAL := {"if-none-match", "if-match", "if-modified-since", "if-unmodified-since"}
  const UNDESIRABLE := {"accept", "accept-charset", "accept-language", "connection", "cookie", "keep-alive",
                        "method", "referer", "scheme", "url", "version", "user-agent", "proxy-connection"}

  function LowerCase(s: string): string {
    if s == "" then "" else [Lower(s[0])] + LowerCase(s[1..])
  }

  predicate EndsWith(s: string, suffix: string): (b: bool)
    ensures b ==> |s| >= |suffix|
  {
    |s| >= |suffix| && s[|s| - |suffix|..] == suffix
  }

  /** Erases `sdch`, then one comma at the end. */
  function TrimValue(v: string): string {
    var erased := Erase(v, SDCH);
    if EndsWith(erased, COMMA) then erased[..|erased| - 1] else erased
  }

  /** What trimming leaves in the dictionary it is given. */
  function Cleaned(headers: Headers): Headers {
    if ACCEPT_ENCODING in headers then headers[ACCEPT_ENCODING := TrimValue(headers[ACCEPT_ENCODING])] else headers
  }

  /** The trimmed headers; a dictionary's sorted items and the dictionary determine each other. */
  function Trimmed(headers: Headers): Headers {
    var cleaned := Cleaned(headers);
    map k | k in cleaned && LowerCase(k) !in UNDESIRABLE :: cleaned[k]
  }

  datatype Request = Request(
    command: string, host: string, path: string, body: Option<string>, headers: Headers, isSsl: bool, trimmed: Headers)
  {
    /** What `__eq__` and `__hash__` look at. */
    function Key(): Request {
      this.(headers := map[])
    }
  }

  /** `__init__`: the request keeps the dictionary that trimming has cleaned. */
  function NewRequest(command: string, host: string, path: string, body: Option<string>, headers: Headers,
                      isSsl: bool): Request
  {
    Request(command, host, path, body, Cleaned(headers), isSsl, Trimmed(headers))
  }

  /** `__getstate__` then `__setstate__`: the trimmed headers are computed anew from a copy. */
  function Reloaded(r: Request): Request {
    r.(trimmed := Trimmed(r.headers))
  }

  function WithoutConditions(r: Request): Request {
    var stripped := map k | k in r.headers && LowerCase(k) !in CONDITIONAL :: r.headers[k];
    NewRequest(r.command, r.host, r.path, r.body, stripped, r.isSsl)
  }

  // ---------------------------------------------------------------- erasing

  lemma {:induction false} ErasedLength(s: string)
    ensures |Concat(Split(s, SDCH))| + 4 * (|Split(s, SDCH)| - 1) == |s|
    decreases |s|
  {
    if Find(s, SDCH) >= 0 {
      var before, after := Cut(s, SDCH);
      ErasedLength(after);
      SplitCut(s, SDCH, before, after);
      ConcatFirst(before, Split(after, SDCH));
    } else {
      ConcatOne(s);
    }
  }

  lemma ConcatFirst(x: string, rest: seq<string>)
    ensures Concat([x] + rest) == x + Concat(rest)
  {
    assert ([x] + rest)[1..] == rest;
  }

  /** Erasing is the identity exactly on texts without the erased word, and shortens all others. */
  lemma EraseChanges(s: string)
    ensures Contains(s, SDCH) ==> |Erase(s, SDCH)| < |s|
    ensures !Contains(s, SDCH) ==> Erase(s, SDCH) == s
  {
    FindSpec(s, SDCH);
    JoinEmptyIsConcat(Split(s, SDCH));
    ErasedLength(s);
    if Contains(s, SDCH) {
      var before, after := Cut(s, SDCH);
      SplitCut(s, SDCH, before, after);
    }
  }

  lemma EraseSum(a: string, b: string)
    requires NoStraddle(a, b, SDCH)
    ensures Erase(a + b, SDCH) == Erase(a, SDCH) + Erase(b, SDCH)
  {
    SplitGlue(a, b, SDCH);
    JoinEmptyIsConcat(Split(a, SDCH));
    JoinEmptyIsConcat(Split(b, SDCH));
    JoinEmptyIsConcat(Split(a + b, SDCH));
    ConcatGlue(Split(a, SDCH), Split(b, SDCH));
  }

  lemma ConcatGlue(xs: seq<string>, ys: seq<string>)
    requires xs != [] && ys != []
    ensures Concat(Glue(xs, ys)) == Concat(xs) + Concat(ys)
  {
    var left, x, y, right := xs[..|xs| - 1], xs[|xs| - 1], ys[0], ys[1..];
    assert xs == left + [x] && ys == [y] + right;
    ConcatPlus(left + [x + y], right);
    ConcatPlus(left, [x + y]);
    ConcatPlus(left, [x]);
    ConcatPlus([y], right);
    ConcatOne(x);
    ConcatOne(y);
    ConcatOne(x + y);
    Regroup(Concat(left), x, y, Concat(right));
  }

  lemma ConcatOne(x: string)
    ensures Concat([x]) == x
  {
    assert [x][1..] == [];
    assert Concat([x]) == x + Concat([x][1..]);
  }

  lemma ContainsSum(a: string, b: string)
    requires NoStraddle(a, b, SDCH)
    ensures Contains(a + b, SDCH) <==> Contains(a, SDCH) || Contains(b, SDCH)
  {
    FindInGlued(a, b, SDCH);
    FindSpec(a, SDCH);
    FindSpec(b, SDCH);
    FindSpec(a + b, SDCH);
  }

  // ---------------------------------------------------------------- trimming twice

  /** Whether a second trimming finds nothing more to do, read off what erasing leaves. */
  ghost predicate TrimsOnce(v: string) {
    !Contains(Erase(v, SDCH), SDCH) && !EndsWith(Erase(v, SDCH), ",,")
  }

  /** Trimming twice equals trimming once exactly when erasing `sdch` neither leaves a new `sdch` nor two
      commas at the end. */
  lemma TrimTwiceIff(v: string)
    ensures TrimValue(TrimValue(v)) == TrimValue(v) <==> TrimsOnce(v)
  {
    var erased, t := Erase(v, SDCH), TrimValue(v);
    EraseChanges(t);
    if EndsWith(erased, COMMA) {
      assert erased == t + COMMA;
      NoStraddleAtSeam(t, COMMA, SDCH);
      ContainsSum(t, COMMA);
      CommaHasNoSdch();
      DoubleComma(t);
    } else {
      NoDoubleComma(erased);
    }
  }

  lemma CommaHasNoSdch()
    ensures !Contains(COMMA, SDCH) && !Contains("", SDCH) && Erase(COMMA, SDCH) == COMMA && Erase("", SDCH) == ""
    ensures ',' !in SDCH
  {
    EraseChanges(COMMA);
    EraseChanges("");
  }

  lemma DoubleComma(t: string)
    ensures EndsWith(t + COMMA, ",,") <==> EndsWith(t, COMMA)
  {
    if |t| > 0 {
      assert (t + COMMA)[|t| - 1..] == [t[|t| - 1], ','];
      assert t[|t| - 1..] == [t[|t| - 1]];
    }
  }

  lemma NoDoubleComma(t: string)
    requires !EndsWith(t, COMMA)
    ensures !EndsWith(t, ",,")
  {
    if |t| >= 2 {
      assert t[|t| - 2..][1] == t[|t| - 1] && t[|t| - 1..] == [t[|t| - 1]];
    }
  }

  /** A request that is persisted and loaded again equals its original exactly when its accept-encoding trims
      once; so does the original stripped of conditions that it never had. */
  lemma ReloadedEqualsIff(command: string, host: string, path: string, body: Option<string>, headers: Headers,
                          isSsl: bool)
    ensures var r := NewRequest(command, host, path, body, headers, isSsl);
      && (Reloaded(r).Key() == r.Key() <==> (ACCEPT_ENCODING in headers ==> TrimsOnce(headers[ACCEPT_ENCODING])))
      && ((forall k :: k in headers ==> LowerCase(k) !in CONDITIONAL) ==>
            WithoutConditions(r).Key() == Reloaded(r).Key())
  {
    hide TrimValue, TrimsOnce, LowerCase;
    var r := NewRequest(command, host, path, body, headers, isSsl);
    KeptKey();
    if ACCEPT_ENCODING in headers {
      TrimTwiceIff(headers[ACCEPT_ENCODING]);
      var once, twice := Trimmed(headers), Trimmed(r.headers);
      assert ACCEPT_ENCODING in once && ACCEPT_ENCODING in twice;
      assert once[ACCEPT_ENCODING] == TrimValue(headers[ACCEPT_ENCODING]);
      assert twice == once[ACCEPT_ENCODING := TrimValue(TrimValue(headers[ACCEPT_ENCODING]))];
    }
    if forall k :: k in headers ==> LowerCase(k) !in CONDITIONAL {
      var stripped := map k | k in r.headers && LowerCase(k) !in CONDITIONAL :: r.headers[k];
      assert stripped == r.headers;
    }
  }

  lemma KeptKey()
    ensures LowerCase(ACCEPT_ENCODING) == ACCEPT_ENCODING && ACCEPT_ENCODING !in UNDESIRABLE
  {
    hide LowerCase;
    assert forall i :: 0 <= i < |ACCEPT_ENCODING| ==> !('A' <= ACCEPT_ENCODING[i] <= 'Z');
    LowerStays(ACCEPT_ENCODING);
    Desirable(ACCEPT_ENCODING);
  }

  lemma Desirable(key: string)
    requires |key| == 15 && key[7] == 'e'
    ensures key !in UNDESIRABLE
  {
    assert "accept-language"[7] == 'l';
  }

  lemma {:induction false} LowerStays(s: string)
    requires forall i :: 0 <= i < |s| ==> !('A' <= s[i] <= 'Z')
    ensures LowerCase(s) == s
  {
    if s != "" {
      LowerStays(s[1..]);
    }
  }

  // ---------------------------------------------------------------- what a key is made of

  /** Requests are one archive entry exactly when command, host, path, body, transport and trimmed headers agree;
      the trimmed headers are those that were given, but for the undesirable ones, unchanged except for the
      accepted encodings. */
  lemma KeyMeans(a: Request, b: Request, headers: Headers, k: string)
    ensures a.Key() == b.Key()
            <==> && a.command == b.command && a.host == b.host && a.path == b.path && a.body == b.body
                 && a.isSsl == b.isSsl && a.trimmed == b.trimmed
    ensures k in Trimmed(headers)
            <==> && k in headers
                 && LowerCase(k) !in {"accept", "accept-charset", "accept-language", "connection", "cookie", "keep-alive",
                                      "method", "referer", "scheme", "url", "version", "user-agent", "proxy-connection"}
    ensures k in Trimmed(headers) ==> Trimmed(headers)[k] == if k == "accept-encoding" then TrimValue(headers[k]) else headers[k]
  {
    hide TrimValue, LowerCase;
  }

  /** The same page asked for with and without conditions: the conditional request finds the page it is about
      exactly when the accept-encoding trims once, since stripping trims a second time. */
  lemma ConditionalFindsPage(command: string, host: string, path: string, body: Option<string>, headers: Headers,
                             conditions: Headers, isSsl: bool)
    requires forall k :: k in conditions ==>
               LowerCase(k) in {"if-none-match", "if-match", "if-modified-since", "if-unmodified-since"}
    requires forall k :: k in headers ==>
               LowerCase(k) !in {"if-none-match", "if-match", "if-modified-since", "if-unmodified-since"}
    ensures var page := NewRequest(command, host, path, body, headers, isSsl);
      var conditional := NewRequest(command, host, path, body, headers + conditions, isSsl);
      WithoutConditions(conditional).Key() == page.Key()
      <==> (ACCEPT_ENCODING in headers ==> TrimsOnce(headers[ACCEPT_ENCODING]))
  {
    ReloadedEqualsIff(command, host, path, body, headers, isSsl);
    hide TrimValue, TrimsOnce, LowerCase;
    KeptKey();
    NotConditional(ACCEPT_ENCODING);
    var page := NewRequest(command, host, path, body, headers, isSsl);
    var conditional := NewRequest(command, host, path, body, headers + conditions, isSsl);
    var stripped := map k | k in conditional.headers && LowerCase(k) !in CONDITIONAL :: conditional.headers[k];
    assert stripped == page.headers;
  }

  lemma NotConditional(key: string)
    requires |key| == 15 && key[0] == 'a'
    ensures key !in CONDITIONAL
  {
    assert "if-none-match"[0] == 'i';
  }

  // ---------------------------------------------------------------- token lists

  function ErasedAll(tokens: seq<string>): (r: seq<string>)
    ensures |r| == |tokens| && forall i :: 0 <= i < |r| ==> r[i] == Erase(tokens[i], SDCH)
  {
    if tokens == [] then [] else [Erase(tokens[0], SDCH)] + ErasedAll(tokens[1..])
  }

  lemma SdchErased()
    ensures Erase(SDCH, SDCH) == ""
  {
    FindIs(SDCH, SDCH, 0);
    assert SDCH == "" + SDCH + "";
    SplitCut(SDCH, SDCH, "", "");
    FindSpec("", SDCH);
    assert Split("", SDCH) == [""];
    assert [""] + [""] == ["", ""] && ["", ""][1..] == [""];
    assert Join("", [""]) == "";
  }

  /** Erasing the word works token by token, as it holds no comma. */
  lemma {:induction false} TokensErased(tokens: seq<string>)
    ensures Erase(Join(COMMA, tokens), SDCH) == Join(COMMA, ErasedAll(tokens))
  {
    CommaHasNoSdch();
    if |tokens| > 1 {
      var token, rest := tokens[0], tokens[1..];
      TokensErased(rest);
      assert ErasedAll(tokens)[1..] == ErasedAll(rest);
      NoStraddleAtSeam(token + COMMA, Join(COMMA, rest), SDCH);
      EraseSum(token + COMMA, Join(COMMA, rest));
      NoStraddleAtSeam(token, COMMA, SDCH);
      EraseSum(token, COMMA);
    }
  }

  lemma {:induction false} TokensContain(parts: seq<string>)
    ensures Contains(Join(COMMA, parts), SDCH) <==> exists i :: 0 <= i < |parts| && Contains(parts[i], SDCH)
  {
    CommaHasNoSdch();
    if |parts| > 1 {
      var rest := parts[1..];
      TokensContain(rest);
      NoStraddleAtSeam(parts[0] + COMMA, Join(COMMA, rest), SDCH);
      ContainsSum(parts[0] + COMMA, Join(COMMA, rest));
      NoStraddleAtSeam(parts[0], COMMA, SDCH);
      ContainsSum(parts[0], COMMA);
      assert forall i :: 1 <= i < |parts| ==> parts[i] == rest[i - 1];
      assert (exists i :: 0 <= i < |rest| && Contains(rest[i], SDCH))
             ==> exists i :: 1 <= i < |parts| && Contains(parts[i], SDCH) by {
        if i :| 0 <= i < |rest| && Contains(rest[i], SDCH) {
          assert parts[i + 1] == rest[i];
        }
      }
    }
  }

  /** Erasing brings no new character in. */
  lemma {:induction false} ErasedHasNoNew(s: string, c: char)
    requires c !in s
    ensures c !in Concat(Split(s, SDCH))
    decreases |s|
  {
    if Find(s, SDCH) >= 0 {
      var before, after := Cut(s, SDCH);
      SplitCut(s, SDCH, before, after);
      ConcatFirst(before, Split(after, SDCH));
      hide Split, Find, Concat;
      ErasedHasNoNew(after, c);
    } else {
      ConcatOne(s);
    }
  }

  /** For every list of tokens, that is for every value, cut at its commas: trimming twice equals trimming
      once exactly when erasing the word from no token leaves the word, and it does not empty the last
      two of three or more tokens. */
  lemma TokenListsTrimOnce(tokens: seq<string>)
    requires NoCommas(tokens)
    ensures var n := |tokens|;
      TrimsOnce(Join(COMMA, tokens))
      <==> && (forall i :: 0 <= i < n ==> !Contains(Erase(tokens[i], SDCH), SDCH))
           && !(n >= 3 && Erase(tokens[n - 1], SDCH) == "" && Erase(tokens[n - 2], SDCH) == "")
  {
    TokensErased(tokens);
    TokensContain(ErasedAll(tokens));
    ErasedWithoutCommas(tokens);
    JoinEndsDoubled(ErasedAll(tokens));
    hide Erase, Join;
  }

  lemma {:induction false} ErasedWithoutCommas(tokens: seq<string>)
    requires NoCommas(tokens)
    ensures NoCommas(ErasedAll(tokens))
  {
    if tokens != [] {
      ErasedHasNoNew(tokens[0], ',');
      JoinEmptyIsConcat(Split(tokens[0], SDCH));
      ErasedWithoutCommas(tokens[1..]);
      assert ErasedAll(tokens)[1..] == ErasedAll(tokens[1..]);
    }
  }

  /** Every value is such a list. */
  lemma ValueIsTokenList(v: string)
    ensures NoCommas(Split(v, COMMA)) && Join(COMMA, Split(v, COMMA)) == v
  {
    JoinSplit(v, COMMA);
    SplitPiecesFree(v, COMMA);
    FreeOfCommas(Split(v, COMMA));
  }

  lemma {:induction false} FreeOfCommas(parts: seq<string>)
    requires AllFree(parts, COMMA)
    ensures NoCommas(parts)
  {
    if parts != [] {
      assert parts[0] in parts && parts == [parts[0]] + parts[1..];
      if ',' in parts[0] {
        var i :| 0 <= i < |parts[0]| && parts[0][i] == ',';
        HasComma(parts[0], i);
      }
      FreeOfCommas(parts[1..]);
    }
  }

  lemma HasComma(part: string, i: nat)
    requires i < |part| && part[i] == ','
    ensures Contains(part, COMMA)
  {
    assert At(part, COMMA, i);
  }

  /** Non-empty tokens without commas, each the word itself or free of it. */
  ghost predicate CleanTokens(tokens: seq<string>) {
    NoCommas(tokens) && forall i :: 0 <= i < |tokens| ==> tokens[i] == SDCH || (tokens[i] != "" && !Contains(tokens[i], SDCH))
  }

  /** For clean tokens only two `sdch` at the end of three or more do harm; so one at most never does. */
  lemma CleanTokensTrimOnce(tokens: seq<string>)
    requires CleanTokens(tokens)
    ensures var n := |tokens|;
      TrimsOnce(Join(COMMA, tokens)) <==> !(n >= 3 && tokens[n - 1] == SDCH && tokens[n - 2] == SDCH)
  {
    TokenListsTrimOnce(tokens);
    SdchErased();
    CommaHasNoSdch();
    hide Erase, Join;
    forall i | 0 <= i < |tokens|
      ensures Erase(tokens[i], SDCH) == (if tokens[i] == SDCH then "" else tokens[i])
    {
      if tokens[i] != SDCH {
        EraseChanges(tokens[i]);
      }
    }
  }

  predicate NoCommas(parts: seq<string>) {
    parts != [] ==> ',' !in parts[0] && NoCommas(parts[1..])
  }

  lemma {:induction false} JoinEndsDoubled(parts: seq<string>)
    requires NoCommas(parts)
    ensures var n := |parts|;
      EndsWith(Join(COMMA, parts), ",,") <==> n >= 3 && parts[n - 1] == "" && parts[n - 2] == ""
    decreases |parts|
  {
    var n := |parts|;
    if n == 1 {
      NoCommaEnd(parts[0]);
    } else if n == 2 {
      assert Join(COMMA, parts) == parts[0] + COMMA + parts[1];
      TwoParts(parts[0], parts[1]);
    } else if n > 2 {
      JoinEndsDoubled(parts[1..]);
      var head, tail := parts[0] + COMMA, Join(COMMA, parts[1..]);
      assert Join(COMMA, parts) == head + tail;
      if |tail| >= 2 {
        assert (head + tail)[|head + tail| - 2..] == tail[|tail| - 2..];
      } else {
        ShortTail(parts[1..]);
        assert tail == COMMA;
        assert (head + tail)[|head + tail| - 2..] == ",,";
      }
    }
  }

  lemma NoCommaEnd(part: string)
    requires ',' !in part
    ensures !EndsWith(part, ",,") && !EndsWith(part, COMMA)
  {
    if |part| >= 1 {
      assert part[|part| - 1..] == [part[|part| - 1]];
      NoDoubleComma(part);
    }
  }

  lemma TwoParts(a: string, b: string)
    requires ',' !in a && ',' !in b
    ensures !EndsWith(a + COMMA + b, ",,")
  {
    var t := a + COMMA + b;
    if |t| >= 2 {
      var i := |t| - 2;
      assert t[i..] == [t[i], t[i + 1]];
      assert t[i] == ',' ==> i == |a|;
    }
  }

  lemma ShortTail(parts: seq<string>)
    requires |parts| >= 2 && |Join(COMMA, parts)| < 2
    ensures |parts| == 2 && parts[0] == "" && parts[1] == "" && Join(COMMA, parts) == COMMA
  {
    if |parts| > 2 {
      LongJoin(parts);
    }
  }

  lemma LongJoin(parts: seq<string>)
    requires |parts| > 2
    ensures |Join(COMMA, parts)| >= 2
  {
    assert |Join(COMMA, parts[1..])| >= 1;
  }

  /** A value that does not trim once: two commas are left at the end. */
  lemma DoubledCommaBreaksKey()
    ensures !TrimsOnce("gzip,,sdch")
  {
    var s := "gzip,,";
    assert "gzip,,sdch" == s + SDCH;
    NoStraddleAtSeam(s, SDCH, SDCH);
    EraseSum(s, SDCH);
    SdchErased();
    NoLetters();
    EraseChanges(s);
    assert s[|s| - 2..] == ",,";
  }

  lemma NoLetters()
    ensures !Contains("gzip,,", SDCH)
  {
    AbsentChar("gzip,,", SDCH);
  }

  // ---------------------------------------------------------------- whole archives

  /** A request as `__init__` leaves it. */
  ghost predicate Made(r: Request) {
    exists headers :: MadeFrom(r, headers)
  }

  ghost predicate MadeFrom(r: Request, headers: Headers) {
    r.headers == Cleaned(headers) && r.trimmed == Trimmed(headers)
  }

  /** Nothing is left to trim. */
  ghost predicate Stable(r: Request) {
    ACCEPT_ENCODING in r.headers ==>
      !Contains(r.headers[ACCEPT_ENCODING], SDCH) && !EndsWith(r.headers[ACCEPT_ENCODING], COMMA)
  }

  lemma TrimmedIff(v: string)
    ensures TrimValue(v) == v <==> !Contains(v, SDCH) && !EndsWith(v, COMMA)
  {
    EraseChanges(v);
  }

  lemma ReloadKeepsKeyIff(r: Request)
    requires Made(r)
    ensures Reloaded(r).Key() == r.Key() <==> Stable(r)
  {
    hide TrimValue, LowerCase, Contains, EndsWith;
    var headers :| MadeFrom(r, headers);
    KeptKey();
    if ACCEPT_ENCODING in headers {
      TrimmedIff(r.headers[ACCEPT_ENCODING]);
      var once, twice := Trimmed(headers), Trimmed(r.headers);
      assert ACCEPT_ENCODING in once && ACCEPT_ENCODING in twice;
      assert once[ACCEPT_ENCODING] == r.headers[ACCEPT_ENCODING];
      assert twice == once[ACCEPT_ENCODING := TrimValue(r.headers[ACCEPT_ENCODING])];
    } else {
      assert Cleaned(headers) == headers == r.headers;
    }
  }

  function LoadedKeys(requests: set<Request>): set<Request> {
    set r | r in requests :: Reloaded(r).Key()
  }

  /** Two different requests that are one key once loaded. */
  ghost predicate FallTogether(requests: set<Request>) {
    exists a, b :: a in requests && b in requests && a != b && Reloaded(a).Key() == Reloaded(b).Key()
  }

  lemma {:induction false} LoadedSize(requests: set<Request>)
    ensures |LoadedKeys(requests)| <= |requests|
    ensures |LoadedKeys(requests)| == |requests| <==> !FallTogether(requests)
    decreases |requests|
  {
    hide Reloaded;
    if a :| a in requests {
      var rest, key := requests - {a}, Reloaded(a).Key();
      LoadedSize(rest);
      assert requests == rest + {a};
      assert LoadedKeys(requests) == LoadedKeys(rest) + {key};
      if key in LoadedKeys(rest) {
        assert LoadedKeys(requests) == LoadedKeys(rest);
        assert FallTogether(requests);
      } else {
        SplitOff(rest, a);
      }
    } else {
      assert LoadedKeys(requests) == {};
    }
  }

  lemma SplitOff(rest: set<Request>, a: Request)
    requires Reloaded(a).Key() !in LoadedKeys(rest) && a !in rest
    ensures FallTogether(rest + {a}) <==> FallTogether(rest)
  {
    if FallTogether(rest) {
      var x, y :| x in rest && y in rest && x != y && Reloaded(x).Key() == Reloaded(y).Key();
      assert x in rest + {a} && y in rest + {a};
    }
    forall x | x in rest ensures Reloaded(x).Key() in LoadedKeys(rest) {
    }
  }

  /** Persisting and loading an archive, whose requests differ in their keys: all requests are found again
      under their keys if and only if none has anything left to trim; then no entry is lost. An entry is
      lost if and only if two keys fall together. */
  lemma ArchiveReloads(requests: set<Request>)
    requires forall r :: r in requests ==> Made(r)
    requires forall a, b :: a in requests && b in requests && a.Key() == b.Key() ==> a == b
    ensures (forall r :: r in requests ==> Reloaded(r).Key() == r.Key()) <==> forall r :: r in requests ==> Stable(r)
    ensures (forall r :: r in requests ==> Stable(r)) ==> |LoadedKeys(requests)| == |requests|
    ensures |LoadedKeys(requests)| < |requests| <==> FallTogether(requests)
  {
    hide Reloaded, Stable, Made;
    forall r | r in requests ensures Reloaded(r).Key() == r.Key() <==> Stable(r) {
      ReloadKeepsKeyIff(r);
    }
    LoadedSize(requests);
  }

  function Accepting(acceptEncoding: string): Request {
    NewRequest("GET", "example.com", "/", None, map[ACCEPT_ENCODING := acceptEncoding], false)
  }

  /** The requests of `gzip,,sdch` and `gzip,sdch` are two entries of an archive, and one when it is loaded. */
  lemma TwoEntriesBecomeOne()
    ensures var a, b := Accepting("gzip" + ",," + SDCH), Accepting("gzip" + "," + SDCH);
      a.Key() != b.Key() && Reloaded(a).Key() == Reloaded(b).Key() && |LoadedKeys({a, b})| == 1
  {
    OneEntryFor("gzip");
  }

  lemma OneEntryFor(w: string)
    requires 's' !in w && w != "" && w[|w| - 1] != ','
    ensures var a, b := Accepting(w + ",," + SDCH), Accepting(w + "," + SDCH);
      a.Key() != b.Key() && Reloaded(a).Key() == Reloaded(b).Key() && |LoadedKeys({a, b})| == 1
  {
    var a, b := Accepting(w + ",," + SDCH), Accepting(w + "," + SDCH);
    TrimmedTails(w);
    AcceptingKeys(w + ",," + SDCH);
    AcceptingKeys(w + "," + SDCH);
    hide TrimValue, Accepting, Reloaded;
    DifferentKeys(w + ",", w);
    LoadedPair(a, b);
  }

  lemma DifferentKeys(v: string, w: string)
    requires |v| != |w|
    ensures AcceptingKey(v) != AcceptingKey(w)
  {
    assert AcceptingKey(v).trimmed[ACCEPT_ENCODING] != AcceptingKey(w).trimmed[ACCEPT_ENCODING];
  }

  lemma LoadedPair(a: Request, b: Request)
    requires Reloaded(a).Key() == Reloaded(b).Key()
    ensures |LoadedKeys({a, b})| == 1
  {
    hide Reloaded;
    assert LoadedKeys({a, b}) == {Reloaded(a).Key()};
  }

  /** What such a request is compared by, before and after loading. */
  function AcceptingKey(value: string): Request {
    Request("GET", "example.com", "/", None, map[], false, map[ACCEPT_ENCODING := value])
  }

  lemma AcceptingKeys(v: string)
    ensures Accepting(v).Key() == AcceptingKey(TrimValue(v))
    ensures Reloaded(Accepting(v)).Key() == AcceptingKey(TrimValue(TrimValue(v)))
  {
    hide TrimValue, LowerCase;
    KeptKey();
    TrimmedSingle(v);
    TrimmedSingle(TrimValue(v));
  }

  lemma TrimmedSingle(v: string)
    ensures var headers := map[ACCEPT_ENCODING := v];
      Cleaned(headers) == map[ACCEPT_ENCODING := TrimValue(v)] == Trimmed(headers)
  {
    hide TrimValue, LowerCase;
    KeptKey();
  }

  lemma TrimmedTails(w: string)
    requires 's' !in w && w != "" && w[|w| - 1] != ','
    ensures TrimValue(w + ",," + SDCH) == w + "," && TrimValue(w + "," + SDCH) == w
    ensures TrimValue(w + ",") == w && TrimValue(w) == w
  {
    ErasedTail(w);
    ErasedTail(w + ",");
    ErasedTail(w + ",,");
    assert w + ",," == (w + ",") + COMMA;
    hide Erase, TrimValue;
    TrimsComma(w + ",," + SDCH, w + ",");
    TrimsComma(w + "," + SDCH, w);
    TrimsComma(w + ",", w);
    TrimsNothing(w);
  }

  lemma TrimsComma(v: string, s: string)
    requires Erase(v, SDCH) == s + COMMA
    ensures TrimValue(v) == s
  {
    hide Erase;
  }

  lemma TrimsNothing(v: string)
    requires Erase(v, SDCH) == v && v != "" && v[|v| - 1] != ','
    ensures TrimValue(v) == v
  {
    hide Erase;
    assert v[|v| - 1..] == [v[|v| - 1]];
  }

  lemma ErasedTail(s: string)
    requires 's' !in s
    ensures Erase(s, SDCH) == s && Erase(s + SDCH, SDCH) == s
  {
    AbsentChar(s, SDCH);
    EraseChanges(s);
    forall i | At(s + SDCH, SDCH, i) ensures i + 4 <= |s| || i >= |s| {
      assert (s + SDCH)[i] == (s + SDCH)[i..i + |SDCH|][0] == 's';
    }
    EraseSum(s, SDCH);
    SdchErased();
  }

  // ---------------------------------------------------------------- the dictionary, in place

  class HeaderDict {
    var items: Headers

    constructor (items: Headers)
      ensures this.items == items
    {
      this.items := items;
    }
  }

  /** `_TrimHeaders` also cleans the dictionary it is given. */
  method TrimHeaders(headers: HeaderDict) returns (trimmed: Headers)
    modifies headers
    ensures headers.items == Cleaned(old(headers.items)) && trimmed == Trimmed(old(headers.items))
  {
    hide Erase, EndsWith, LowerCase;
    if ACCEPT_ENCODING in headers.items {
      var value := Erase(headers.items[ACCEPT_ENCODING], SDCH);
      headers.items := headers.items[ACCEPT_ENCODING := value];
      if EndsWith(value, COMMA) {
        headers.items := headers.items[ACCEPT_ENCODING := value[..|value| - 1]];
      }
    }
    assert headers.items == Cleaned(old(headers.items));
    trimmed := map k | k in headers.items && LowerCase(k) !in UNDESIRABLE :: headers.items[k];
  }
}
