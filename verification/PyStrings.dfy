/** The Python string operations the harness is built on (`find`, `split`, `join`, `replace`),
    and the facts about a separator that decide when splitting undoes joining. */
module PyStrings {
  import opened Basics

  /** One character of `s.lower()`, which is also how patterns that ignore case compare. */
  function Lower(c: char): char {
    if 'A' <= c <= 'Z' then c - 'A' + 'a' else c
  }

  /** `sep` occurs in `s` at index `i`. */
  predicate At(s: string, sep: string, i: int) {
    0 <= i <= |s| - |sep| && s[i..i + |sep|] == sep
  }

  ghost predicate Contains(s: string, sep: string) {
    exists i :: At(s, sep, i)
  }

  function FindFrom(s: string, sep: string, from: nat): (r: int)
    requires from <= |s|
    ensures r == -1 || from <= r <= |s| - |sep|
    decreases |s| - from
  {
    if At(s, sep, from) then from
    else if from == |s| then -1
    else FindFrom(s, sep, from + 1)
  }

  /** The leftmost occurrence, or -1. */
  function Find(s: string, sep: string): (r: int)
    ensures r == -1 || 0 <= r <= |s| - |sep|
  {
    FindFrom(s, sep, 0)
  }

  /** Leftmost, non-overlapping split. */
  function Split(s: string, sep: string): (parts: seq<string>)
    requires sep != ""
    ensures |parts| >= 1
    decreases |s|
  {
    var i := Find(s, sep);
    if i < 0 then [s] else [s[..i]] + Split(s[i + |sep|..], sep)
  }

  function Join(sep: string, parts: seq<string>): string {
    if |parts| == 0 then ""
    else if |parts| == 1 then parts[0]
    else parts[0] + sep + Join(sep, parts[1..])
  }

  /** `s.replace(old, "")` */
  function Erase(s: string, old_: string): string
    requires old_ != ""
  {
    Join("", Split(s, old_))
  }

  function Concat(parts: seq<string>): string {
    if |parts| == 0 then "" else parts[0] + Concat(parts[1..])
  }

  ghost predicate AllFree(parts: seq<string>, sep: string) {
    forall p :: p in parts ==> !Contains(p, sep)
  }

  /** No proper border of `sep` is longer than `k`. */
  ghost predicate BordersUpTo(sep: string, k: nat) {
    k < |sep| && forall b {:trigger sep[..b]} :: k < b < |sep| ==> sep[..b] != sep[|sep| - b..]
  }

  ghost predicate BorderFree(sep: string) {
    BordersUpTo(sep, 0)
  }

  // ---------------------------------------------------------------- find

  lemma {:induction false} FindFromSpec(s: string, sep: string, from: nat)
    requires from <= |s|
    ensures var r := FindFrom(s, sep, from);
      && (r >= 0 ==> At(s, sep, r))
      && forall j :: from <= j && (r == -1 || j < r) ==> !At(s, sep, j)
    decreases |s| - from
  {
    if !At(s, sep, from) && from < |s| {
      FindFromSpec(s, sep, from + 1);
    }
  }

  /** `Find` returns an occurrence, none lies before it, and -1 means there is none. */
  lemma FindSpec(s: string, sep: string)
    ensures var r := Find(s, sep);
      && (r >= 0 ==> At(s, sep, r))
      && (forall j :: j < r ==> !At(s, sep, j))
      && (r >= 0 <==> Contains(s, sep))
  {
    FindFromSpec(s, sep, 0);
  }

  lemma FindIs(s: string, sep: string, i: nat)
    requires At(s, sep, i)
    requires forall j :: 0 <= j < i ==> !At(s, sep, j)
    ensures Find(s, sep) == i
  {
    FindSpec(s, sep);
  }

  lemma FirstCharIn(s: string, sep: string, i: int)
    requires At(s, sep, i) && sep != ""
    ensures sep[0] in s
  {
    assert s[i] == s[i..i + |sep|][0];
  }

  lemma AbsentChar(s: string, sep: string)
    requires sep != "" && sep[0] !in s
    ensures !Contains(s, sep) && Find(s, sep) == -1
  {
    FindSpec(s, sep);
    if Find(s, sep) >= 0 {
      FirstCharIn(s, sep, Find(s, sep));
    }
  }

  lemma AtShift(a: string, b: string, sep: string, i: int)
    ensures i >= |a| ==> (At(a + b, sep, i) <==> At(b, sep, i - |a|))
    ensures 0 <= i <= |a| - |sep| ==> (At(a + b, sep, i) <==> At(a, sep, i))
  {
    if i >= |a| && i + |sep| <= |a| + |b| {
      assert (a + b)[i..i + |sep|] == b[i - |a|..i - |a| + |sep|];
    }
    if 0 <= i <= |a| - |sep| {
      assert (a + b)[i..i + |sep|] == a[i..i + |sep|];
    }
  }

  /** An occurrence reaching into a separator written after `a` makes a border of it. */
  lemma Overlap(a: string, sep: string, rest: string, j: nat)
    requires j < |a| < j + |sep| && At(a + sep + rest, sep, j)
    ensures sep[..j + |sep| - |a|] == sep[|a| - j..]
  {
    var t := a + sep + rest;
    var b := j + |sep| - |a|;
    assert sep[..b] == t[|a|..|a| + b] == t[j..j + |sep|][|sep| - b..];
  }

  /** A separator written after `a` is the first one found, whatever follows, as soon as `a`
      extended by the longest border of the separator is free of it. */
  lemma FirstAtSeam(a: string, sep: string, k: nat, rest: string)
    requires BordersUpTo(sep, k) && !Contains(a + sep[..k], sep)
    ensures Find(a + sep + rest, sep) == |a|
  {
    var t := a + sep + rest;
    assert t[|a|..|a| + |sep|] == sep;
    forall j | 0 <= j < |a|
      ensures !At(t, sep, j)
    {
      if At(t, sep, j) {
        var b := j + |sep| - |a|;
        if b <= k {
          assert t == (a + sep[..k]) + (sep[k..] + rest);
          AtShift(a + sep[..k], sep[k..] + rest, sep, j);
        } else {
          Overlap(a, sep, rest, j);
        }
      }
    }
    FindIs(t, sep, |a|);
  }

  // ---------------------------------------------------------------- split and join

  /** Joining what a split returned gives the text back, for every text and separator. */
  lemma {:induction false} JoinSplit(s: string, sep: string)
    requires sep != ""
    ensures Join(sep, Split(s, sep)) == s
    decreases |s|
  {
    var i := Find(s, sep);
    if i >= 0 {
      FindSpec(s, sep);
      var rest := Split(s[i + |sep|..], sep);
      JoinSplit(s[i + |sep|..], sep);
      assert ([s[..i]] + rest)[1..] == rest;
      assert s == s[..i] + s[i..i + |sep|] + s[i + |sep|..];
    }
  }

  lemma BeforeFirstFree(s: string, sep: string)
    requires sep != "" && Find(s, sep) >= 0
    ensures !Contains(s[..Find(s, sep)], sep)
  {
    var i := Find(s, sep);
    FindSpec(s, sep);
    assert s == s[..i] + s[i..];
    forall j ensures !At(s[..i], sep, j) {
      AtShift(s[..i], s[i..], sep, j);
    }
  }

  /** The pieces of a split never contain the separator. */
  lemma {:induction false} SplitPiecesFree(s: string, sep: string)
    requires sep != ""
    ensures AllFree(Split(s, sep), sep)
    decreases |s|
  {
    var i := Find(s, sep);
    FindSpec(s, sep);
    if i >= 0 {
      BeforeFirstFree(s, sep);
      SplitPiecesFree(s[i + |sep|..], sep);
    }
  }

  lemma FindInPrefix(a: string, b: string, sep: string)
    requires Find(a, sep) >= 0
    ensures Find(a + b, sep) == Find(a, sep)
  {
    FindSpec(a, sep);
    forall j | 0 <= j <= Find(a, sep) ensures At(a + b, sep, j) <==> At(a, sep, j) {
      AtShift(a, b, sep, j);
    }
    FindIs(a + b, sep, Find(a, sep));
  }

  // ---------------------------------------------------------------- gluing two texts

  function Glue(xs: seq<string>, ys: seq<string>): (r: seq<string>)
    requires |xs| >= 1 && |ys| >= 1
    ensures |r| == |xs| + |ys| - 1
  {
    xs[..|xs| - 1] + [xs[|xs| - 1] + ys[0]] + ys[1..]
  }

  /** No occurrence of `sep` in `a + b` uses characters of both. */
  ghost predicate NoStraddle(a: string, b: string, sep: string) {
    forall i :: At(a + b, sep, i) ==> i + |sep| <= |a| || i >= |a|
  }

  lemma StraddleUsesBoth(a: string, b: string, sep: string, i: nat)
    requires At(a + b, sep, i) && i < |a| < i + |sep|
    ensures a[|a| - 1] in sep && b != "" && b[0] in sep
  {
    assert sep[|a| - 1 - i] == (a + b)[|a| - 1] && sep[|a| - i] == (a + b)[|a|];
  }

  lemma NoStraddleAtSeam(a: string, b: string, sep: string)
    requires (a != "" && a[|a| - 1] !in sep) || (b != "" && b[0] !in sep)
    ensures NoStraddle(a, b, sep)
  {
    forall i | At(a + b, sep, i)
      ensures i + |sep| <= |a| || i >= |a|
    {
      if i < |a| < i + |sep| {
        StraddleUsesBoth(a, b, sep, i);
      }
    }
  }

  /** Splitting a concatenation fuses the last piece of the left with the first of the right,
      provided no separator lies across the seam. */
  lemma {:induction false} SplitGlue(a: string, b: string, sep: string)
    requires sep != "" && NoStraddle(a, b, sep)
    ensures Split(a + b, sep) == Glue(Split(a, sep), Split(b, sep))
    decreases |a|
  {
    FindInGlued(a, b, sep);
    var i := Find(a, sep);
    if i >= 0 {
      NoStraddleLater(a, b, sep, i + |sep|);
      SplitGlue(a[i + |sep|..], b, sep);
      GlueAfterFirst(a, b, sep);
    } else {
      GlueOntoFree(a, b, sep);
    }
  }

  lemma SplitCut(s: string, sep: string, before: string, after: string)
    requires sep != "" && s == before + sep + after && Find(s, sep) == |before|
    ensures Split(s, sep) == [before] + Split(after, sep)
  {
    assert s[..|before|] == before && s[|before| + |sep|..] == after;
  }

  lemma GlueCons(x: string, xs: seq<string>, ys: seq<string>)
    requires xs != [] && ys != []
    ensures Glue([x] + xs, ys) == [x] + Glue(xs, ys)
  {
  }

  lemma GlueAfterFirst(a: string, b: string, sep: string)
    requires sep != "" && Find(a, sep) >= 0 && Find(a + b, sep) == Find(a, sep)
    requires var a' := a[Find(a, sep) + |sep|..];
      Split(a' + b, sep) == Glue(Split(a', sep), Split(b, sep))
    ensures Split(a + b, sep) == Glue(Split(a, sep), Split(b, sep))
  {
    var before, after := Cut(a, sep);
    SplitCut(a, sep, before, after);
    assert a + b == before + sep + (after + b);
    SplitCut(a + b, sep, before, after + b);
    GlueCons(before, Split(after, sep), Split(b, sep));
  }

  lemma Cut(s: string, sep: string) returns (before: string, after: string)
    requires Find(s, sep) >= 0
    ensures s == before + sep + after && |before| == Find(s, sep) && after == s[|before| + |sep|..]
  {
    FindSpec(s, sep);
    before, after := s[..Find(s, sep)], s[Find(s, sep) + |sep|..];
  }

  lemma GlueOne(a: string, y: string, ys: seq<string>)
    ensures Glue([a], [y] + ys) == [a + y] + ys
  {
    assert ([y] + ys)[1..] == ys;
  }

  lemma GlueOntoFree(a: string, b: string, sep: string)
    requires sep != "" && Find(a, sep) < 0
    requires Find(a + b, sep) == if Find(b, sep) >= 0 then |a| + Find(b, sep) else -1
    ensures Split(a + b, sep) == Glue(Split(a, sep), Split(b, sep))
  {
    assert Split(a, sep) == [a];
    if Find(b, sep) >= 0 {
      GlueOntoCut(a, b, sep);
    } else {
      GlueOne(a, b, []);
      assert Split(b, sep) == [b] == [b] + [] && Split(a + b, sep) == [a + b] + [];
    }
  }

  lemma GlueOntoCut(a: string, b: string, sep: string)
    requires sep != "" && Find(b, sep) >= 0 && Find(a + b, sep) == |a| + Find(b, sep)
    ensures Split(a + b, sep) == Glue([a], Split(b, sep))
  {
    var before, after := Cut(b, sep);
    SplitCut(b, sep, before, after);
    Regroup(a, before, sep, after);
    SplitCut(a + b, sep, a + before, after);
    GlueOne(a, before, Split(after, sep));
  }

  lemma Regroup(a: string, x: string, y: string, z: string)
    ensures a + (x + y + z) == (a + x) + y + z
    ensures a + (x + y) == (a + x) + y
  {
  }

  lemma NoStraddleLater(a: string, b: string, sep: string, k: nat)
    requires NoStraddle(a, b, sep) && k <= |a|
    ensures NoStraddle(a[k..], b, sep)
  {
    assert a + b == a[..k] + (a[k..] + b);
    forall j | At(a[k..] + b, sep, j) ensures j + |sep| <= |a| - k || j >= |a| - k {
      AtShift(a[..k], a[k..] + b, sep, j + k);
    }
  }

  lemma FindInGlued(a: string, b: string, sep: string)
    requires sep != "" && NoStraddle(a, b, sep)
    ensures Find(a + b, sep) == if Find(a, sep) >= 0 then Find(a, sep)
                                else if Find(b, sep) >= 0 then |a| + Find(b, sep) else -1
  {
    var t := a + b;
    FindSpec(a, sep);
    FindSpec(b, sep);
    FindSpec(t, sep);
    forall j ensures At(t, sep, j) <==> At(a, sep, j) || At(b, sep, j - |a|) {
      AtShift(a, b, sep, j);
    }
    if Find(a, sep) >= 0 {
      FindInPrefix(a, b, sep);
    } else if Find(b, sep) >= 0 {
      FindIs(t, sep, |a| + Find(b, sep));
    }
  }

  lemma GlueEmpty(xs: seq<string>, ys: seq<string>)
    requires xs != []
    ensures Glue(xs, [""] + ys) == xs + ys
  {
    assert ([""] + ys)[1..] == ys;
    assert xs == xs[..|xs| - 1] + [xs[|xs| - 1]] && xs[|xs| - 1] + "" == xs[|xs| - 1];
  }

  // ---------------------------------------------------------------- splitting what was joined

  lemma SplitAcross(a: string, sep: string, rest: string)
    requires BorderFree(sep)
    ensures Split(a + sep + rest, sep) == Split(a, sep) + Split(rest, sep)
  {
    assert a + sep + rest == a + (sep + rest);
    forall i | At(a + (sep + rest), sep, i) ensures i + |sep| <= |a| || i >= |a| {
      if i < |a| < i + |sep| {
        Overlap(a, sep, rest, i);
      }
    }
    SplitGlue(a, sep + rest, sep);
    FindIs(sep + rest, sep, 0);
    assert sep + rest == "" + sep + rest;
    SplitCut(sep + rest, sep, "", rest);
    GlueEmpty(Split(a, sep), Split(rest, sep));
  }

  function SplitAll(parts: seq<string>, sep: string): seq<string>
    requires sep != ""
  {
    if |parts| == 0 then [] else Split(parts[0], sep) + SplitAll(parts[1..], sep)
  }

  lemma {:induction false} SplitJoin(parts: seq<string>, sep: string)
    requires BorderFree(sep) && parts != []
    ensures Split(Join(sep, parts), sep) == SplitAll(parts, sep)
  {
    if |parts| == 1 {
      assert SplitAll(parts[1..], sep) == [];
    } else {
      SplitAcross(parts[0], sep, Join(sep, parts[1..]));
      SplitJoin(parts[1..], sep);
    }
  }

  lemma {:induction false} SplitAllSize(parts: seq<string>, sep: string)
    requires sep != ""
    ensures |SplitAll(parts, sep)| >= |parts|
    ensures |SplitAll(parts, sep)| == |parts| <==> AllFree(parts, sep)
    ensures AllFree(parts, sep) ==> SplitAll(parts, sep) == parts
  {
    if |parts| > 0 {
      SplitAllSize(parts[1..], sep);
      FindSpec(parts[0], sep);
      assert parts == [parts[0]] + parts[1..];
      assert AllFree(parts, sep) <==> !Contains(parts[0], sep) && AllFree(parts[1..], sep);
    }
  }

  /** For a border-free separator, splitting undoes joining exactly for the non-empty lists whose
      members are free of it. */
  lemma SplitUndoesJoin(parts: seq<string>, sep: string)
    requires BorderFree(sep)
    ensures Split(Join(sep, parts), sep) == parts <==> parts != [] && AllFree(parts, sep)
  {
    if parts != [] {
      SplitJoin(parts, sep);
      SplitAllSize(parts, sep);
    }
  }

  ghost predicate RoundTripsAllFree(sep: string)
    requires sep != ""
  {
    forall parts :: parts != [] && AllFree(parts, sep) ==> Split(Join(sep, parts), sep) == parts
  }

  /** Border-freeness is not only sufficient: without it some separator-free list is split wrongly. */
  lemma RoundTripNeedsBorderFree(sep: string)
    requires sep != ""
    ensures RoundTripsAllFree(sep) <==> BorderFree(sep)
  {
    if BorderFree(sep) {
      forall parts | parts != [] && AllFree(parts, sep)
        ensures Split(Join(sep, parts), sep) == parts
      {
        SplitUndoesJoin(parts, sep);
      }
    } else {
      var b :| 0 < b < |sep| && sep[..b] == sep[|sep| - b..];
      var a := sep[..|sep| - b];
      var parts := [a, ""];
      var t := Join(sep, parts);
      assert Join(sep, parts[1..]) == "";
      assert t == a + sep;
      assert t[..|sep|] == a + sep[..b] == sep;
      FindIs(t, sep, 0);
      assert Split(t, sep)[0] == "";
      assert AllFree(parts, sep);
    }
  }

  // ---------------------------------------------------------------- concatenation

  lemma {:induction false} ConcatPlus(xs: seq<string>, ys: seq<string>)
    ensures Concat(xs + ys) == Concat(xs) + Concat(ys)
  {
    if |xs| == 0 {
      assert xs + ys == ys;
    } else {
      ConcatPlus(xs[1..], ys);
      TailOfSum(xs, ys);
      Regroup(xs[0], Concat(xs[1..]), Concat(ys), "");
    }
  }

  lemma {:induction false} JoinEmptyIsConcat(parts: seq<string>)
    ensures Join("", parts) == Concat(parts)
  {
    if |parts| > 1 {
      JoinEmptyIsConcat(parts[1..]);
    }
  }
}
