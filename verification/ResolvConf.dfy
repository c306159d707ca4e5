/** The Linux name-server switch (srdns.py): rewriting resolv.conf, line by line and over whole runs. */
module ResolvConf {
  import opened PyStrings
  import opened Basics

  const NEWLINE := "\n"
  const KEYWORD := "nameserver "

  /** `readlines()`: lines with their newline; only the last may lack one. */
  function ReadLines(content: string): seq<string> {
    if content == "" then []
    else
      var i := Find(content, NEWLINE);
      if i < 0 then [content] else [content[..i + 1]] + ReadLines(content[i + 1..])
  }

  predicate NamesServer(line: string) {
    KEYWORD <= line
  }

  /** The first nameserver line becomes `nsline`, later ones go, and `nsline` is appended if there is none. */
  function Rewrite(lines: seq<string>, nsline: string, replaced: bool): seq<string> {
    if lines == [] then (if replaced then [] else [nsline])
    else if NamesServer(lines[0]) then
      (if replaced then [] else [nsline]) + Rewrite(lines[1..], nsline, true)
    else [lines[0]] + Rewrite(lines[1..], nsline, replaced)
  }

  function AfterSet(content: string, server: string): string {
    Join(NEWLINE, Rewrite(ReadLines(content), KEYWORD + server, false))
  }

  // ---------------------------------------------------------------- non-blank lines

  function NonEmpty(lines: seq<string>): seq<string> {
    if lines == [] then []
    else Kept(lines[0]) + NonEmpty(lines[1..])
  }

  /** The lines of a file, without line ends and without blank lines. */
  function Lines(content: string): seq<string> {
    NonEmpty(Split(content, NEWLINE))
  }

  function Kept(line: string): seq<string> {
    if line == "" then [] else [line]
  }

  lemma NonEmptyFirst(lines: seq<string>)
    requires lines != []
    ensures NonEmpty(lines) == Kept(lines[0]) + NonEmpty(lines[1..])
  {
  }

  lemma {:induction false} NonEmptyPlus(a: seq<string>, b: seq<string>)
    ensures NonEmpty(a + b) == NonEmpty(a) + NonEmpty(b)
  {
    if a == [] {
      assert a + b == b;
    } else {
      NonEmptyPlus(a[1..], b);
      NonEmptyFirst(a);
      NonEmptyFirst(a + b);
      TailOfSum(a, b);
      hide NonEmpty, Kept;
      Associates(Kept(a[0]), NonEmpty(a[1..]), NonEmpty(b));
    }
  }

  lemma NewlineBorderFree()
    ensures BorderFree(NEWLINE)
  {
  }

  /** A line as read: free of newlines, but for one that may end it. */
  ghost predicate IsLine(line: string) {
    !Contains(line, NEWLINE) || (line != "" && line[|line| - 1] == '\n' && !Contains(line[..|line| - 1], NEWLINE))
  }

  ghost predicate AllLines(lines: seq<string>) {
    lines != [] ==> IsLine(lines[0]) && AllLines(lines[1..])
  }

  function Body(line: string): string {
    if line != "" && line[|line| - 1] == '\n' then line[..|line| - 1] else line
  }

  /** The non-blank text of a line read from a file is its body. */
  lemma LineBody(line: string)
    requires IsLine(line)
    ensures Lines(line) == if Body(line) == "" then [] else [Body(line)]
    ensures NamesServer(Body(line)) == NamesServer(line)
  {
    FindSpec(line, NEWLINE);
    if !Contains(line, NEWLINE) {
      if line != "" && line[|line| - 1] == '\n' {
        EndsInNewline(line);
      }
      assert Body(line) == line;
      assert Split(line, NEWLINE) == [line] && [line][1..] == [];
      NonEmptyFirst([line]);
    } else {
      var text := Body(line);
      assert line == text + NEWLINE + "";
      assert text + NEWLINE[..0] == text;
      NewlineBorderFree();
      FirstAtSeam(text, NEWLINE, 0, "");
      SplitCut(line, NEWLINE, text, "");
      assert Split("", NEWLINE) == [""];
      NonEmptyPlus([text], [""]);
      assert [text][1..] == [] && [""][1..] == [];
      KeywordOnOneLine(text);
    }
  }

  lemma KeywordOnOneLine(text: string)
    ensures NamesServer(text + NEWLINE) == NamesServer(text)
  {
    if |text| + 1 == |KEYWORD| {
      assert (text + NEWLINE)[|text|] == '\n' && KEYWORD[|KEYWORD| - 1] == ' ';
    }
    if |text| >= |KEYWORD| {
      assert (text + NEWLINE)[..|KEYWORD|] == text[..|KEYWORD|];
    }
  }

  /** Reading lines and splitting at newlines give the same non-blank lines. */
  lemma {:induction false} ReadLinesAreLines(content: string)
    ensures AllLines(ReadLines(content))
    ensures Visible(ReadLines(content)) == Lines(content)
    decreases |content|
  {
    var i := Find(content, NEWLINE);
    if content == "" || i < 0 {
      LastLine(content);
    } else {
      var before, rest := Cut(content, NEWLINE);
      assert content[..i + 1] == before + NEWLINE && content[i + 1..] == rest && content[..i] == before;
      BeforeFirstFree(content, NEWLINE);
      assert ReadLines(content) == [before + NEWLINE] + ReadLines(rest);
      ReadLinesAreLines(rest);
      hide ReadLines, Find, Split, Lines, Visible, AllLines;
      FirstLine(before, rest);
      VisibleFirst(before + NEWLINE, ReadLines(rest));
      FirstIsLine(before, ReadLines(rest));
    }
  }

  lemma LastLine(content: string)
    requires content == "" || Find(content, NEWLINE) < 0
    ensures AllLines(ReadLines(content))
    ensures Visible(ReadLines(content)) == Lines(content)
  {
    FindSpec(content, NEWLINE);
    if content == "" {
      assert Split("", NEWLINE) == [""] && [""][1..] == [];
    } else {
      assert [content][1..] == [];
      assert SplitAll([content], NEWLINE) == Split(content, NEWLINE) + [];
    }
  }

  lemma FirstIsLine(before: string, rest: seq<string>)
    requires !Contains(before, NEWLINE) && AllLines(rest)
    ensures AllLines([before + NEWLINE] + rest)
  {
    var line := before + NEWLINE;
    assert line[..|line| - 1] == before && line[|line| - 1] == '\n';
    assert IsLine(line) && ([line] + rest)[1..] == rest;
  }

  lemma FirstLine(before: string, rest: string)
    requires !Contains(before, NEWLINE)
    ensures Lines(before + NEWLINE + rest) == Kept(before) + Lines(rest)
    ensures Lines(before + NEWLINE) == Kept(before)
  {
    assert before + NEWLINE[..0] == before;
    NewlineBorderFree();
    FirstAtSeam(before, NEWLINE, 0, rest);
    SplitCut(before + NEWLINE + rest, NEWLINE, before, rest);
    NonEmptyPlus([before], Split(rest, NEWLINE));
    assert [before][1..] == [];
    NonEmptyFirst([before]);
    OwnLine(before);
  }

  lemma OwnLine(before: string)
    requires !Contains(before, NEWLINE)
    ensures Lines(before + NEWLINE) == Kept(before)
  {
    var line := before + NEWLINE;
    assert line[..|line| - 1] == before && line[|line| - 1] == '\n';
    LineBody(line);
  }

  /** The non-blank text of a list of raw lines. */
  function Visible(lines: seq<string>): seq<string> {
    NonEmpty(SplitAll(lines, NEWLINE))
  }

  /** Rewriting the raw lines and rewriting the non-blank ones amounts to the same. */
  lemma {:induction false} RewriteLines(lines: seq<string>, nsline: string, replaced: bool)
    requires AllLines(lines) && !Contains(nsline, NEWLINE) && NamesServer(nsline)
    ensures Visible(Rewrite(lines, nsline, replaced)) == Rewrite(Visible(lines), nsline, replaced)
  {
    OneLine(nsline);
    if lines != [] {
      var line, rest := lines[0], lines[1..];
      assert lines == [line] + rest;
      RewriteLines(rest, nsline, replaced || NamesServer(line));
      LineBody(line);
      VisibleFirst(line, rest);
      RewriteFirst(line, rest, nsline, replaced);
      RewriteFirst(Body(line), Visible(rest), nsline, replaced);
      VisibleFirst(line, Rewrite(rest, nsline, replaced));
      VisibleFirst(nsline, Rewrite(rest, nsline, true));
      NothingBefore(Visible(rest));
      NothingBefore(Rewrite(rest, nsline, true));
      hide Visible, Lines, Rewrite;
    } else {
      VisibleFirst(nsline, []);
    }
  }

  lemma NothingBefore(lines: seq<string>)
    ensures [] + lines == lines
  {
  }

  lemma OneLine(line: string)
    requires !Contains(line, NEWLINE) && NamesServer(line)
    ensures Lines(line) == [line]
  {
    FindSpec(line, NEWLINE);
    LineBody(line);
    if line[|line| - 1] == '\n' {
      EndsInNewline(line);
    }
  }

  lemma EndsInNewline(line: string)
    requires line != "" && line[|line| - 1] == '\n'
    ensures Contains(line, NEWLINE)
  {
    assert At(line, NEWLINE, |line| - 1);
  }

  lemma VisibleFirst(line: string, rest: seq<string>)
    ensures Visible([line] + rest) == Lines(line) + Visible(rest)
  {
    assert ([line] + rest)[1..] == rest;
    NonEmptyPlus(Split(line, NEWLINE), SplitAll(rest, NEWLINE));
  }

  lemma RewriteFirst(line: string, rest: seq<string>, nsline: string, replaced: bool)
    ensures Rewrite([line] + rest, nsline, replaced)
            == if NamesServer(line) then (if replaced then [] else [nsline]) + Rewrite(rest, nsline, true)
               else [line] + Rewrite(rest, nsline, replaced)
  {
    assert ([line] + rest)[1..] == rest;
  }

  lemma {:induction false} RewriteHasLine(lines: seq<string>, nsline: string)
    ensures nsline in Rewrite(lines, nsline, false)
  {
    if lines != [] && !NamesServer(lines[0]) {
      RewriteHasLine(lines[1..], nsline);
    }
  }

  lemma {:induction false} NonEmptyKeeps(lines: seq<string>, line: string)
    ensures line in NonEmpty(lines) ==> line in lines
  {
    if lines != [] {
      NonEmptyKeeps(lines[1..], line);
    }
  }

  /** Setting a server rewrites the non-blank lines of the file and changes them in no other way, exactly
      when the server holds no newline; however the blank lines multiply. */
  lemma SetRewritesLines(content: string, server: string)
    ensures Lines(AfterSet(content, server)) == Rewrite(Lines(content), KEYWORD + server, false)
            <==> !Contains(server, NEWLINE)
  {
    var nsline := KEYWORD + server;
    NewlineIn(server);
    RewriteHasLine(ReadLines(content), nsline);
    RewriteHasLine(Lines(content), nsline);
    var lines := Rewrite(ReadLines(content), nsline, false);
    if Contains(server, NEWLINE) {
      SplitPiecesFree(AfterSet(content, server), NEWLINE);
      NonEmptyKeeps(Split(AfterSet(content, server), NEWLINE), nsline);
    } else {
      ReadLinesAreLines(content);
      RewriteLines(ReadLines(content), nsline, false);
      NewlineBorderFree();
      SplitJoin(lines, NEWLINE);
    }
  }

  lemma NewlineIn(server: string)
    ensures Contains(KEYWORD + server, NEWLINE) <==> Contains(server, NEWLINE)
  {
    forall i ensures At(KEYWORD + server, NEWLINE, i) <==> At(server, NEWLINE, i - |KEYWORD|) {
      AtShift(KEYWORD, server, NEWLINE, i);
      if 0 <= i < |KEYWORD| {
        assert KEYWORD[i] != '\n' && (KEYWORD + server)[i..i + 1][0] == KEYWORD[i];
      }
    }
    if Contains(server, NEWLINE) {
      var i :| At(server, NEWLINE, i);
      assert At(KEYWORD + server, NEWLINE, i + |KEYWORD|);
    }
  }

  // ---------------------------------------------------------------- what a rewrite does

  function Servers(lines: seq<string>): seq<string> {
    if lines == [] then []
    else (if NamesServer(lines[0]) then [lines[0]] else []) + Servers(lines[1..])
  }

  function Others(lines: seq<string>): seq<string> {
    if lines == [] then []
    else (if NamesServer(lines[0]) then [] else [lines[0]]) + Others(lines[1..])
  }

  /** After a rewrite the new line is the only nameserver line, the others keep their order, and a
      second rewrite changes nothing. */
  lemma {:induction false} RewriteEffect(lines: seq<string>, nsline: string, replaced: bool)
    requires NamesServer(nsline)
    ensures var r := Rewrite(lines, nsline, replaced);
      && Servers(r) == (if replaced then [] else [nsline])
      && Others(r) == Others(lines)
      && Rewrite(r, nsline, replaced) == r
  {
    if lines == [] {
      assert [nsline][1..] == [];
    } else {
      RewriteEffect(lines[1..], nsline, replaced || NamesServer(lines[0]));
      var rest := Rewrite(lines[1..], nsline, replaced || NamesServer(lines[0]));
      assert ([nsline] + rest)[1..] == rest && ([lines[0]] + rest)[1..] == rest && [] + rest == rest;
    }
  }

  /** The new line stands where the first nameserver line stood, and at the end if there was none. */
  lemma {:induction false} RewritePlace(before: seq<string>, server: string, after: seq<string>, nsline: string)
    requires Servers(before) == []
    ensures Rewrite(before, nsline, false) == before + [nsline]
    ensures "nameserver " <= server ==>
              Rewrite(before + ([server] + after), nsline, false) == before + ([nsline] + Others(after))
  {
    if before == [] {
      assert before + ([server] + after) == [server] + after;
      RewriteFirst(server, after, nsline, false);
      RestGoes(after, nsline);
      assert before + [nsline] == [nsline] && before + ([nsline] + Others(after)) == [nsline] + Others(after);
    } else {
      assert Servers(before[1..]) == [] && !NamesServer(before[0]);
      RewritePlace(before[1..], server, after, nsline);
      TailOfSum(before, [server] + after);
      assert before == [before[0]] + before[1..];
      assert before + [nsline] == [before[0]] + (before[1..] + [nsline]);
      assert before + ([nsline] + Others(after)) == [before[0]] + (before[1..] + ([nsline] + Others(after)));
    }
  }

  lemma {:induction false} RestGoes(lines: seq<string>, nsline: string)
    ensures Rewrite(lines, nsline, true) == Others(lines)
  {
    if lines != [] {
      RestGoes(lines[1..], nsline);
    }
  }

  /** Which lines name a server, and that the two kinds are all there are. */
  lemma {:induction false} ServersAndOthers(lines: seq<string>, line: string)
    ensures line in Servers(lines) <==> line in lines && "nameserver " <= line
    ensures line in Others(lines) <==> line in lines && !("nameserver " <= line)
  {
    if lines != [] {
      ServersAndOthers(lines[1..], line);
      assert lines == [lines[0]] + lines[1..];
    }
  }

  // ---------------------------------------------------------------- runs

  datatype Operation = Set(server: string) | Reset

  ghost predicate WellFormed(ops: seq<Operation>) {
    ops != [] ==> (ops[|ops| - 1].Set? ==> !Contains(ops[|ops| - 1].server, NEWLINE)) && WellFormed(ops[..|ops| - 1])
  }

  function After(saved: string, file: string, ops: seq<Operation>): string {
    if ops == [] then file
    else match ops[|ops| - 1]
      case Set(server) => AfterSet(After(saved, file, ops[..|ops| - 1]), server)
      case Reset => saved
  }

  predicate HasReset(ops: seq<Operation>) {
    ops != [] && (ops[|ops| - 1].Reset? || HasReset(ops[..|ops| - 1]))
  }

  /** After any sequence of sets and resets, whatever was saved earlier: a final reset gives the saved file;
      after a final set there is exactly that nameserver line, and setting the same server again changes
      no non-blank line; all other lines are those of the file at hand up to the first reset, and those of
      the saved one from then on, in order. */
  lemma {:induction false} RunsKeepOtherLines(saved: string, start: string, ops: seq<Operation>)
    requires WellFormed(ops)
    ensures var file := After(saved, start, ops);
      && Others(Lines(file)) == Others(Lines(if HasReset(ops) then saved else start))
      && (ops != [] ==> match ops[|ops| - 1]
            case Reset => file == saved
            case Set(server) =>
              && Servers(Lines(file)) == [KEYWORD + server]
              && Lines(AfterSet(file, server)) == Lines(file))
  {
    if ops != [] {
      var before := ops[..|ops| - 1];
      RunsKeepOtherLines(saved, start, before);
      match ops[|ops| - 1]
      case Reset =>
      case Set(server) =>
        var previous := After(saved, start, before);
        var file := AfterSet(previous, server);
        SetRewritesLines(previous, server);
        SetRewritesLines(file, server);
        RewriteEffect(Lines(previous), KEYWORD + server, false);
    }
  }

  // ---------------------------------------------------------------- the modifier

  class LinuxDnsModifier {
    var resolvConf: string
    var backup: Option<string>

    constructor (file: string, backup: Option<string>)
      ensures resolvConf == file && this.backup == backup
    {
      resolvConf, this.backup := file, backup;
    }

    /** Saves the file unless there is a backup already. */
    method SaveDns()
      modifies `backup
      ensures backup == if old(backup).None? then Some(resolvConf) else old(backup)
    {
      if backup.None? {
        backup := Some(resolvConf);
      }
    }

    /** False when there is no backup to copy. */
    method ResetDns() returns (ok: bool)
      modifies `resolvConf
      ensures ok <==> backup.Some?
      ensures resolvConf == if ok then backup.value else old(resolvConf)
    {
      ok := backup.Some?;
      if ok {
        resolvConf := backup.value;
      }
    }

    method SetDns(server: string)
      modifies `resolvConf
      ensures resolvConf == AfterSet(old(resolvConf), server)
    {
      var lines := ReadLines(resolvConf);
      var nsline := KEYWORD + server;
      var replaced := false;
      var newlines := [];
      for i := 0 to |lines|
        invariant Rewrite(lines, nsline, false) == newlines + Rewrite(lines[i..], nsline, replaced)
      {
        ghost var rest := Rewrite(lines[i..], nsline, replaced);
        assert lines[i..][0] == lines[i] && lines[i..][1..] == lines[i + 1..];
        if NamesServer(lines[i]) {
          if !replaced {
            newlines := newlines + [nsline];
            replaced := true;
          }
        } else {
          newlines := newlines + [lines[i]];
        }
      }
      assert lines[|lines|..] == [] && newlines + [] == newlines;
      if !replaced {
        newlines := newlines + [nsline];
      }
      resolvConf := Join(NEWLINE, newlines);
    }
  }
}
