/** Numerals as Python prints and parses them: `str(n)`, `'%x' % n` and `int(text, 16)`. */
module Numerals {
  import opened Basics

  function Digit(d: nat): char
    requires d < 16
  {
    if d < 10 then '0' + d as char else 'a' + (d - 10) as char
  }

  /** The value of a digit of either case, or -1. */
  function DigitValue(c: char): int {
    if '0' <= c <= '9' then c as int - '0' as int
    else if 'a' <= c <= 'f' then c as int - 'a' as int + 10
    else if 'A' <= c <= 'F' then c as int - 'A' as int + 10
    else -1
  }

  function Print(n: nat, base: nat): (s: string)
    requires 2 <= base <= 16
    ensures s != ""
  {
    if n < base then [Digit(n)] else Print(n / base, base) + [Digit(n % base)]
  }

  /** Horner evaluation; None unless the text is a non-empty run of digits. */
  function Parse(s: string, base: nat): Option<nat>
    requires 2 <= base <= 16
  {
    if s == "" then None
    else
      var d := DigitValue(s[|s| - 1]);
      if !(0 <= d < base) then None
      else if |s| == 1 then Some(d)
      else
        match Parse(s[..|s| - 1], base)
        case None => None
        case Some(hi) => Some(hi * base + d)
  }

  lemma DigitRoundTrip(d: nat)
    requires d < 16
    ensures DigitValue(Digit(d)) == d
  {
  }

  lemma ParseLast(s: string, c: char, base: nat)
    requires 2 <= base <= 16 && Parse(s, base).Some? && 0 <= DigitValue(c) < base
    ensures Parse(s + [c], base) == Some(Parse(s, base).value * base + DigitValue(c))
  {
    var t := s + [c];
    assert t[..|s|] == s && t[|t| - 1] == c && s != "";
  }

  lemma ParseDigit(d: nat, base: nat)
    requires 2 <= base <= 16 && d < base
    ensures Parse([Digit(d)], base) == Some(d)
  {
    DigitRoundTrip(d);
  }

  lemma PrintCut(n: nat, base: nat)
    requires 2 <= base <= 16 && n >= base
    ensures Print(n, base) == Print(n / base, base) + [Digit(n % base)]
  {
  }

  /** Parsing a printed number gives the number back. */
  lemma {:induction false} PrintParse(n: nat, base: nat)
    requires 2 <= base <= 16
    ensures Parse(Print(n, base), base) == Some(n)
  {
    if n < base {
      ParseDigit(n, base);
    } else {
      PrintParse(n / base, base);
      DigitRoundTrip(n % base);
      ParseLast(Print(n / base, base), Digit(n % base), base);
      PrintCut(n, base);
      DivMod(n, base);
    }
  }

  lemma DivMod(n: nat, base: nat)
    requires base > 0
    ensures (n / base) * base + n % base == n
  {
  }

  /** A printed number is made of digit values only. */
  lemma {:induction false} PrintDigits(n: nat, base: nat)
    requires 2 <= base <= 16
    ensures forall c :: c in Print(n, base) ==> 0 <= DigitValue(c) < base
  {
    if n < base {
      DigitRoundTrip(n);
    } else {
      PrintDigits(n / base, base);
      DigitRoundTrip(n % base);
    }
  }

  /** A text with anything else in it is no number. */
  lemma {:induction false} NotDigits(s: string, i: nat)
    requires i < |s| && DigitValue(s[i]) < 0
    ensures Parse(s, 16) == None
  {
    if i < |s| - 1 {
      NotDigits(s[..|s| - 1], i);
    }
  }

  // ---------------------------------------------------------------- int(text, 16)

  predicate IsSpace(c: char) {
    c == ' ' || '\t' <= c <= '\r'
  }

  function StripLeft(s: string): string {
    if s != "" && IsSpace(s[0]) then StripLeft(s[1..]) else s
  }

  function StripRight(s: string): string {
    if s != "" && IsSpace(s[|s| - 1]) then StripRight(s[..|s| - 1]) else s
  }

  /** `int(text, 16)`: surrounding blanks, a sign and an `0x` prefix are accepted; None is ValueError. */
  function IntBase16(text: string): Option<int> {
    var s := StripRight(StripLeft(text));
    var negative := s != "" && s[0] == '-';
    var unsigned := if s != "" && (s[0] == '-' || s[0] == '+') then s[1..] else s;
    match Parse(SkipPrefix(unsigned), 16)
    case None => None
    case Some(n) => Some(if negative then 0 - n as int else n as int)
  }

  function SkipPrefix(s: string): string {
    if |s| >= 2 && s[0] == '0' && (s[1] == 'x' || s[1] == 'X') then s[2..] else s
  }

  lemma DigitRun(s: string)
    requires s != "" && forall i :: 0 <= i < |s| ==> DigitValue(s[i]) >= 0
    ensures s[0] != '-' && s[0] != '+' && SkipPrefix(s) == s
    ensures StripRight(StripLeft(s + "\r\n")) == s
  {
    StripEnd(s);
  }

  /** A line of digits, of either case, is read as their value. */
  lemma DigitLineParses(s: string)
    requires s != "" && forall i :: 0 <= i < |s| ==> DigitValue(s[i]) >= 0
    ensures IntBase16(s + "\r\n") == match Parse(s, 16) case None => None case Some(n) => Some(n as int)
  {
    DigitRun(s);
    hide Parse, StripLeft, StripRight, SkipPrefix;
  }

  /** The size line a sender writes is read back as the size it printed. */
  lemma SizeLineParses(n: nat)
    ensures IntBase16(Print(n, 16) + "\r\n") == Some(n)
  {
    PrintDigits(n, 16);
    hide Parse, IntBase16, Print;
    DigitLineParses(Print(n, 16));
    PrintParse(n, 16);
  }

  lemma StripEnd(s: string)
    requires s != "" && !IsSpace(s[0]) && !IsSpace(s[|s| - 1])
    ensures StripRight(StripLeft(s + "\r\n")) == s
  {
    var t := s + "\r\n";
    assert t[..|t| - 1] == s + "\r" && (s + "\r")[..|s|] == s;
    assert StripRight(t) == StripRight(s + "\r") == StripRight(s) == s;
  }
}
