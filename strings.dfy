/**
 * Text helpers shared by the scrapers and the statistics generators.
 * They model the Python string methods the pipeline relies on:
 * containment, prefixes, splitting, joining, stripping, case mapping and
 * the collapse of white-space runs into single blanks.
 * Case mapping is modelled on ASCII letters only.
 */
module Strings {
  import opened Wrappers

  /**
   * The characters Python's splitting, stripping and regular expressions treat as
   * white space: tab to carriage return, the four separators 0x1C-0x1F,
   * the blank, and the Unicode spaces and line separators.
   */
  predicate IsSpace(c: char)
  {
    ('\t' <= c <= '\r') || ('\U{1C}' <= c <= ' ') || c == '\U{85}' || c == '\U{A0}' || c == '\U{1680}'
    || ('\U{2000}' <= c <= '\U{200A}') || c == '\U{2028}' || c == '\U{2029}' || c == '\U{202F}'
    || c == '\U{205F}' || c == '\U{3000}'
  }

  predicate IsDigit(c: char) { '0' <= c <= '9' }

  predicate IsAsciiLetter(c: char) { 'a' <= c <= 'z' || 'A' <= c <= 'Z' }

  /** A word character of Python's regular expressions on the ASCII range: letters, digits and the underscore. */
  predicate IsWordChar(c: char) { IsAsciiLetter(c) || IsDigit(c) || c == '_' }

  function LowerChar(c: char): char
  {
    if 'A' <= c <= 'Z' then (c as int + 32) as char else c
  }

  function UpperChar(c: char): char
  {
    if 'a' <= c <= 'z' then (c as int - 32) as char else c
  }

  /** The text in lower case. */
  function Lower(s: string): (r: string)
  {
    seq(|s|, i requires 0 <= i < |s| => LowerChar(s[i]))
  }

  /** The text in upper case. */
  function Upper(s: string): (r: string)
    ensures |r| == |s|
    ensures forall i :: 0 <= i < |s| ==> r[i] == UpperChar(s[i])
  {
    seq(|s|, i requires 0 <= i < |s| => UpperChar(s[i]))
  }

  lemma LowerIdempotent(s: string)
    ensures Lower(Lower(s)) == Lower(s)
  {
  }

  /** `sub in s` */
  predicate Contains(s: string, sub: string)
    decreases |s|
  {
    sub <= s || (|s| > 0 && Contains(s[1..], sub))
  }

  /** The text ends with `suffix`. */
  predicate EndsWith(s: string, suffix: string)
  {
    |suffix| <= |s| && s[|s| - |suffix|..] == suffix
  }

  /** The first position at which `sub` occurs, if any. */
  function IndexOf(s: string, sub: string): (r: Option<nat>)
    ensures r.Some? ==> r.value + |sub| <= |s|
    decreases |s|
  {
    if sub <= s then Some(0)
    else if |s| == 0 then None
    else match IndexOf(s[1..], sub)
      case None => None
      case Some(i) => Some(i + 1)
  }

  /** `find` succeeds exactly when `sub` occurs, at an occurrence with none before it. */
  lemma {:induction false} IndexOfMeaning(s: string, sub: string)
    ensures var r := IndexOf(s, sub);
      (r.Some? <==> Contains(s, sub))
      && (r.Some? ==> s[r.value..r.value + |sub|] == sub)
      && (r.Some? ==> forall j :: 0 <= j < r.value ==> !(sub <= s[j..]))
    decreases |s|
  {
    if sub <= s {
      assert s[0..|sub|] == sub;
    } else if |s| > 0 {
      IndexOfMeaning(s[1..], sub);
      match IndexOf(s[1..], sub)
      case None =>
      case Some(i) =>
        assert s[i + 1..i + 1 + |sub|] == s[1..][i..i + |sub|];
        forall j | 0 <= j < i + 1
          ensures !(sub <= s[j..])
        {
          if j > 0 {
            assert s[j..] == s[1..][j - 1..];
          }
        }
    }
  }

  lemma ContainsAt(s: string, sub: string, i: nat)
    requires i + |sub| <= |s| && s[i..i + |sub|] == sub
    ensures Contains(s, sub)
    decreases i
  {
    if i > 0 {
      assert s[1..][i - 1..i - 1 + |sub|] == sub;
      ContainsAt(s[1..], sub, i - 1);
    }
  }

  /** A text that does not contain `sub` has no part that does. */
  lemma NotContainsPrefix(s: string, t: string, sub: string)
    requires t <= s && !Contains(s, sub)
    ensures !Contains(t, sub)
  {
  }

  /** No occurrence of `sub` ends before its first occurrence. */
  lemma NothingBeforeFirst(s: string, sub: string, i: nat)
    requires |sub| > 0 && i <= |s|
    requires forall j :: 0 <= j < i ==> !(sub <= s[j..])
    ensures !Contains(s[..i], sub)
    decreases i
  {
    if i > 0 {
      assert !(sub <= s[0..]);
      assert s[..i][1..] == s[1..][..i - 1];
      assert forall j :: 0 <= j < i - 1 ==> s[1..][j..] == s[j + 1..];
      NothingBeforeFirst(s[1..], sub, i - 1);
    }
  }

  /** The pieces of the text between the occurrences of a non-empty separator. */
  function SplitOn(s: string, sep: string): (parts: seq<string>)
    requires |sep| > 0
    ensures |parts| >= 1
    decreases |s|
  {
    match IndexOf(s, sep)
    case None => [s]
    case Some(i) => [s[..i]] + SplitOn(s[i + |sep|..], sep)
  }

  /** The split has one piece exactly when `sep` is absent; its first piece starts the text and holds no `sep`. */
  lemma SplitOnFirst(s: string, sep: string)
    requires |sep| > 0
    ensures var parts := SplitOn(s, sep);
      (|parts| == 1 <==> !Contains(s, sep)) && !Contains(parts[0], sep) && parts[0] <= s
  {
    IndexOfMeaning(s, sep);
    match IndexOf(s, sep)
    case None =>
    case Some(i) =>
      NothingBeforeFirst(s, sep, i);
      assert SplitOn(s, sep)[0] == s[..i];
  }

  /** The text before the first occurrence of `sep`. */
  function Before(s: string, sep: string): (r: string)
    requires |sep| > 0
    ensures r <= s && !Contains(r, sep)
    ensures !Contains(s, sep) ==> r == s
  {
    SplitOnFirst(s, sep);
    SplitOn(s, sep)[0]
  }

  /** Unless `sep` is absent, the text before its first occurrence is followed by it. */
  lemma BeforeStops(s: string, sep: string)
    requires |sep| > 0
    ensures Before(s, sep) == s || sep <= s[|Before(s, sep)|..]
  {
    IndexOfMeaning(s, sep);
    match IndexOf(s, sep)
    case None =>
    case Some(i) =>
      assert Before(s, sep) == s[..i];
      assert s[i..][..|sep|] == s[i..i + |sep|];
  }

  /** The text between the first occurrence of `sep` and the next one. */
  lemma SplitSecond(s: string, sep: string)
    requires |sep| > 0 && IndexOf(s, sep).Some?
    ensures |SplitOn(s, sep)| >= 2
    ensures SplitOn(s, sep)[1] == Before(s[IndexOf(s, sep).value + |sep|..], sep)
  {
    var i := IndexOf(s, sep).value;
    SplitOnFound(s, sep, i);
    var parts := SplitOn(s[i + |sep|..], sep);
    assert ([s[..i]] + parts)[1] == parts[0];
  }

  /** Where `sep` first occurs at `i`, the split goes on after it. */
  lemma SplitOnFound(s: string, sep: string, i: nat)
    requires |sep| > 0 && IndexOf(s, sep) == Some(i)
    ensures i + |sep| <= |s|
    ensures SplitOn(s, sep) == [s[..i]] + SplitOn(s[i + |sep|..], sep)
  {
  }

  /**
   * The text after the last occurrence of `sep` (the last piece of the
   * split on `sep`): the whole text when `sep` does not occur, else a
   * suffix without `sep` that `sep` precedes.
   */
  function AfterLast(s: string, sep: string): (r: string)
    requires |sep| > 0
    ensures !Contains(s, sep) ==> r == s
    ensures Contains(s, sep) ==> EndsWith(s, sep + r) && !Contains(r, sep)
    decreases |s|
  {
    IndexOfMeaning(s, sep);
    match IndexOf(s, sep)
    case None => s
    case Some(i) =>
      var rest := s[i + |sep|..];
      var r := AfterLast(rest, sep);
      assert EndsWith(s, sep + r) by {
        if Contains(rest, sep) {
          EndsWithSuffix(s, rest, sep + r);
        } else {
          assert s == s[..i] + sep + rest by {
            assert s[i..i + |sep|] == sep;
          }
        }
      }
      r
  }

  /** A suffix of a suffix is a suffix. */
  lemma EndsWithSuffix(s: string, t: string, x: string)
    requires EndsWith(t, x) && EndsWith(s, t)
    ensures EndsWith(s, x)
  {
    assert s[|s| - |x|..] == t[|t| - |x|..];
  }

  /** The parts joined with `sep` between each two. */
  function Join(sep: string, parts: seq<string>): string
  {
    if |parts| == 0 then ""
    else if |parts| == 1 then parts[0]
    else parts[0] + sep + Join(sep, parts[1..])
  }

  /** The text without the leading characters that are in `chars`. */
  function LStripSet(s: string, chars: set<char>): (r: string)
    ensures |r| <= |s| && r == s[|s| - |r|..]
    ensures |r| > 0 ==> r[0] !in chars
    decreases |s|
  {
    if |s| > 0 && s[0] in chars then LStripSet(s[1..], chars) else s
  }

  /** The text without the trailing characters that are in `chars`. */
  function RStripSet(s: string, chars: set<char>): (r: string)
    ensures r <= s
    ensures |r| > 0 ==> r[|r| - 1] !in chars
    decreases |s|
  {
    if |s| > 0 && s[|s| - 1] in chars then RStripSet(s[..|s| - 1], chars) else s
  }

  /** Right-stripping a set removes characters of that set only. */
  lemma {:induction false} RStripSetDropped(s: string, chars: set<char>)
    ensures forall i :: |RStripSet(s, chars)| <= i < |s| ==> s[i] in chars
    decreases |s|
  {
    if |s| > 0 && s[|s| - 1] in chars {
      RStripSetDropped(s[..|s| - 1], chars);
    }
  }

  /** The text without leading and trailing characters in `chars`. */
  function StripSet(s: string, chars: set<char>): (r: string)
    ensures |r| > 0 ==> r[0] !in chars && r[|r| - 1] !in chars
  {
    RStripSet(LStripSet(s, chars), chars)
  }

  /** The text without leading white space. */
  function LStrip(s: string): (r: string)
    ensures |r| <= |s| && r == s[|s| - |r|..]
    decreases |s|
  {
    if |s| > 0 && IsSpace(s[0]) then LStrip(s[1..]) else s
  }

  /** The text without trailing white space. */
  function RStrip(s: string): (r: string)
    ensures r <= s
    decreases |s|
  {
    if |s| > 0 && IsSpace(s[|s| - 1]) then RStrip(s[..|s| - 1]) else s
  }

  /** The text without leading and trailing white space. */
  function Strip(s: string): (r: string)
    ensures |r| <= |s|
  {
    RStrip(LStrip(s))
  }

  lemma {:induction false} LStripEnd(s: string)
    ensures var r := LStrip(s); |r| > 0 ==> !IsSpace(r[0])
    decreases |s|
  {
    if |s| > 0 && IsSpace(s[0]) {
      LStripEnd(s[1..]);
    }
  }

  lemma {:induction false} RStripEnd(s: string)
    ensures var r := RStrip(s); |r| > 0 ==> !IsSpace(r[|r| - 1])
    decreases |s|
  {
    if |s| > 0 && IsSpace(s[|s| - 1]) {
      RStripEnd(s[..|s| - 1]);
    }
  }

  /** The strip of a text neither starts nor ends with white space. */
  lemma StripEnds(s: string)
    ensures var r := Strip(s); |r| > 0 ==> !IsSpace(r[0]) && !IsSpace(r[|r| - 1])
  {
    StripFirst(s);
    RStripEnd(LStrip(s));
  }

  lemma StripFirst(s: string)
    ensures var r := Strip(s); |r| > 0 ==> !IsSpace(r[0])
  {
    var l := LStrip(s);
    LStripEnd(s);
    var r := RStrip(l);
    if |r| > 0 {
      assert r[0] == l[0];
    }
  }

  /** A text with no white space at either end is its own strip. */
  lemma StripFixed(s: string)
    requires |s| > 0 ==> !IsSpace(s[0]) && !IsSpace(s[|s| - 1])
    ensures Strip(s) == s
  {
  }

  lemma StripIdempotent(s: string)
    ensures Strip(Strip(s)) == Strip(s)
  {
    var r := Strip(s);
    StripFirst(s);
    RStripEnd(LStrip(s));
    assert LStrip(r) == r;
  }

  /** A text with no leading or trailing character of `chars` is its own strip. */
  lemma StripSetFixed(s: string, chars: set<char>)
    requires |s| > 0 ==> s[0] !in chars && s[|s| - 1] !in chars
    ensures StripSet(s, chars) == s
  {
  }

  lemma StripSetIdempotent(s: string, chars: set<char>)
    ensures StripSet(StripSet(s, chars), chars) == StripSet(s, chars)
  {
    StripSetFixed(StripSet(s, chars), chars);
  }

  /** The text with `suffix` removed from its end when it ends with it. */
  function RemoveSuffix(s: string, suffix: string): (r: string)
    ensures r <= s
    ensures EndsWith(s, suffix) && |suffix| > 0 ==> |r| < |s|
    ensures !EndsWith(s, suffix) ==> r == s
  {
    if |suffix| > 0 && EndsWith(s, suffix) then s[..|s| - |suffix|] else s
  }

  /** The text after any leading white space. */
  function DropSpaces(s: string): (r: string)
    ensures |r| < |s| || r == s
    ensures |r| <= |s| && r == s[|s| - |r|..]
    ensures |r| > 0 ==> !IsSpace(r[0])
    decreases |s|
  {
    if |s| > 0 && IsSpace(s[0]) then DropSpaces(s[1..]) else s
  }

  /** The blank at `i`, if any, is not followed by another. */
  predicate BlankNotDoubled(s: string, i: int)
  {
    0 <= i < |s| - 1 && s[i] == ' ' ==> s[i + 1] != ' '
  }

  /** Putting `c` in front keeps blanks single unless it doubles the first. */
  lemma BlankNotDoubledCons(c: char, t: string)
    requires forall i :: 0 <= i < |t| - 1 ==> BlankNotDoubled(t, i)
    requires c == ' ' && |t| > 0 ==> t[0] != ' '
    ensures forall i :: 0 <= i < |[c] + t| - 1 ==> BlankNotDoubled([c] + t, i)
  {
    forall i | 0 <= i < |[c] + t| - 1
      ensures BlankNotDoubled([c] + t, i)
    {
      if i > 0 {
        assert BlankNotDoubled(t, i - 1);
      }
    }
  }

  /** Every run of white space becomes one blank. */
  function Squash(s: string): (r: string)
    ensures forall i :: 0 <= i < |r| && IsSpace(r[i]) ==> r[i] == ' '
    ensures forall i :: 0 <= i < |r| - 1 ==> BlankNotDoubled(r, i)
    ensures |s| > 0 && |r| > 0 ==> (r[0] == ' ' <==> IsSpace(s[0]))
    decreases |s|
  {
    if |s| == 0 then ""
    else if IsSpace(s[0]) then
      var rest := DropSpaces(s[1..]);
      assert |rest| < |s|;
      BlankNotDoubledCons(' ', Squash(rest));
      " " + Squash(rest)
    else
      BlankNotDoubledCons(s[0], Squash(s[1..]));
      [s[0]] + Squash(s[1..])
  }

  /**
   * White space in canonical form: no white space but single blanks,
   * none at either end. Joining the white-space-separated words with
   * blanks, and collapsing the runs before stripping, both produce such texts.
   */
  predicate Tidy(s: string)
  {
    (forall i :: 0 <= i < |s| && IsSpace(s[i]) ==> s[i] == ' ')
    && (forall i :: 0 <= i < |s| - 1 ==> BlankNotDoubled(s, i))
    && (|s| > 0 ==> s[0] != ' ' && s[|s| - 1] != ' ')
  }

  /** The words of the text joined by single blanks: white-space runs collapsed, then the ends stripped. */
  function Collapse(s: string): (r: string)
    ensures Tidy(r)
  {
    var q := Squash(s);
    var r := Strip(q);
    StripKeepsSquashed(q);
    r
  }

  /** Only single blanks as white space (the first two conditions of `Tidy`). */
  predicate Squashed(q: string)
  {
    (forall i :: 0 <= i < |q| && IsSpace(q[i]) ==> q[i] == ' ')
    && (forall i :: 0 <= i < |q| - 1 ==> BlankNotDoubled(q, i))
  }

  lemma SquashedSlice(q: string, a: nat, b: nat)
    requires a <= b <= |q| && Squashed(q)
    ensures Squashed(q[a..b])
  {
    var t := q[a..b];
    assert forall i :: 0 <= i < |t| ==> t[i] == q[a + i];
    forall i | 0 <= i < |t| - 1
      ensures BlankNotDoubled(t, i)
    {
      assert BlankNotDoubled(q, a + i);
    }
  }

  lemma StripKeepsSquashed(q: string)
    requires Squashed(q)
    ensures Tidy(Strip(q))
  {
    var l := LStrip(q);
    SquashedSlice(q, |q| - |l|, |q|);
    assert l == q[|q| - |l|..|q|];
    var r := RStrip(l);
    SquashedSlice(l, 0, |r|);
    assert r == l[0..|r|];
    StripEnds(q);
  }

  /** Squashing a text that is already squashed changes nothing. */
  lemma {:induction false} SquashedFixed(q: string)
    requires Squashed(q)
    ensures Squash(q) == q
    decreases |q|
  {
    if |q| > 0 {
      SquashedSlice(q, 1, |q|);
      assert q[1..] == q[1..|q|];
      if IsSpace(q[0]) {
        assert BlankNotDoubled(q, 0);
        assert DropSpaces(q[1..]) == q[1..];
      }
      SquashedFixed(q[1..]);
    }
  }

  lemma SquashTidy(s: string)
    requires Tidy(s)
    ensures Squash(s) == s
  {
    SquashedFixed(s);
  }

  /** Collapsing white space twice changes nothing more. */
  lemma CollapseIdempotent(s: string)
    ensures Collapse(Collapse(s)) == Collapse(s)
  {
    var c := Collapse(s);
    TidyFixed(c);
  }

  lemma TidyFixed(s: string)
    requires Tidy(s)
    ensures Collapse(s) == s
  {
    SquashTidy(s);
    StripFixed(s);
  }

  /** Squashing only keeps characters of its input and adds blanks. */
  lemma {:induction false} SquashChars(s: string)
    ensures forall c :: c in Squash(s) ==> c in s || c == ' '
    decreases |s|
  {
    if |s| > 0 {
      var t := s[1..];
      if IsSpace(s[0]) {
        var rest := DropSpaces(t);
        SquashChars(rest);
        assert Squash(s) == " " + Squash(rest);
        assert forall c :: c in rest ==> c in t;
      } else {
        SquashChars(t);
        assert Squash(s) == [s[0]] + Squash(t);
      }
      assert forall c :: c in t ==> c in s;
    }
  }

  /** Collapsing white space only keeps characters of its input and adds blanks. */
  lemma CollapseChars(s: string)
    ensures forall c :: c in Collapse(s) ==> c in s || c == ' '
  {
    var q := Squash(s);
    SquashChars(s);
    var l := LStrip(q);
    assert forall c :: c in l ==> c in q;
    var r := RStrip(l);
    assert forall c :: c in r ==> c in l;
    assert Collapse(s) == r;
  }

  /** The decimal digit for 0..9. */
  function DigitChar(d: int): char
    requires 0 <= d <= 9
  {
    ('0' as int + d) as char
  }

  /** The decimal text of a natural number. */
  function NatToString(n: nat): (r: string)
    ensures |r| >= 1
    ensures forall i :: 0 <= i < |r| ==> IsDigit(r[i])
    decreases n
  {
    if n < 10 then [DigitChar(n)] else NatToString(n / 10) + [DigitChar(n % 10)]
  }

  /** The decimal text of an integer, with a minus sign when negative. */
  function IntToString(n: int): string
  {
    if n < 0 then "-" + NatToString(-n) else NatToString(n)
  }

  /** The value of a text of decimal digits. */
  function ParseDigits(s: string): nat
    requires forall i :: 0 <= i < |s| ==> IsDigit(s[i])
    decreases |s|
  {
    if |s| == 0 then 0
    else
      assert IsDigit(s[|s| - 1]);
      10 * ParseDigits(s[..|s| - 1]) + (s[|s| - 1] as int - '0' as int)
  }

  lemma ParseNatToString(n: nat)
    ensures ParseDigits(NatToString(n)) == n
    decreases n
  {
    if n >= 10 {
      var s := NatToString(n);
      assert s[..|s| - 1] == NatToString(n / 10);
      ParseNatToString(n / 10);
    }
  }

  /** Replace every occurrence of the character `c` by `by`. */
  function ReplaceChar(s: string, c: char, repl: string): (r: string)
    ensures c !in repl ==> c !in r
    decreases |s|
  {
    if |s| == 0 then ""
    else (if s[0] == c then repl else [s[0]]) + ReplaceChar(s[1..], c, repl)
  }

  /** The position of the first `c` in `s`, if any. */
  function FindChar(s: string, c: char): (r: Option<nat>)
    ensures r.Some? ==> r.value < |s| && s[r.value] == c && c !in s[..r.value]
    ensures r.None? ==> c !in s
    decreases |s|
  {
    if |s| == 0 then None
    else if s[0] == c then Some(0)
    else match FindChar(s[1..], c)
      case None => None
      case Some(j) =>
        assert s[..j + 1] == [s[0]] + s[1..][..j];
        Some(j + 1)
  }

  /** The characters Python's line splitting breaks lines at. */
  const LineBreaks: set<char> := {
    '\n', '\r', '\U{B}', '\U{C}', '\U{1C}', '\U{1D}', '\U{1E}', '\U{85}', '\U{2028}', '\U{2029}'
  }

  /** The position of the first line break in `s`, if any. */
  function FirstLineBreak(s: string): (r: Option<nat>)
    ensures r.Some? ==> r.value < |s| && s[r.value] in LineBreaks
    ensures r.Some? ==> forall k :: 0 <= k < r.value ==> s[k] !in LineBreaks
    ensures r.None? ==> forall k :: 0 <= k < |s| ==> s[k] !in LineBreaks
    decreases |s|
  {
    if |s| == 0 then None
    else if s[0] in LineBreaks then Some(0)
    else match FirstLineBreak(s[1..])
      case None => None
      case Some(j) => Some(j + 1)
  }

  /** The lines of a text, without their breaks; a carriage return and line feed is one break; no empty last line. */
  function SplitLines(s: string): (lines: seq<string>)
    ensures forall i, k :: 0 <= i < |lines| && 0 <= k < |lines[i]| ==> lines[i][k] !in LineBreaks
    ensures |s| == 0 <==> |lines| == 0
    decreases |s|
  {
    match FirstLineBreak(s)
    case None => if |s| == 0 then [] else [s]
    case Some(i) =>
      var next := if s[i] == '\r' && i + 1 < |s| && s[i + 1] == '\n' then i + 2 else i + 1;
      [s[..i]] + SplitLines(s[next..])
  }
}
