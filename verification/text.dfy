/** The pieces of Python string handling that the hyperparameter record
    relies on: str.strip(), str.split(), str.join(), readlines(), str() and
    int() on base-10 integers. */
module Text {
  import opened Outcomes

  /** The characters str.isspace() accepts, which str.strip() removes: the
      ASCII controls \t .. \r and \x1c .. \x1f, the blank, and the Unicode
      separators. */
  predicate IsSpace(c: char)
  {
    c == ' ' || '\t' <= c <= '\r' || '\U{001C}' <= c <= '\U{001F}'
    || c == '\U{0085}' || c == '\U{00A0}' || c == '\U{1680}' || '\U{2000}' <= c <= '\U{200A}'
    || c == '\U{2028}' || c == '\U{2029}' || c == '\U{202F}' || c == '\U{205F}' || c == '\U{3000}'
  }

  /** The whitespace int() skips around a number. int() keeps every ASCII
      character as it is and then skips only the C-locale blanks (the blank
      and \t .. \r), while non-ASCII whitespace is read as a blank; so the
      ASCII separators \x1c .. \x1f, which str.isspace() accepts, are not
      skipped. */
  predicate IntSpace(c: char)
  {
    IsSpace(c) && !('\U{001C}' <= c <= '\U{001F}')
  }

  /** Text with no ws character at either end. */
  predicate TrimmedBy(s: string, ws: char -> bool)
  {
    |s| == 0 || (!ws(s[0]) && !ws(s[|s| - 1]))
  }

  /** Text that str.strip() leaves unchanged. */
  predicate Trimmed(s: string)
  {
    TrimmedBy(s, IsSpace)
  }

  /** How many ws characters stripping removes from the front of s. */
  function LeadingSpaces(s: string, ws: char -> bool): (n: nat)
    ensures n <= |s|
  {
    if |s| > 0 && ws(s[0]) then 1 + LeadingSpaces(s[1..], ws) else 0
  }

  /** How many ws characters stripping removes from the back of s. */
  function TrailingSpaces(s: string, ws: char -> bool): (n: nat)
    ensures n <= |s|
  {
    if |s| > 0 && ws(s[|s| - 1]) then 1 + TrailingSpaces(s[..|s| - 1], ws) else 0
  }

  /** The leading run is all ws and stops at another character or the end. */
  lemma {:induction false} LeadingRun(s: string, ws: char -> bool)
    ensures forall i :: 0 <= i < LeadingSpaces(s, ws) ==> ws(s[i])
    ensures LeadingSpaces(s, ws) == |s| || !ws(s[LeadingSpaces(s, ws)])
  {
    if |s| > 0 && ws(s[0]) {
      var t := s[1..];
      LeadingRun(t, ws);
      forall i | 1 <= i < LeadingSpaces(s, ws)
        ensures ws(s[i])
      {
        assert s[i] == t[i - 1];
      }
      assert LeadingSpaces(s, ws) < |s| ==> s[LeadingSpaces(s, ws)] == t[LeadingSpaces(t, ws)];
    }
  }

  /** The trailing run is all ws and stops at another character or the start. */
  lemma {:induction false} TrailingRun(s: string, ws: char -> bool)
    ensures forall i :: |s| - TrailingSpaces(s, ws) <= i < |s| ==> ws(s[i])
    ensures TrailingSpaces(s, ws) == |s| || !ws(s[|s| - 1 - TrailingSpaces(s, ws)])
  {
    if |s| > 0 && ws(s[|s| - 1]) {
      var t := s[..|s| - 1];
      TrailingRun(t, ws);
      forall i | |s| - TrailingSpaces(s, ws) <= i < |s| - 1
        ensures ws(s[i])
      {
        assert s[i] == t[i];
      }
    }
  }

  /** Stripping the characters ws accepts: the result is the slice of s
      starting after its leading ws run, it has no ws character at either
      end, and everything cut away is a ws character. */
  function StripWith(s: string, ws: char -> bool): (r: string)
    ensures TrimmedBy(r, ws)
    ensures LeadingSpaces(s, ws) + |r| <= |s| && r == s[LeadingSpaces(s, ws)..LeadingSpaces(s, ws) + |r|]
    ensures forall i :: 0 <= i < LeadingSpaces(s, ws) ==> ws(s[i])
    ensures forall i :: LeadingSpaces(s, ws) + |r| <= i < |s| ==> ws(s[i])
  {
    var lo := LeadingSpaces(s, ws);
    var t := s[lo..];
    var r := t[..|t| - TrailingSpaces(t, ws)];
    StripParts(s, ws, lo, t, r);
    r
  }

  /** str.strip(). */
  function Strip(s: string): (r: string)
    ensures Trimmed(r)
    ensures LeadingSpaces(s, IsSpace) + |r| <= |s| && r == s[LeadingSpaces(s, IsSpace)..LeadingSpaces(s, IsSpace) + |r|]
    ensures forall i :: 0 <= i < LeadingSpaces(s, IsSpace) ==> IsSpace(s[i])
    ensures forall i :: LeadingSpaces(s, IsSpace) + |r| <= i < |s| ==> IsSpace(s[i])
  {
    StripWith(s, IsSpace)
  }

  lemma StripParts(s: string, ws: char -> bool, lo: nat, t: string, r: string)
    requires lo == LeadingSpaces(s, ws) && t == s[lo..] && r == t[..|t| - TrailingSpaces(t, ws)]
    ensures TrimmedBy(r, ws)
    ensures lo + |r| <= |s| && r == s[lo..lo + |r|]
    ensures forall i :: 0 <= i < lo ==> ws(s[i])
    ensures forall i :: lo + |r| <= i < |s| ==> ws(s[i])
  {
    LeadingRun(s, ws);
    StripCut(s, ws, lo, t, r);
    StripEnds(s, ws, lo, t, r);
  }

  /** The cut-away tail of the stripped text is ws characters. */
  lemma StripCut(s: string, ws: char -> bool, lo: nat, t: string, r: string)
    requires lo <= |s| && t == s[lo..] && r == t[..|t| - TrailingSpaces(t, ws)]
    ensures lo + |r| <= |s| && r == s[lo..lo + |r|]
    ensures forall i :: lo + |r| <= i < |s| ==> ws(s[i])
  {
    TrailingRun(t, ws);
    forall i | lo + |r| <= i < |s|
      ensures ws(s[i])
    {
      assert s[i] == t[i - lo];
    }
  }

  /** The stripped text starts and ends with a character ws rejects. */
  lemma StripEnds(s: string, ws: char -> bool, lo: nat, t: string, r: string)
    requires lo == LeadingSpaces(s, ws) && t == s[lo..] && r == t[..|t| - TrailingSpaces(t, ws)]
    ensures TrimmedBy(r, ws)
  {
    if |r| > 0 {
      LeadingRun(s, ws);
      TrailingRun(t, ws);
      assert r[0] == s[lo];
      assert r[|r| - 1] == t[|t| - TrailingSpaces(t, ws) - 1];
    }
  }

  lemma StripWithKeepsTrimmed(s: string, ws: char -> bool)
    requires TrimmedBy(s, ws)
    ensures StripWith(s, ws) == s
  {
  }

  lemma StripKeepsTrimmed(s: string)
    requires Trimmed(s)
    ensures Strip(s) == s
  {
    StripWithKeepsTrimmed(s, IsSpace);
  }

  /** A blank in front of trimmed text is stripped off. */
  lemma StripWithLeadingBlank(s: string, ws: char -> bool)
    requires ws(' ') && TrimmedBy(s, ws) && |s| > 0
    ensures StripWith(" " + s, ws) == s
  {
    assert (" " + s)[1..] == s;
  }

  lemma StripLeadingBlank(s: string)
    requires Trimmed(s) && |s| > 0
    ensures Strip(" " + s) == s
  {
    StripWithLeadingBlank(s, IsSpace);
  }

  /** Text that str.strip() leaves unchanged is left unchanged by int()'s
      narrower skipping too. */
  lemma TrimmedForInt(s: string)
    requires Trimmed(s)
    ensures TrimmedBy(s, IntSpace)
  {
  }

  // ---------------------------------------------------------------------------
  // split / join

  /** str.split(c) with a one-character separator: the pieces between the
      occurrences of c, never an empty list. */
  function SplitOn(s: string, c: char): (parts: seq<string>)
    ensures |parts| >= 1
    ensures forall i :: 0 <= i < |parts| ==> c !in parts[i]
  {
    if |s| == 0 then [""]
    else
      var rest := SplitOn(s[1..], c);
      if s[0] == c then [""] + rest
      else [[s[0]] + rest[0]] + rest[1..]
  }

  /** sep.join(parts). */
  function Join(parts: seq<string>, sep: string): string
  {
    if |parts| == 0 then ""
    else if |parts| == 1 then parts[0]
    else parts[0] + sep + Join(parts[1..], sep)
  }

  predicate NoneContain(parts: seq<string>, c: char)
  {
    forall i :: 0 <= i < |parts| ==> c !in parts[i]
  }

  lemma {:induction false} SplitWithout(a: string, c: char)
    requires c !in a
    ensures SplitOn(a, c) == [a]
  {
    if |a| > 0 {
      SplitWithout(a[1..], c);
      assert [a[0]] + a[1..] == a;
    }
  }

  lemma {:induction false} SplitAtFirst(a: string, c: char, b: string)
    requires c !in a
    ensures SplitOn(a + [c] + b, c) == [a] + SplitOn(b, c)
  {
    var s := a + [c] + b;
    if |a| == 0 {
      assert s[1..] == b;
    } else {
      assert s[1..] == a[1..] + [c] + b;
      SplitAtFirst(a[1..], c, b);
      assert [a[0]] + a[1..] == a;
    }
  }

  /** Splitting joined pieces on the joining character gives the pieces back. */
  lemma {:induction false} SplitJoin(parts: seq<string>, c: char)
    requires |parts| >= 1 && NoneContain(parts, c)
    ensures SplitOn(Join(parts, [c]), c) == parts
  {
    if |parts| == 1 {
      SplitWithout(parts[0], c);
    } else {
      SplitJoin(parts[1..], c);
      SplitAtFirst(parts[0], c, Join(parts[1..], [c]));
    }
  }

  /** Joining the pieces of a split gives the text back. */
  lemma {:induction false} JoinSplit(s: string, c: char)
    ensures Join(SplitOn(s, c), [c]) == s
  {
    if |s| > 0 {
      JoinSplit(s[1..], c);
      var rest := SplitOn(s[1..], c);
      if s[0] != c {
        var parts := [[s[0]] + rest[0]] + rest[1..];
        if |rest| > 1 {
          assert parts[1..] == rest[1..];
          assert Join(rest, [c]) == rest[0] + [c] + Join(rest[1..], [c]);
        }
      } else {
        assert ([""] + rest)[1..] == rest;
      }
    }
  }

  /** Python's universal newlines, as open() in text mode applies them: each
      "\r\n" and each remaining lone '\r' is read as '\n'. */
  function Universal(s: string): (r: string)
    ensures '\r' !in r
    ensures '\r' !in s ==> r == s
    ensures |r| <= |s|
  {
    if |s| == 0 then ""
    else if s[0] == '\r' then
      if |s| > 1 && s[1] == '\n' then "\n" + Universal(s[2..]) else "\n" + Universal(s[1..])
    else [s[0]] + Universal(s[1..])
  }

  /** A character other than '\r' is read unchanged. */
  lemma UniversalCons(x: char, t: string)
    requires x != '\r'
    ensures Universal([x] + t) == [x] + Universal(t)
  {
    assert ([x] + t)[1..] == t;
  }

  lemma Peel(a: string, m: string, b: string)
    requires |a| > 0
    ensures a + m + b == [a[0]] + (a[1..] + m + b)
  {
    assert [a[0]] + a[1..] == a;
  }

  lemma Regroup(a: string, u: string)
    requires |a| > 0
    ensures [a[0]] + (a[1..] + "\n" + u) == a + "\n" + u
  {
    assert [a[0]] + a[1..] == a;
  }

  /** A line ended by "\r\n" reads as one ended by '\n'. */
  lemma {:induction false} CrLfEnding(a: string, b: string)
    requires '\r' !in a
    ensures Universal(a + "\r\n" + b) == a + "\n" + Universal(b)
  {
    if |a| == 0 {
      assert (a + "\r\n" + b)[2..] == b;
    } else {
      var t := a[1..] + "\r\n" + b;
      Peel(a, "\r\n", b);
      CrLfEnding(a[1..], b);
      UniversalCons(a[0], t);
      Regroup(a, Universal(b));
    }
  }

  /** A line ended by a lone '\r' reads as one ended by '\n'. */
  lemma {:induction false} CrEnding(a: string, b: string)
    requires '\r' !in a && (|b| == 0 || b[0] != '\n')
    ensures Universal(a + "\r" + b) == a + "\n" + Universal(b)
  {
    if |a| == 0 {
      assert (a + "\r" + b)[1..] == b;
    } else {
      var t := a[1..] + "\r" + b;
      Peel(a, "\r", b);
      CrEnding(a[1..], b);
      UniversalCons(a[0], t);
      Regroup(a, Universal(b));
    }
  }

  /** The lines of readlines() with their terminators removed: the text
      after newline translation, cut at every '\n'. readlines() itself keeps
      each '\n'; every caller strips the line, which removes it, so the model
      drops it here. A final newline does not start another line, and no line
      holds a line break of either kind. */
  function ReadLines(text: string): (lines: seq<string>)
    ensures NoneContain(lines, '\n') && NoneContain(lines, '\r')
  {
    var u := Universal(text);
    SplitOnWithout(u, '\n', '\r');
    DropFinalEmpty(SplitOn(u, '\n'))
  }

  /** The pieces without a last piece that is empty. */
  function DropFinalEmpty(parts: seq<string>): (r: seq<string>)
    requires |parts| >= 1
    ensures r <= parts && |parts| - 1 <= |r|
  {
    if parts[|parts| - 1] == "" then parts[..|parts| - 1] else parts
  }

  /** A character the text lacks is in none of the pieces of a split. */
  lemma {:induction false} SplitOnWithout(s: string, c: char, d: char)
    requires d !in s
    ensures NoneContain(SplitOn(s, c), d)
  {
    if |s| > 0 {
      assert d !in s[1..] by {
        assert forall k :: 0 <= k < |s| - 1 ==> s[1..][k] == s[k + 1];
      }
      SplitOnWithout(s[1..], c, d);
    }
  }

  lemma {:induction false} JoinSnoc(parts: seq<string>, sep: string, x: string)
    requires |parts| >= 1
    ensures Join(parts + [x], sep) == Join(parts, sep) + sep + x
  {
    if |parts| > 1 {
      assert (parts + [x])[1..] == parts[1..] + [x];
      JoinSnoc(parts[1..], sep, x);
    }
  }

  /** Dropping one final empty piece loses at most one trailing separator. */
  lemma DropTrailingEmpty(parts: seq<string>, sep: string)
    requires |parts| >= 1
    ensures Join(parts, sep) == Join(DropFinalEmpty(parts), sep)
         || Join(parts, sep) == Join(DropFinalEmpty(parts), sep) + sep
  {
    var n := |parts|;
    if parts[n - 1] == "" && n > 1 {
      var init := parts[..n - 1];
      assert parts == init + [""];
      JoinSnoc(init, sep, "");
    }
  }

  /** The lines read from a text, rejoined with '\n', give the translated
      text back, up to one final line break; a text without '\r' is its own
      translation. */
  lemma ReadLinesJoin(text: string)
    ensures var u := Universal(text);
      u == Join(ReadLines(text), "\n") || u == Join(ReadLines(text), "\n") + "\n"
  {
    JoinSplitLines(Universal(text));
    DropTrailingEmpty(SplitOn(Universal(text), '\n'), "\n");
  }

  lemma JoinSplitLines(text: string)
    ensures Join(SplitOn(text, '\n'), "\n") == text
  {
    assert "\n" == ['\n'];
    JoinSplit(text, '\n');
  }

  /** Joining pieces that lack c with a separator that lacks c gives text that lacks c. */
  lemma {:induction false} JoinNoChar(parts: seq<string>, sep: string, c: char)
    requires NoneContain(parts, c) && c !in sep
    ensures c !in Join(parts, sep)
  {
    if |parts| > 1 {
      JoinNoChar(parts[1..], sep, c);
    }
  }

  /** A text without '\r' is cut at its '\n' characters as it stands. */
  lemma ReadPlainLines(text: string)
    requires '\r' !in text
    ensures ReadLines(text) == DropFinalEmpty(SplitOn(text, '\n'))
  {
  }

  /** Lines written with '\n' between them are read back one for one when
      the last one is not empty. */
  lemma ReadJoinedLines(lines: seq<string>)
    requires |lines| >= 1 && NoneContain(lines, '\n') && NoneContain(lines, '\r')
    requires lines[|lines| - 1] != ""
    ensures ReadLines(Join(lines, "\n")) == lines
  {
    assert "\n" == ['\n'];
    var text := Join(lines, ['\n']);
    JoinNoChar(lines, ['\n'], '\r');
    ReadPlainLines(text);
    SplitJoin(lines, '\n');
    assert ReadLines(text) == DropFinalEmpty(lines) == lines;
  }

  // ---------------------------------------------------------------------------
  // split(sep, 1)

  predicate OccursAt(s: string, sep: string, k: int)
  {
    0 <= k && k + |sep| <= |s| && s[k..k + |sep|] == sep
  }

  /** The first position at or after from where sep occurs in s. */
  function FindFrom(s: string, sep: string, from: nat): (r: Option<nat>)
    requires |sep| > 0
    ensures r.Some? ==> from <= r.value && OccursAt(s, sep, r.value)
    ensures r.Some? ==> forall k :: from <= k < r.value ==> !OccursAt(s, sep, k)
    ensures r.None? ==> forall k :: from <= k ==> !OccursAt(s, sep, k)
    decreases |s| - from
  {
    if from + |sep| > |s| then None
    else if s[from..from + |sep|] == sep then Some(from)
    else FindFrom(s, sep, from + 1)
  }

  /** s.split(sep, 1): the text before and after the first occurrence of
      sep, or s alone when sep does not occur. */
  function SplitFirst(s: string, sep: string): (parts: seq<string>)
    requires |sep| > 0
    ensures 1 <= |parts| <= 2
    ensures |parts| == 1 <==> FindFrom(s, sep, 0).None?
    ensures |parts| == 2 ==> parts[0] + sep + parts[1] == s
  {
    match FindFrom(s, sep, 0)
    case None => [s]
    case Some(i) =>
      assert s == s[..i] + sep + s[i + |sep|..];
      [s[..i], s[i + |sep|..]]
  }

  const Assign: string := " = "

  /** When the text before " = " holds no '=', the split happens right there. */
  lemma SplitFirstAssign(a: string, b: string)
    requires '=' !in a
    ensures SplitFirst(a + Assign + b, Assign) == [a, b]
  {
    var s := a + Assign + b;
    assert OccursAt(s, Assign, |a|) by {
      assert s[|a|..|a| + 3] == Assign;
    }
    forall v | 0 <= v < |a|
      ensures !OccursAt(s, Assign, v)
    {
      assert s[v..v + 3][1] == s[v + 1];
      if v + 1 < |a| {
        assert s[v + 1] == a[v + 1];
      } else {
        assert s[v + 1] == Assign[0];
      }
      assert s[v + 1] != '=';
    }
    assert FindFrom(s, Assign, 0) == Some(|a|);
    assert s[..|a|] == a;
    assert s[|a| + 3..] == b;
  }

  // ---------------------------------------------------------------------------
  // str(int) and int(str)

  predicate IsDigit(c: char)
  {
    '0' <= c <= '9'
  }

  predicate AllDigits(s: string)
  {
    |s| > 0 && forall i :: 0 <= i < |s| ==> IsDigit(s[i])
  }

  function DigitChar(d: nat): (c: char)
    requires d < 10
    ensures IsDigit(c) && c as int - '0' as int == d
  {
    ('0' as int + d) as char
  }

  /** The value of a string of decimal digits, most significant first. */
  function DigitsValue(s: string): nat
    requires forall i :: 0 <= i < |s| ==> IsDigit(s[i])
  {
    if |s| == 0 then 0
    else
      var d := s[|s| - 1] as int - '0' as int;
      assert IsDigit(s[|s| - 1]);
      DigitsValue(s[..|s| - 1]) * 10 + d
  }

  /** str(n) for n >= 0. */
  function NatToString(n: nat): (s: string)
    ensures AllDigits(s)
  {
    if n < 10 then [DigitChar(n)] else NatToString(n / 10) + [DigitChar(n % 10)]
  }

  lemma {:induction false} NatToStringValue(n: nat)
    ensures DigitsValue(NatToString(n)) == n
  {
    if n >= 10 {
      NatToStringValue(n / 10);
      var s := NatToString(n);
      assert s[..|s| - 1] == NatToString(n / 10);
    }
  }

  /** str(i) for any Python int. */
  function IntToString(i: int): (s: string)
    ensures Trimmed(s) && |s| > 0
    ensures forall k :: 0 <= k < |s| ==> s[k] != ',' && s[k] != '\n' && s[k] != '='
    ensures '\n' !in s && '\r' !in s
  {
    if i < 0 then "-" + NatToString(-i) else NatToString(i)
  }

  /** The digits int() accepts in base 10: a digit first, and every '_'
      followed by a digit, so underscores only ever sit singly between
      digits ("1_000", not "_1", "1_" or "1__0"). */
  predicate DecimalLiteral(s: string)
  {
    |s| > 0 && IsDigit(s[0])
    && forall i {:trigger s[i]} :: 0 <= i < |s| ==> IsDigit(s[i]) || (s[i] == '_' && i + 1 < |s| && IsDigit(s[i + 1]))
  }

  /** The text without its underscores. */
  function DropUnderscores(s: string): (d: string)
    ensures forall i :: 0 <= i < |d| ==> d[i] != '_' && d[i] in s
    ensures '_' !in s ==> d == s
  {
    if |s| == 0 then ""
    else if s[0] == '_' then DropUnderscores(s[1..])
    else [s[0]] + DropUnderscores(s[1..])
  }

  /** The value of a decimal literal: its digits read with the underscores left out. */
  function LiteralValue(s: string): nat
    requires DecimalLiteral(s)
  {
    var d := DropUnderscores(s);
    assert forall i :: 0 <= i < |d| ==> IsDigit(d[i]) by {
      forall i | 0 <= i < |d|
        ensures IsDigit(d[i])
      {
        var k :| 0 <= k < |s| && s[k] == d[i];
        LiteralChar(s, k);
      }
    }
    DigitsValue(d)
  }

  /** Every character of a decimal literal is a digit or '_'. */
  lemma LiteralChar(s: string, k: int)
    requires DecimalLiteral(s) && 0 <= k < |s|
    ensures IsDigit(s[k]) || s[k] == '_'
  {
  }

  /** A decimal literal does not end in '_'. */
  lemma LiteralEnd(s: string)
    requires |s| > 0 && s[|s| - 1] == '_'
    ensures !DecimalLiteral(s)
  {
  }

  /** Plain digits are a decimal literal with their ordinary value. */
  lemma DigitsLiteral(s: string)
    requires AllDigits(s)
    ensures DecimalLiteral(s) && LiteralValue(s) == DigitsValue(s)
  {
    assert forall k :: 0 <= k < |s| ==> s[k] != '_';
  }

  /** int(s) on base-10 text: surrounding IntSpace whitespace is ignored, one
      sign is allowed, underscores may group the digits, and anything else is
      a ValueError. The interpreter's 4300-digit conversion limit is not
      modelled. */
  function ParseInt(s: string): (r: Result<int>)
    ensures r.Success? <==>
      var t := StripWith(s, IntSpace);
      DecimalLiteral(t) || (|t| > 0 && (t[0] == '-' || t[0] == '+') && DecimalLiteral(t[1..]))
    ensures r.Success? ==>
      var t := StripWith(s, IntSpace);
      r.value == if DecimalLiteral(t) then LiteralValue(t)
                 else if t[0] == '-' then -(LiteralValue(t[1..]) as int)
                 else LiteralValue(t[1..])
  {
    var t := StripWith(s, IntSpace);
    if |t| > 0 && (t[0] == '-' || t[0] == '+') then
      var d := t[1..];
      if DecimalLiteral(d) then Success(if t[0] == '-' then -(LiteralValue(d) as int) else LiteralValue(d))
      else Failure(NotAnInteger)
    else if DecimalLiteral(t) then Success(LiteralValue(t))
    else Failure(NotAnInteger)
  }

  /** int(str(i)) == i. */
  lemma ParseIntToString(i: int)
    ensures ParseInt(IntToString(i)) == Success(i)
  {
    var s := IntToString(i);
    StripKeepsTrimmed(s);
    var d := NatToString(if i < 0 then -i else i);
    NatToStringValue(if i < 0 then -i else i);
    DigitsLiteral(d);
    if i < 0 {
      assert s[1..] == d;
      ParseSigned(s);
    } else {
      ParseUnsigned(s);
    }
  }

  lemma ParseSigned(t: string)
    requires Trimmed(t) && |t| > 0 && t[0] == '-' && DecimalLiteral(t[1..])
    ensures ParseInt(t) == Success(-(LiteralValue(t[1..]) as int))
  {
    TrimmedForInt(t);
    StripWithKeepsTrimmed(t, IntSpace);
  }

  lemma ParseUnsigned(t: string)
    requires Trimmed(t) && DecimalLiteral(t)
    ensures ParseInt(t) == Success(LiteralValue(t))
  {
    TrimmedForInt(t);
    StripWithKeepsTrimmed(t, IntSpace);
  }

  /** Underscores between digits are accepted and ignored. */
  lemma ParseGrouped()
    ensures ParseInt("1_000") == Success(1000)
  {
    var t := "1_000";
    assert DecimalLiteral(t) by {
      assert forall i :: 0 <= i < |t| ==> IsDigit(t[i]) || (i == 1 && IsDigit(t[2]));
    }
    GroupedDigits();
    ThousandDigits();
    ParseUnsigned(t);
  }

  lemma GroupedDigits()
    ensures DropUnderscores("1_000") == "1000"
  {
    GroupedSpelling();
    DropSeparator("1", "000");
  }

  lemma GroupedSpelling()
    ensures "1_000" == "1" + "_" + "000" && "1000" == "1" + "000"
    ensures '_' !in "1" && '_' !in "000"
  {
  }

  /** The first character is dropped when it is '_' and kept otherwise. */
  lemma DropFirst(x: char, s: string)
    ensures DropUnderscores([x] + s) == if x == '_' then DropUnderscores(s) else [x] + DropUnderscores(s)
  {
    assert ([x] + s)[1..] == s;
  }

  /** One underscore between two runs without one is dropped. */
  lemma {:induction false} DropSeparator(a: string, b: string)
    requires '_' !in a && '_' !in b
    ensures DropUnderscores(a + "_" + b) == a + b
  {
    if |a| == 0 {
      assert (a + "_" + b)[1..] == b;
    } else {
      DropSeparator(a[1..], b);
      Peel(a, "_", b);
      DropFirst(a[0], a[1..] + "_" + b);
      Peel(a, "", b);
      assert a[1..] + "" == a[1..] && a + "" == a;
    }
  }

  lemma ThousandDigits()
    ensures DigitsValue("1000") == 1000
  {
    assert "1000"[..3] == "100" && "100"[..2] == "10" && "10"[..1] == "1";
  }

  /** A leading, trailing or doubled underscore is a ValueError. */
  lemma ParseBadGrouping()
    ensures ParseInt("1__000").Failure? && ParseInt("_1").Failure? && ParseInt("1_").Failure?
  {
    StripWithKeepsTrimmed("1__000", IntSpace);
    StripWithKeepsTrimmed("_1", IntSpace);
    StripWithKeepsTrimmed("1_", IntSpace);
    assert !DecimalLiteral("1__000") by {
      assert "1__000"[1] == '_' && "1__000"[2] == '_';
    }
    LiteralEnd("1_");
  }

  /** int(" " + str(i)) == i: the blank after a comma is ignored. */
  lemma ParseBlankIntToString(i: int)
    ensures ParseInt(" " + IntToString(i)) == Success(i)
  {
    TrimmedForInt(IntToString(i));
    StripWithLeadingBlank(IntToString(i), IntSpace);
    ParseIntToString(i);
  }

  /** str.strip() removes an ASCII separator \x1c .. \x1f but int() does
      not skip it: "\x1c1".strip() is "1", while int("\x1c1") is a
      ValueError. */
  lemma ParseSeparatorControl()
    ensures Strip("\U{001C}1") == "1"
    ensures ParseInt("\U{001C}1").Failure? && ParseInt("1\U{001F}").Failure?
  {
    assert StripWith("\U{001C}1", IntSpace) == "\U{001C}1";
    assert StripWith("1\U{001F}", IntSpace) == "1\U{001F}";
    assert !DecimalLiteral("1\U{001F}") by {
      assert !IsDigit("1\U{001F}"[1]);
    }
    assert StripWith("\U{001C}1", IsSpace) == "1" by {
      assert LeadingSpaces("\U{001C}1", IsSpace) == 1;
    }
  }

  /** Non-ASCII whitespace around a number is skipped: int("\xa01") is 1. */
  lemma ParseUnicodeBlank()
    ensures ParseInt("\U{00A0}1") == Success(1)
  {
    assert StripWith("\U{00A0}1", IntSpace) == "1" by {
      assert LeadingSpaces("\U{00A0}1", IntSpace) == 1;
    }
    DigitsLiteral("1");
    assert DigitsValue("1") == 1;
  }
}
