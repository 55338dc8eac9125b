/**
 * Character classes and string operations that the bot takes from Python's
 * built-ins: decimal conversion (str(int), int(str)), str.join, str.replace,
 * str.lower, str.strip, startswith and the `in` test on strings.
 */
module Text {
  import opened Wrappers

  predicate IsDigit(c: char) { '0' <= c <= '9' }

  predicate AllDigits(s: string) { forall i {:trigger IsDigit(s[i])} :: 0 <= i < |s| ==> IsDigit(s[i]) }

  /** The ASCII characters that Python's str.isspace and the regular-expression class \s accept. */
  predicate IsSpace(c: char)
  {
    c == ' ' || c == '\t' || c == '\n' || c == '\r' || c == '\U{0B}' || c == '\U{0C}'
    || ('\U{1C}' <= c <= '\U{1F}')
  }

  /** The ASCII characters of the regular-expression class \w. */
  predicate IsWordChar(c: char)
  {
    ('a' <= c <= 'z') || ('A' <= c <= 'Z') || IsDigit(c) || c == '_'
  }

  function DigitChar(d: nat): (c: char)
    requires d < 10
    ensures IsDigit(c) && (c as int) - ('0' as int) == d
  {
    (d + '0' as int) as char
  }

  /** str(n) for a non-negative integer: its decimal digits, without leading zeros. */
  function NatToString(n: nat): (s: string)
    ensures |s| > 0 && AllDigits(s)
    ensures |s| > 1 ==> s[0] != '0'
  {
    if n < 10 then [DigitChar(n)] else NatToString(n / 10) + [DigitChar(n % 10)]
  }

  /** The value of a string of decimal digits (int(s) for such a string). */
  function DigitsValue(s: string): nat
    requires AllDigits(s)
  {
    if s == [] then 0
    else
      assert IsDigit(s[|s| - 1]);
      DigitsValue(s[..|s| - 1]) * 10 + ((s[|s| - 1] as int) - ('0' as int))
  }

  lemma {:induction false} DigitsValueOfNatToString(n: nat)
    ensures DigitsValue(NatToString(n)) == n
  {
    var s := NatToString(n);
    if n >= 10 {
      DigitsValueOfNatToString(n / 10);
      assert s[..|s| - 1] == NatToString(n / 10);
    }
  }

  /** Distinct numbers have distinct decimal strings: ids stay distinct once turned into text. */
  lemma NatToStringInjective(m: nat, n: nat)
    requires NatToString(m) == NatToString(n)
    ensures m == n
  {
    DigitsValueOfNatToString(m);
    DigitsValueOfNatToString(n);
  }

  /** str(i) for any integer. */
  function IntToString(i: int): string
  {
    if i < 0 then "-" + NatToString(-i) else NatToString(i)
  }

  /** The end of the run of white space from k: the `\s*` of a regular expression, or what lstrip removes. */
  function SkipSpace(s: string, k: nat): (j: nat)
    requires k <= |s|
    ensures k <= j <= |s| && (j == |s| || !IsSpace(s[j]))
    ensures forall p {:trigger IsSpace(s[p])} :: k <= p < j ==> IsSpace(s[p])
    decreases |s| - k
  {
    if k < |s| && IsSpace(s[k]) then SkipSpace(s, k + 1) else k
  }

  /** The start of the run of white space that ends at k: what rstrip removes when k is the end. */
  function SpaceBefore(s: string, k: nat): (j: nat)
    requires k <= |s|
    ensures j <= k && (j == 0 || !IsSpace(s[j - 1]))
    ensures forall p {:trigger IsSpace(s[p])} :: j <= p < k ==> IsSpace(s[p])
  {
    if k > 0 && IsSpace(s[k - 1]) then SpaceBefore(s, k - 1) else k
  }

  function LStrip(s: string): string { s[SkipSpace(s, 0)..] }

  function RStrip(s: string): string { s[..SpaceBefore(s, |s|)] }

  function Strip(s: string): string { RStrip(LStrip(s)) }

  /**
   * int(s) restricted to the forms the bot meets: optional surrounding white
   * space, an optional sign, then one or more decimal digits.
   */
  function ParseInt(s: string): Option<int>
  {
    ParseStripped(Strip(s))
  }

  /** int() on text without surrounding white space. */
  function ParseStripped(t: string): (r: Option<int>)
    ensures r.Some? ==> t != []
  {
    if t != [] && (t[0] == '-' || t[0] == '+') then
      if |t| > 1 && AllDigits(t[1..]) then
        var v: int := DigitsValue(t[1..]);
        Some(if t[0] == '-' then -v else v)
      else None
    else if t != [] && AllDigits(t) then Some(DigitsValue(t))
    else None
  }

  lemma StripOfDigits(s: string)
    requires s != [] && (AllDigits(s) || (s[0] == '-' && AllDigits(s[1..])))
    ensures Strip(s) == s
  {
    assert !IsSpace(s[0]) by {
      if AllDigits(s) { assert IsDigit(s[0]); }
    }
    assert !IsSpace(s[|s| - 1]) by {
      if AllDigits(s) {
        assert IsDigit(s[|s| - 1]);
      } else if |s| > 1 {
        var t := s[1..];
        assert IsDigit(t[|t| - 1]) && t[|t| - 1] == s[|s| - 1];
      }
    }
    assert LStrip(s) == s;
    assert RStrip(s) == s;
  }


  /** Reading back str(i) with int() gives i. */
  lemma ParseIntOfIntToString(i: int)
    ensures ParseInt(IntToString(i)) == Some(i)
  {
    StripOfDigits(IntToString(i));
    if i < 0 {
      ParseStrippedOfNegative(-i);
    } else {
      ParseStrippedOfNat(i);
    }
  }

  lemma ParseStrippedOfNat(n: nat)
    ensures ParseStripped(NatToString(n)) == Some(n)
  {
    var s := NatToString(n);
    assert IsDigit(s[0]);
    DigitsValueOfNatToString(n);
  }

  lemma ParseStrippedOfNegative(n: nat)
    requires n > 0
    ensures ParseStripped("-" + NatToString(n)) == Some(-(n as int))
  {
    var s := "-" + NatToString(n);
    assert s[1..] == NatToString(n);
    DigitsValueOfNatToString(n);
  }


  /** The `in` test on strings: p occurs somewhere in s. */
  predicate IsInfix(p: string, s: string)
    decreases |s|
  {
    p <= s || (s != [] && IsInfix(p, s[1..]))
  }

  /** sep.join(parts) */
  function Join(sep: string, parts: seq<string>): (r: string)
    ensures |parts| == 1 ==> r == parts[0]
  {
    if |parts| == 0 then "" else if |parts| == 1 then parts[0]
    else parts[0] + sep + Join(sep, parts[1..])
  }

  lemma {:induction false} JoinAppend(sep: string, parts: seq<string>, x: string)
    requires parts != []
    ensures Join(sep, parts + [x]) == Join(sep, parts) + sep + x
  {
    if |parts| > 1 {
      assert (parts + [x])[1..] == parts[1..] + [x];
      JoinAppend(sep, parts[1..], x);
    } else {
      assert (parts + [x])[1..] == [x];
    }
  }

  /**
   * s.replace(pat, rep): occurrences of pat are replaced left to right,
   * without overlapping.
   */
  function ReplaceAll(s: string, pat: string, rep: string): string
    requires pat != []
    decreases |s|
  {
    if |s| < |pat| then s
    else if pat <= s then rep + ReplaceAll(s[|pat|..], pat, rep)
    else [s[0]] + ReplaceAll(s[1..], pat, rep)
  }

  /** s[:n]: at most the first n characters. */
  function Take(s: string, n: nat): (r: string)
    ensures |r| <= n && r <= s
    ensures |s| <= n ==> r == s
  {
    if |s| <= n then s else s[..n]
  }

  /** ASCII part of str.lower. */
  function LowerChar(c: char): char
  {
    if 'A' <= c <= 'Z' then (c as int + 32) as char else c
  }

  function Lower(s: string): (r: string)
    ensures |r| == |s| && forall i :: 0 <= i < |s| ==> r[i] == LowerChar(s[i])
  {
    if s == [] then [] else [LowerChar(s[0])] + Lower(s[1..])
  }

  /**
   * re.sub(r"\\(.)", r"\1", t): a backslash is dropped before the
   * character it precedes. `.` does not match a line break here, so a
   * backslash before a line break stays.
   */
  function Unescape(t: string): (r: string)
    ensures |r| <= |t|
  {
    if |t| >= 2 && t[0] == '\\' && t[1] != '\n' then [t[1]] + Unescape(t[2..])
    else if t == [] then []
    else [t[0]] + Unescape(t[1..])
  }

  /** A backslash before each quote character and backslash: text that unescapes to t. */
  function Escape(t: string, quote: char): (r: string)
    ensures |r| >= |t|
  {
    if t == [] then []
    else if t[0] == quote || t[0] == '\\' then ['\\', t[0]] + Escape(t[1..], quote)
    else [t[0]] + Escape(t[1..], quote)
  }

  lemma {:induction false} UnescapeEscape(t: string, quote: char)
    requires quote != '\n'
    ensures Unescape(Escape(t, quote)) == t
  {
    if t != [] {
      UnescapeEscape(t[1..], quote);
      if t[0] == quote || t[0] == '\\' {
        assert Escape(t, quote)[2..] == Escape(t[1..], quote);
      } else {
        assert Escape(t, quote)[1..] == Escape(t[1..], quote);
      }
    }
  }

  /** The text p occurs in s from position k on, read one character at a time. */
  predicate TextAt(s: string, k: nat, p: string)
    decreases |p|
  {
    k + |p| <= |s| && (p == [] || (s[k] == p[0] && TextAt(s, k + 1, p[1..])))
  }

  lemma TextAtCons(s: string, k: nat, c: char, p: string)
    requires TextAt(s, k, [c] + p)
    ensures k < |s| && s[k] == c && TextAt(s, k + 1, p)
  {
    assert ([c] + p)[1..] == p;
  }

  lemma {:induction false} TextAtSuffix(a: string, p: string)
    ensures TextAt(a + p, |a|, p)
    decreases |p|
  {
    if p != [] {
      TextAtSuffix(a + [p[0]], p[1..]);
      assert a + [p[0]] + p[1..] == a + p;
    }
  }

  /** Text at k made of two parts: each part sits where it should. */
  lemma {:induction false} TextAtSplit(s: string, k: nat, x: string, y: string)
    requires TextAt(s, k, x + y)
    ensures TextAt(s, k, x) && TextAt(s, k + |x|, y)
    decreases |x|
  {
    if x == [] {
      assert x + y == y;
    } else {
      assert (x + y)[0] == x[0] && (x + y)[1..] == x[1..] + y;
      TextAtSplit(s, k + 1, x[1..], y);
    }
  }

  /** Text at k is the slice of the same length there. */
  lemma {:induction false} SliceOfTextAt(s: string, k: nat, p: string)
    requires TextAt(s, k, p)
    ensures s[k..k + |p|] == p
    decreases |p|
  {
    if p != [] {
      SliceOfTextAt(s, k + 1, p[1..]);
      assert s[k..k + |p|] == [s[k]] + s[k + 1..k + 1 + |p[1..]|];
    }
  }

  /** Text found at k is still there when more is appended. */
  lemma {:induction false} TextAtExtend(s: string, k: nat, p: string, b: string)
    requires TextAt(s, k, p)
    ensures TextAt(s + b, k, p)
    decreases |p|
  {
    if p != [] {
      assert (s + b)[k] == s[k];
      TextAtExtend(s, k + 1, p[1..], b);
    }
  }

  /** The middle part of a concatenation sits after the first. */
  lemma TextAtMiddle(x: string, d: string, y: string)
    ensures TextAt(x + d + y, |x|, d)
  {
    TextAtSuffix(x, d);
    TextAtExtend(x + d, |x|, d, y);
  }
}
