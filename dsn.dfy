/**
 * util/db/dsn.py: turning a libpq connection string into a URI. A string
 * that is already a postgres:// or postgresql:// URI is kept; one without
 * "=" is percent-encoded whole; otherwise the keyword/value pairs (section
 * 34.1.1.1 of the PostgreSQL 14 manual: `key = value`, values either bare or
 * single-quoted with backslash escapes) are read in order and form the
 * query string of the URI.
 *
 * Percent-encoding (urllib.parse.quote with no safe characters) and query
 * encoding (urllib.parse.urlencode) are parameters.
 */
module Dsn {
  import opened Wrappers
  import opened Text

  type Pair = (string, string)

  /** `[^\s' \\]`: a character of an unquoted value. */
  predicate IsBareChar(c: char)
  {
    !IsSpace(c) && c != '\'' && c != '\\'
  }

  /** The end of the run of word characters (`\w*`) from k. */
  function WordEnd(s: string, k: nat): (j: nat)
    requires k <= |s|
    ensures k <= j <= |s| && (j == |s| || !IsWordChar(s[j]))
    decreases |s| - k
  {
    if k < |s| && IsWordChar(s[k]) then WordEnd(s, k + 1) else k
  }

  /** The end of the run of bare-value characters from k. */
  function BareEnd(s: string, k: nat): (j: nat)
    requires k <= |s|
    ensures k <= j <= |s| && (j == |s| || !IsBareChar(s[j]))
    ensures forall p {:trigger IsBareChar(s[p])} :: k <= p < j ==> IsBareChar(s[p])
    decreases |s| - k
  {
    if k < |s| && IsBareChar(s[k]) then BareEnd(s, k + 1) else k
  }

  /**
   * `(?:[^'\\]|\\.)*'` from k: the position of the closing quote. A
   * backslash takes the next character with it unless that is a line break
   * (`.`), which makes the match fail.
   */
  function QuoteClose(s: string, k: nat): (r: Option<nat>)
    requires k <= |s|
    ensures r.Some? ==> k <= r.value < |s| && s[r.value] == '\''
    decreases |s| - k
  {
    if k == |s| then None
    else if s[k] == '\'' then Some(k)
    else if s[k] == '\\' then (if k + 1 < |s| && s[k + 1] != '\n' then QuoteClose(s, k + 2) else None)
    else QuoteClose(s, k + 1)
  }

  /**
   * dsn_re.match at the start of t: the key, the value (an unquoted value
   * as written, a quoted one with its escapes removed by unquote_re) and the
   * length of the match, trailing white space included.
   */
  function MatchAt(t: string): (r: Option<(Pair, nat)>)
    ensures r.Some? ==> 0 < r.value.1 <= |t|
  {
    var a := SkipSpace(t, 0);
    var b := WordEnd(t, a);
    var c := SkipSpace(t, b);
    if c < |t| && t[c] == '=' then
      var d := SkipSpace(t, c + 1);
      if d < |t| && IsBareChar(t[d]) then
        var e := BareEnd(t, d);
        Some(((t[a..b], t[d..e]), SkipSpace(t, e)))
      else if d < |t| && t[d] == '\'' then
        match QuoteClose(t, d + 1)
        case None => None
        case Some(q) => Some(((t[a..b], Unescape(t[d + 1..q])), SkipSpace(t, q + 1)))
      else None
    else None
  }

  /**
   * re.findall for the matcher m: matches taken left to right, each search
   * resuming at the end of the previous match, a position where nothing
   * matches skipped by one character.
   */
  function FindAll(m: string -> Option<(Pair, nat)>, t: string): (r: seq<Pair>)
    decreases |t|
  {
    if t == [] then []
    else match m(t)
      case Some((p, e)) => if 0 < e <= |t| then [p] + FindAll(m, t[e..]) else FindAll(m, t[1..])
      case None => FindAll(m, t[1..])
  }

  /** The pairs of a connection string, in order. */
  function Pairs(dsn: string): seq<Pair>
  {
    FindAll(MatchAt, dsn)
  }

  /** The URI dsn_to_uri returns. */
  function DsnUri(dsn: string, quote: string -> string, urlencode: seq<Pair> -> string): string
  {
    if "postgres://" <= dsn || "postgresql://" <= dsn then dsn
    else if '=' !in dsn then "postgres://" + quote(dsn)
    else "postgres://?" + urlencode(Pairs(dsn))
  }

  /** The findall loop for the matcher it is given. */
  method FindAllLoop(m: string -> Option<(Pair, nat)>, s: string) returns (kvs: seq<Pair>)
    ensures kvs == FindAll(m, s)
  {
    kvs := [];
    var pos := 0;
    assert s[pos..] == s;
    while pos < |s|
      invariant pos <= |s| && kvs + FindAll(m, s[pos..]) == FindAll(m, s)
      decreases |s| - pos
    {
      ghost var t := s[pos..];
      var found := m(s[pos..]);
      if found.Some? && 0 < found.value.1 <= |s| - pos {
        var (p, e) := found.value;
        assert t[e..] == s[pos + e..];
        assert FindAll(m, t) == [p] + FindAll(m, t[e..]);
        assert kvs + ([p] + FindAll(m, t[e..])) == (kvs + [p]) + FindAll(m, t[e..]);
        kvs := kvs + [p];
        pos := pos + e;
      } else {
        assert t[1..] == s[pos + 1..];
        assert FindAll(m, t) == FindAll(m, t[1..]);
        pos := pos + 1;
      }
    }
    assert kvs + [] == kvs;
  }

  /** dsn_to_uri */
  method DsnToUri(dsn: string, quote: string -> string, urlencode: seq<Pair> -> string) returns (uri: string)
    ensures uri == DsnUri(dsn, quote, urlencode)
  {
    if "postgres://" <= dsn || "postgresql://" <= dsn {
      return dsn;
    }
    if '=' !in dsn {
      return "postgres://" + quote(dsn);
    }
    var kvs := FindAllLoop(MatchAt, dsn);
    uri := "postgres://?" + urlencode(kvs);
  }

  /** Every result is a postgres:// or postgresql:// URI. */
  lemma DsnUriIsUri(dsn: string, quote: string -> string, urlencode: seq<Pair> -> string)
    ensures var u := DsnUri(dsn, quote, urlencode);
      "postgres://" <= u || "postgresql://" <= u
    ensures !("postgres://" <= dsn || "postgresql://" <= dsn) ==> "postgres://" <= DsnUri(dsn, quote, urlencode)
  {
    var p := "postgres://";
    if !("postgres://" <= dsn || "postgresql://" <= dsn) {
      var u := DsnUri(dsn, quote, urlencode);
      assert u[..|p|] == p;
    }
  }

  /** Converting twice is converting once. */
  lemma DsnUriIdempotent(dsn: string, quote: string -> string, urlencode: seq<Pair> -> string)
    ensures DsnUri(DsnUri(dsn, quote, urlencode), quote, urlencode) == DsnUri(dsn, quote, urlencode)
  {
    DsnUriIsUri(dsn, quote, urlencode);
  }

  /**
   * uri_to_asyncpg: the whole URI, percent-encoded, as the dsn parameter.
   * The format is the whole promise; the ensures read the fixed prefix and
   * the encoded URI back by position.
   */
  function UriToAsyncpg(uri: string, quote: string -> string): (r: string)
    ensures |r| == 26 + |quote(uri)| && r[..26] == "postgresql+asyncpg://?dsn=" && r[26..] == quote(uri)
  {
    "postgresql+asyncpg://?dsn=" + quote(uri)
  }

  /* ---------------- Reading back written pairs ---------------- */

  /** A pair written as key='value', escaping quotes and backslashes, then a space. */
  function Written(p: Pair): string
  {
    p.0 + "='" + Escape(p.1, '\'') + "' "
  }

  function Render(kvs: seq<Pair>): string
  {
    if kvs == [] then [] else Written(kvs[0]) + Render(kvs[1..])
  }

  predicate AllWordChars(k: string)
  {
    forall i {:trigger IsWordChar(k[i])} :: 0 <= i < |k| ==> IsWordChar(k[i])
  }

  predicate WordKeys(kvs: seq<Pair>)
  {
    forall i {:trigger kvs[i]} :: 0 <= i < |kvs| ==> AllWordChars(kvs[i].0)
  }

  /**
   * Pairs with word-character keys, written one after another in quoted
   * form, are read back as themselves and in the same order.
   */
  lemma PairsOfRender(kvs: seq<Pair>)
    requires WordKeys(kvs)
    ensures Pairs(Render(kvs)) == kvs
  {
    MatchAtReadsWritten();
    FindAllOfRender(MatchAt, kvs);
  }

  /** m reads a written pair, followed by text not starting with white space, as one match. */
  ghost predicate ReadsWritten(m: string -> Option<(Pair, nat)>)
  {
    forall p: Pair, rest: string {:trigger m(Written(p) + rest)} ::
      AllWordChars(p.0) && (rest == [] || !IsSpace(rest[0])) ==> m(Written(p) + rest) == Some((p, |Written(p)|))
  }

  lemma {:induction false} FindAllOfRender(m: string -> Option<(Pair, nat)>, kvs: seq<Pair>)
    requires ReadsWritten(m) && WordKeys(kvs)
    ensures FindAll(m, Render(kvs)) == kvs
    decreases |kvs|
  {
    if kvs != [] {
      var w, rest := Written(kvs[0]), Render(kvs[1..]);
      WordKeysTail(kvs);
      FindAllOfRender(m, kvs[1..]);
      RenderStart(kvs[1..]);
      assert Render(kvs) == w + rest;
      assert AllWordChars(kvs[0].0);
      assert m(w + rest) == Some((kvs[0], |w|));
      assert (w + rest)[|w|..] == rest;
    }
  }

  lemma WordKeysTail(kvs: seq<Pair>)
    requires kvs != [] && WordKeys(kvs)
    ensures WordKeys(kvs[1..])
  {
    forall i | 0 <= i < |kvs[1..]|
      ensures AllWordChars(kvs[1..][i].0)
    {
      assert kvs[1..][i] == kvs[i + 1];
    }
  }

  /** A rendering never starts with white space. */
  lemma RenderStart(kvs: seq<Pair>)
    requires WordKeys(kvs)
    ensures Render(kvs) == [] || !IsSpace(Render(kvs)[0])
  {
    if kvs != [] {
      var w := Written(kvs[0]);
      assert Render(kvs)[0] == w[0];
      if kvs[0].0 != [] {
        assert w[0] == kvs[0].0[0];
        assert AllWordChars(kvs[0].0);
        assert IsWordChar(kvs[0].0[0]);
      } else {
        assert w[0] == '=';
      }
    }
  }

  lemma MatchAtReadsWritten()
    ensures ReadsWritten(MatchAt)
  {
    var m: string -> Option<(Pair, nat)> := MatchAt;
    forall p: Pair, rest: string {:trigger m(Written(p) + rest)} | AllWordChars(p.0) && (rest == [] || !IsSpace(rest[0]))
      ensures m(Written(p) + rest) == Some((p, |Written(p)|))
    {
      MatchOfWritten(p, rest);
    }
  }

  /** One written pair, followed by text that does not start with white space, matches exactly. */
  lemma MatchOfWritten(p: Pair, rest: string)
    requires AllWordChars(p.0)
    requires rest == [] || !IsSpace(rest[0])
    ensures MatchAt(Written(p) + rest) == Some((p, |Written(p)|))
  {
    var t, c, q := Written(p) + rest, |p.0|, |p.0| + 2 + |Escape(p.1, '\'')|;
    WrittenPositions(p, rest);
    MatchQuoted(t, c, q, q + 2, p);
  }

  /** The facts the quoted alternative needs about a written pair. */
  lemma WrittenPositions(p: Pair, rest: string)
    requires AllWordChars(p.0)
    requires rest == [] || !IsSpace(rest[0])
    ensures var t, c, q := Written(p) + rest, |p.0|, |p.0| + 2 + |Escape(p.1, '\'')|;
      c + 1 < q < |t| && q + 2 == |Written(p)| <= |t|
      && SkipSpace(t, 0) == 0 && WordEnd(t, 0) == c && t[c] == '=' && t[c + 1] == '\''
      && QuoteClose(t, c + 2) == Some(q) && SkipSpace(t, q + 1) == q + 2
      && t[0..c] == p.0 && Unescape(t[c + 2..q]) == p.1
  {
    var t := Written(p) + rest;
    var e := Escape(p.1, '\'');
    var c := |p.0|;
    var q := c + 2 + |e|;
    WrittenShape(p, rest);
    KeyRun(t, p.0);
    QuoteCloseOfEscape(t, c + 2, p.1);
    UnescapeEscape(p.1, '\'');
    assert t[c + 2..q] == e;
    assert SkipSpace(t, q + 2) == q + 2;
    assert SkipSpace(t, q + 1) == q + 2;
  }

  /** The quoted alternative, assembled from where its parts sit. */
  lemma MatchQuoted(t: string, c: nat, q: nat, end: nat, p: Pair)
    requires c + 1 < q < |t| && end <= |t|
    requires SkipSpace(t, 0) == 0 && WordEnd(t, 0) == c && t[c] == '=' && t[c + 1] == '\''
    requires QuoteClose(t, c + 2) == Some(q) && SkipSpace(t, q + 1) == end
    requires t[0..c] == p.0 && Unescape(t[c + 2..q]) == p.1
    ensures MatchAt(t) == Some((p, end))
  {
    assert SkipSpace(t, c) == c;
    assert SkipSpace(t, c + 1) == c + 1;
  }

  /** Where each part of a written pair sits. */
  lemma WrittenShape(p: Pair, rest: string)
    ensures var t, c, e := Written(p) + rest, |p.0|, Escape(p.1, '\'');
      |Written(p)| == c + 4 + |e| && |t| == |Written(p)| + |rest|
      && t[..c] == p.0 && t[c] == '=' && t[c + 1] == '\''
      && TextAt(t, c + 2, e + "'")
      && t[c + 3 + |e|] == ' '
      && (rest == [] || t[c + 4 + |e|] == rest[0])
  {
    var t, c, e := Written(p) + rest, |p.0|, Escape(p.1, '\'');
    assert t == p.0 + "='" + (e + "'") + " " + rest;
    assert t[c + 2..c + 3 + |e|] == e + "'";
    TextAtOfSlice(t, c + 2, e + "'");
  }

  /** A slice equality read one character at a time. */
  lemma {:induction false} TextAtOfSlice(s: string, k: nat, p: string)
    requires k + |p| <= |s| && s[k..k + |p|] == p
    ensures TextAt(s, k, p)
    decreases |p|
  {
    if p != [] {
      assert s[k] == p[0];
      assert s[k + 1..k + 1 + |p[1..]|] == p[1..];
      TextAtOfSlice(s, k + 1, p[1..]);
    }
  }

  /** The key is the whole run of word characters from the start. */
  lemma KeyRun(t: string, k: string)
    requires AllWordChars(k) && |k| < |t| && t[..|k|] == k && t[|k|] == '='
    ensures SkipSpace(t, 0) == 0 && WordEnd(t, 0) == |k| && t[0..|k|] == k
  {
    if k != [] {
      assert t[0] == k[0] && IsWordChar(k[0]);
    }
    WordRun(t, 0, k);
  }

  lemma {:induction false} WordRun(t: string, j: nat, k: string)
    requires AllWordChars(k) && |k| < |t| && t[..|k|] == k && t[|k|] == '=' && j <= |k|
    ensures WordEnd(t, j) == |k|
    decreases |k| - j
  {
    if j < |k| {
      assert t[j] == k[j] && IsWordChar(k[j]);
      WordRun(t, j + 1, k);
    }
  }

  /** The escaped text followed by a quote is read up to that quote. */
  lemma {:induction false} QuoteCloseOfEscape(s: string, k: nat, v: string)
    requires TextAt(s, k, Escape(v, '\'') + "'")
    ensures QuoteClose(s, k) == Some(k + |Escape(v, '\'')|)
    decreases v
  {
    if v == [] {
      assert Escape(v, '\'') + "'" == ['\''] + [];
      TextAtCons(s, k, '\'', []);
    } else {
      var n := |Escape(v, '\'')| - |Escape(v[1..], '\'')|;
      QuoteCloseStep(s, k, v);
      QuoteCloseOfEscape(s, k + n, v[1..]);
    }
  }

  /** The first escaped character of v is passed over, and the rest of v follows it. */
  lemma QuoteCloseStep(s: string, k: nat, v: string)
    requires v != [] && TextAt(s, k, Escape(v, '\'') + "'")
    ensures var n := |Escape(v, '\'')| - |Escape(v[1..], '\'')|;
      n > 0 && k + n <= |s| && TextAt(s, k + n, Escape(v[1..], '\'') + "'")
      && QuoteClose(s, k) == QuoteClose(s, k + n)
  {
    var rest := Escape(v[1..], '\'') + "'";
    if v[0] == '\'' || v[0] == '\\' {
      assert Escape(v, '\'') + "'" == ['\\'] + ([v[0]] + rest);
      TextAtCons(s, k, '\\', [v[0]] + rest);
      TextAtCons(s, k + 1, v[0], rest);
    } else {
      assert Escape(v, '\'') + "'" == [v[0]] + rest;
      TextAtCons(s, k, v[0], rest);
    }
  }

  /** An unquoted value is read as written; it holds no white space, quote or backslash. */
  lemma BareValue(t: string)
    requires MatchAt(t).Some?
    ensures var a := SkipSpace(t, 0); var c := SkipSpace(t, WordEnd(t, a)); var d := SkipSpace(t, c + 1);
      IsBareChar(t[d]) ==> AllBare(MatchAt(t).value.0.1)
  {
    var a := SkipSpace(t, 0);
    var c := SkipSpace(t, WordEnd(t, a));
    var d := SkipSpace(t, c + 1);
    if IsBareChar(t[d]) {
      var e := BareEnd(t, d);
      assert MatchAt(t).value.0.1 == t[d..e];
      BareRun(t, d);
    }
  }

  predicate AllBare(v: string)
  {
    forall i :: 0 <= i < |v| ==> IsBareChar(v[i])
  }

  lemma BareRun(t: string, d: nat)
    requires d <= |t|
    ensures AllBare(t[d..BareEnd(t, d)])
  {
    var v := t[d..BareEnd(t, d)];
    forall i | 0 <= i < |v|
      ensures IsBareChar(v[i])
    {
      assert v[i] == t[d + i];
    }
  }
}
