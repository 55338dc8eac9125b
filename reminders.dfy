/**
 * plugins/reminders.py: the duration syntax of `remindme`, the formatting of
 * a reminder, and the per-user reminder lists kept sorted by due time.
 *
 * The duration expression is matched again and again from a cursor; here it
 * is a scanner over the text left after the cursor (the expression looks at
 * nothing before its starting point). Case is ignored except in the two
 * one-letter units "m" (minutes) and "M" (months).
 */
module Reminders {
  import opened Wrappers
  import opened Text
  import Commands
  import DiscordUtil

  /* ---------------- Durations ---------------- */

  /** The named groups of the unit alternation, in the order it tries them. */
  datatype Unit = Seconds | Minutes | Hours | Days | Weeks | Months | Years

  /** time_expansion: seconds per unit. */
  function Factor(u: Unit): nat
  {
    match u
    case Seconds => 1
    case Minutes => 60
    case Hours => 60 * 60
    case Days => 60 * 60 * 24
    case Weeks => 60 * 60 * 24 * 7
    case Months => 60 * 60 * 24 * 30
    case Years => 60 * 60 * 24 * 365
  }

  /** int(number) * time_expansion[unit], written per unit so that it stays linear in the number. */
  function ChunkSeconds(n: int, u: Unit): int
  {
    match u
    case Seconds => n
    case Minutes => 60 * n
    case Hours => 60 * 60 * n
    case Days => 60 * 60 * 24 * n
    case Weeks => 60 * 60 * 24 * 7 * n
    case Months => 60 * 60 * 24 * 30 * n
    case Years => 60 * 60 * 24 * 365 * n
  }

  lemma ChunkSecondsIsFactor(n: int, u: Unit)
    ensures ChunkSeconds(n, u) == n * Factor(u)
  {
  }

  /** The lower-case literal w at k, ignoring case. */
  predicate Lit(t: string, k: nat, w: string)
    requires k <= |t|
    ensures Lit(t, k, w) ==> k + |w| <= |t|
    decreases w
  {
    w == [] || (k < |t| && LowerChar(t[k]) == w[0] && Lit(t, k + 1, w[1..]))
  }

  /** An optional literal `(?:w)?`: past it when present. */
  function Opt(t: string, k: nat, w: string): (e: nat)
    requires k <= |t|
    ensures k <= e <= |t|
  {
    if Lit(t, k, w) then k + |w| else k
  }

  /** `(?:(?:xy)?rs?)?` after "h" and "y": the optional middle, then "r" and an optional "s". */
  function OptRs(t: string, k: nat, middle: string): (e: nat)
    requires k <= |t|
    ensures k <= e <= |t|
  {
    if Lit(t, k, middle + "r") then Opt(t, k + |middle| + 1, "s")
    else if Lit(t, k, "r") then Opt(t, k + 1, "s")
    else k
  }

  /** The alternatives of the unit group, in the order the expression lists them. */
  const AlternativeCount := 9

  function AlternativeUnit(i: nat): Unit
  {
    if i == 0 then Seconds
    else if i <= 2 then Minutes
    else if i == 3 then Hours
    else if i == 4 then Days
    else if i == 5 then Weeks
    else if i <= 7 then Months
    else Years
  }

  /** Alternative i at k: where it ends when it matches. */
  function Alternative(i: nat, t: string, k: nat): (r: Option<nat>)
    requires k <= |t|
    ensures r.Some? ==> k < r.value <= |t|
  {
    if i == 0 then
      // s(?:ec(?:ond)?s?)?
      if !Lit(t, k, "s") then None
      else if Lit(t, k + 1, "ec") then Some(Opt(t, Opt(t, k + 3, "ond"), "s"))
      else Some(k + 1)
    else if i == 1 then
      // min(?:ute)?s?
      if Lit(t, k, "min") then Some(Opt(t, Opt(t, k + 3, "ute"), "s")) else None
    else if i == 2 then
      // (?!mo)(?-i:m)
      if !Lit(t, k, "mo") && k < |t| && t[k] == 'm' then Some(k + 1) else None
    else if i == 3 then
      // h(?:(?:ou)?rs?)?
      if Lit(t, k, "h") then Some(OptRs(t, k + 1, "ou")) else None
    else if i == 4 then
      // d(?:ays?)?
      if !Lit(t, k, "d") then None
      else if Lit(t, k + 1, "ay") then Some(Opt(t, k + 3, "s"))
      else Some(k + 1)
    else if i == 5 then
      // w(?:(?:ee)?ks?)
      if Lit(t, k, "week") then Some(Opt(t, k + 4, "s"))
      else if Lit(t, k, "wk") then Some(Opt(t, k + 2, "s"))
      else None
    else if i == 6 then
      // months?
      if Lit(t, k, "month") then Some(Opt(t, k + 5, "s")) else None
    else if i == 7 then
      // (?-i:M)
      if k < |t| && t[k] == 'M' then Some(k + 1) else None
    else if i == 8 then
      // y(?:(?:ea)?rs?)?
      if Lit(t, k, "y") then Some(OptRs(t, k + 1, "ea")) else None
    else None
  }

  /** The first of alternatives i, i+1, ... that matches at k. */
  function UnitFrom(t: string, k: nat, i: nat): (r: Option<(Unit, nat)>)
    requires k <= |t|
    ensures r.Some? ==> k < r.value.1 <= |t|
    decreases AlternativeCount - i
  {
    if i >= AlternativeCount then None
    else match Alternative(i, t, k)
      case Some(e) => Some((AlternativeUnit(i), e))
      case None => UnitFrom(t, k, i + 1)
  }

  /** The unit group at k. */
  function UnitAt(t: string, k: nat): (r: Option<(Unit, nat)>)
    requires k <= |t|
    ensures r.Some? ==> k < r.value.1 <= |t|
  {
    UnitFrom(t, k, 0)
  }

  /** `\s*(-?\d+)` at k: the signed number and where its digits end. */
  function NumberAt(s: string, k: nat): (r: Option<(int, nat)>)
    requires k <= |s|
    ensures r.Some? ==> k < r.value.1 <= |s|
  {
    var j := SkipSpace(s, k);
    var d := if j < |s| && s[j] == '-' then j + 1 else j;
    var e := Commands.Run(s, d, IsDigit);
    if d == e then None
    else
      var n := DigitsAt(s, d, e);
      Some((if d > j then -n else n, e))
  }

  /** int() of the decimal digits from d up to e, read where they stand. */
  function DigitsAt(s: string, d: nat, e: nat): int
    requires d <= e <= |s|
    decreases e - d
  {
    if e == d then 0 else DigitsAt(s, d, e - 1) * 10 + ((s[e - 1] as int) - ('0' as int))
  }

  lemma {:induction false} DigitsAtValue(s: string, d: nat, e: nat)
    requires d <= e <= |s| && AllDigits(s[d..e])
    ensures DigitsAt(s, d, e) == DigitsValue(s[d..e])
    decreases e - d
  {
    if e > d {
      var t := s[d..e];
      assert t[..|t| - 1] == s[d..e - 1];
      var t' := s[d..e - 1];
      forall i | 0 <= i < |t'|
        ensures IsDigit(t'[i])
      {
        assert t'[i] == t[i];
      }
      DigitsAtValue(s, d, e - 1);
    }
  }

  /**
   * time_re.match on t: the number, white space and a unit at the start of
   * t. The result is the number times the unit's factor, and the length of
   * the match. The expression has no anchor and looks at nothing before the
   * point where it starts, so time_re.match(s, pos) is this on s[pos..],
   * with its end moved by pos.
   */
  function ChunkAt(t: string): (r: Option<(int, nat)>)
    ensures r.Some? ==> 0 < r.value.1 <= |t|
  {
    match NumberAt(t, 0)
    case None => None
    case Some((n, e)) =>
      match UnitAt(t, SkipSpace(t, e))
      case None => None
      case Some((u, end)) => Some((ChunkSeconds(n, u), end))
  }

  /** The matches of m found one after another from the start of t: their total, and how much of t they cover. */
  function Scan(m: string -> Option<(int, nat)>, t: string): (r: (int, nat))
    ensures r.1 <= |t|
    decreases |t|
  {
    match m(t)
    case None => (0, 0)
    case Some((v, e)) =>
      if 0 < e <= |t| then
        var rest := Scan(m, t[e..]);
        (v + rest.0, e + rest.1)
      else
        (0, 0)
  }

  /** A match of all of w, then the matches on what follows it. */
  lemma ScanStep(m: string -> Option<(int, nat)>, s: string, v: int, e: nat, total: int)
    requires 0 < e <= |s| && m(s) == Some((v, e))
    requires Scan(m, s[e..]) == (total, |s| - e)
    ensures Scan(m, s) == (v + total, |s|)
  {
  }



  /**
   * The loop of get_time, for the matcher it is given: match at the cursor,
   * move the cursor to the end of the match and add up, until nothing
   * matches.
   */
  method ScanLoop(m: string -> Option<(int, nat)>, s: string) returns (seconds: int, pos: nat)
    ensures (seconds, pos) == Scan(m, s)
  {
    seconds := 0;
    pos := 0;
    assert s[pos..] == s;
    var found := m(s[pos..]);
    while found.Some? && 0 < found.value.1 <= |s| - pos
      invariant pos <= |s| && found == m(s[pos..])
      invariant Scan(m, s) == (seconds + Scan(m, s[pos..]).0, pos + Scan(m, s[pos..]).1)
      decreases |s| - pos
    {
      var (v, e) := found.value;
      assert s[pos..][e..] == s[pos + e..];
      assert Scan(m, s[pos..]) == (v + Scan(m, s[pos + e..]).0, e + Scan(m, s[pos + e..]).1);
      pos := pos + e;
      seconds := seconds + v;
      found := m(s[pos..]);
    }
  }

  /** get_time on the argument's text: the total, when the matches cover the text and it is positive. */
  function Duration(s: string): Option<int>
  {
    var (total, used) := Scan(ChunkAt, s);
    if used == |s| && total > 0 then Some(total) else None
  }

  /** get_time's loop on the duration expression, then its acceptance test. */
  method ParseDuration(s: string) returns (r: Option<int>)
    ensures r == Duration(s)
    ensures r.Some? ==> r.value > 0
  {
    var seconds, pos := ScanLoop(ChunkAt, s);
    if pos == |s| && seconds > 0 {
      r := Some(seconds);
    } else {
      r := None;
    }
  }

  /**
   * get_time: the next argument must be a string argument (inline code and
   * code blocks are string arguments too), and its text must be a duration.
   */
  method GetTime(args: Commands.ArgParser) returns (r: Option<int>)
    requires args.Valid()
    modifies args
    ensures args.Valid() && args.cmdline == old(args.cmdline)
    ensures var l := Commands.Lex(args.cmdline, old(args.pos), false);
      (l.None? ==> args.pos == old(args.pos))
      && (l.Some? ==> args.pos == l.value.end)
      && r == (if l.Some? && Commands.IsString(l.value.kind) then Duration(l.value.kind.text) else None)
  {
    var arg := args.NextArg(false);
    if arg.None? || !Commands.IsString(arg.value.kind) {
      return None;
    }
    r := ParseDuration(arg.value.kind.text);
  }

  /** A single chunk that covers the whole text is the duration, when positive. */
  lemma DurationOfOneChunk(s: string, v: int)
    requires ChunkAt(s) == Some((v, |s|))
    ensures Duration(s) == if v > 0 then Some(v) else None
  {
    ScanOne(ChunkAt, s, v);
  }

  lemma ScanOne(m: string -> Option<(int, nat)>, s: string, v: int)
    requires s != [] && m(s) == Some((v, |s|))
    ensures Scan(m, s) == (v, |s|)
  {
    assert s[|s|..] == [];
  }

  /** Two matches that together cover the whole text. */
  lemma ScanTwo(m: string -> Option<(int, nat)>, s: string, v: int, e: nat, w: int)
    requires 0 < e < |s| && m(s) == Some((v, e)) && m(s[e..]) == Some((w, |s| - e))
    ensures Scan(m, s) == (v + w, |s|)
  {
    ScanOne(m, s[e..], w);
    ScanStep(m, s, v, e, w);
  }

  /** Lower-case "m" is minutes and upper-case "M" is months, though the rest of the match ignores case. */
  lemma MinutesAndMonths()
    ensures Duration("1m") == Some(60)
    ensures Duration("1M") == Some(2592000)
  {
    ChunkOfLowerM();
    DurationOfOneChunk("1m", 60);
    ChunkOfUpperM();
    DurationOfOneChunk("1M", 2592000);
  }

  lemma ChunkOfLowerM()
    ensures ChunkAt("1m") == Some((60, 2))
  {
    assert NumberAt("1m", 0) == Some((1, 1));
  }

  lemma ChunkOfUpperM()
    ensures ChunkAt("1M") == Some((2592000, 2))
  {
    assert NumberAt("1M", 0) == Some((1, 1));
  }

  /** Weeks need "wk" or "week": a bare "w" is no unit. */
  lemma BareWeekRejected()
    ensures Duration("2wk") == Some(1209600)
    ensures Duration("2w") == None
  {
    ChunkOfWeeks();
    DurationOfOneChunk("2wk", 1209600);
    ChunkOfBareW();
  }

  lemma ChunkOfWeeks()
    ensures ChunkAt("2wk") == Some((1209600, 3))
  {
    assert NumberAt("2wk", 0) == Some((2, 1));
  }

  lemma ChunkOfBareW()
    ensures ChunkAt("2w").None?
  {
    assert NumberAt("2w", 0) == Some((2, 1));
  }

  /** The empty text, a zero total, a negative total and trailing text are all rejected. */
  lemma RejectedDurations()
    ensures Duration("") == None
    ensures Duration("0s") == None
    ensures Duration("1h -2h") == None
    ensures Duration("1h!") == None
  {
    ChunkOfZero();
    DurationOfOneChunk("0s", 0);
    ChunkOfHourThenNegative();
    DurationOfHourThenNegative();
    DurationOfTrailing();
  }

  lemma ChunkOfZero()
    ensures ChunkAt("0s") == Some((0, 2))
  {
    assert NumberAt("0s", 0) == Some((0, 1));
  }

  lemma ChunkOfHourThenNegative()
    ensures ChunkAt("1h -2h") == Some((3600, 2))
    ensures ChunkAt(" -2h") == Some((-7200, 4))
  {
    ChunkOfHour();
    ChunkOfNegative();
  }

  lemma ChunkOfHour()
    ensures ChunkAt("1h -2h") == Some((3600, 2))
  {
    assert NumberAt("1h -2h", 0) == Some((1, 1));
  }

  lemma ChunkOfNegative()
    ensures ChunkAt(" -2h") == Some((-7200, 4))
  {
    var s := " -2h";
    assert SkipSpace(s, 0) == 1 && s[1] == '-';
    assert Commands.Run(s, 2, IsDigit) == 3;
    assert DigitsAt(s, 2, 3) == 2;
    assert NumberAt(s, 0) == Some((-2, 3));
  }

  lemma DurationOfHourThenNegative()
    requires ChunkAt("1h -2h") == Some((3600, 2)) && ChunkAt(" -2h") == Some((-7200, 4))
    ensures Duration("1h -2h") == None
  {
    assert "1h -2h"[2..] == " -2h";
    DurationOfTwoChunks("1h -2h", 3600, 2, -7200);
  }

  /** Two chunks that together cover the whole text give their sum, when positive. */
  lemma DurationOfTwoChunks(s: string, v: int, e: nat, w: int)
    requires 0 < e < |s| && ChunkAt(s) == Some((v, e)) && ChunkAt(s[e..]) == Some((w, |s| - e))
    ensures Duration(s) == if v + w > 0 then Some(v + w) else None
  {
    ScanTwo(ChunkAt, s, v, e, w);
  }

  lemma DurationOfTrailing()
    ensures Duration("1h!") == None
  {
    assert NumberAt("1h!", 0) == Some((1, 1));
    assert ChunkAt("1h!") == Some((3600, 2));
    assert "1h!"[2..] == "!";
    assert NumberAt("!", 0).None?;
    assert Scan(ChunkAt, "!") == (0, 0);
  }

  /** The shortest spelling of each unit; "m" and "M" tell minutes from months. */
  function Spelling(u: Unit): (w: string)
    ensures w != [] && !IsDigit(w[0]) && !IsSpace(w[0])
  {
    match u
    case Seconds => "s"
    case Minutes => "m"
    case Hours => "h"
    case Days => "d"
    case Weeks => "wk"
    case Months => "M"
    case Years => "y"
  }

  /** One amount with its unit as a user writes it, after a space. */
  function Written(n: int, u: Unit): (c: string)
    ensures c != [] && c[0] == ' '
  {
    " " + IntToString(n) + Spelling(u)
  }

  /** A duration as a user writes it: its chunks one after another. */
  function Render(cs: seq<(int, Unit)>): (r: string)
  {
    if cs == [] then [] else Written(cs[0].0, cs[0].1) + Render(cs[1..])
  }

  /** The seconds a written duration stands for. */
  function Total(cs: seq<(int, Unit)>): int
  {
    if cs == [] then 0 else ChunkSeconds(cs[0].0, cs[0].1) + Total(cs[1..])
  }

  /** The text c is at j in s, followed by the end or by a space. */
  ghost predicate PieceAt(s: string, j: nat, c: string)
  {
    j + |c| <= |s| && s[j..j + |c|] == c && (j + |c| == |s| || s[j + |c|] == ' ')
  }

  /** Every written chunk is matched whole, so the duration is the sum of amount times factor. */
  lemma DurationOfRender(cs: seq<(int, Unit)>)
    ensures Duration(Render(cs)) == if Total(cs) > 0 then Some(Total(cs)) else None
  {
    ChunkAtReadsWritten();
    ScanOfRender(ChunkAt, cs);
  }

  /** m reads a written chunk, followed by the end or by a space, as one match worth its seconds. */
  ghost predicate ReadsWritten(m: string -> Option<(int, nat)>)
  {
    forall n: int, u: Unit, rest: string {:trigger m(Written(n, u) + rest)} :: (rest == [] || rest[0] == ' ') ==>
      m(Written(n, u) + rest) == Some((ChunkSeconds(n, u), |Written(n, u)|))
  }

  /** The matches of such a matcher on a written duration cover it and add up its seconds. */
  lemma {:induction false} ScanOfRender(m: string -> Option<(int, nat)>, cs: seq<(int, Unit)>)
    requires ReadsWritten(m)
    ensures Scan(m, Render(cs)) == (Total(cs), |Render(cs)|)
    decreases cs
  {
    if cs != [] {
      ReadsFirst(m, cs);
      ScanOfRender(m, cs[1..]);
      ScanOfRenderStep(m, cs);
    }
  }

  /** The first chunk read, then the rest read. */
  lemma ScanOfRenderStep(m: string -> Option<(int, nat)>, cs: seq<(int, Unit)>)
    requires cs != []
    requires m(Render(cs)) == Some((ChunkSeconds(cs[0].0, cs[0].1), |Written(cs[0].0, cs[0].1)|))
    requires Scan(m, Render(cs[1..])) == (Total(cs[1..]), |Render(cs[1..])|)
    ensures Scan(m, Render(cs)) == (Total(cs), |Render(cs)|)
  {
    RenderCons(cs);
    TotalCons(cs);
    var e := |Written(cs[0].0, cs[0].1)|;
    assert Render(cs)[e..] == Render(cs[1..]);
    ScanOfSuffix(m, Render(cs), e, Render(cs[1..]), ChunkSeconds(cs[0].0, cs[0].1), Total(cs[1..]), Total(cs));
  }

  /** A match of the first e characters of s, then matches covering the rest. */
  lemma ScanOfSuffix(m: string -> Option<(int, nat)>, s: string, e: nat, tail: string, v: int, rest: int, total: int)
    requires 0 < e <= |s| && s[e..] == tail && total == v + rest
    requires m(s) == Some((v, e)) && Scan(m, tail) == (rest, |tail|)
    ensures Scan(m, s) == (total, |s|)
  {
    ScanStep(m, s, v, e, rest);
  }

  /** A rendered duration is empty or starts with the space before its first chunk. */
  lemma RenderSpaced(cs: seq<(int, Unit)>)
    ensures Render(cs) == [] || Render(cs)[0] == ' '
  {
  }

  /** A matcher that reads written chunks reads the first chunk of a rendered duration. */
  lemma ReadsFirst(m: string -> Option<(int, nat)>, cs: seq<(int, Unit)>)
    requires cs != [] && ReadsWritten(m)
    ensures m(Render(cs)) == Some((ChunkSeconds(cs[0].0, cs[0].1), |Written(cs[0].0, cs[0].1)|))
  {
    RenderCons(cs);
    RenderSpaced(cs[1..]);
  }

  lemma ChunkAtReadsWritten()
    ensures ReadsWritten(ChunkAt)
  {
    var m: string -> Option<(int, nat)> := ChunkAt;
    forall n: int, u: Unit, rest: string {:trigger m(Written(n, u) + rest)} | rest == [] || rest[0] == ' '
      ensures m(Written(n, u) + rest) == Some((ChunkSeconds(n, u), |Written(n, u)|))
    {
      ChunkOfWritten(n, u, rest);
    }
  }

  lemma RenderCons(cs: seq<(int, Unit)>)
    requires cs != []
    ensures Render(cs) == Written(cs[0].0, cs[0].1) + Render(cs[1..])
  {
  }
  lemma TotalCons(cs: seq<(int, Unit)>)
    requires cs != []
    ensures Total(cs) == ChunkSeconds(cs[0].0, cs[0].1) + Total(cs[1..])
  {
  }


  /** One written chunk, followed by the end or by a space, is one match. */
  lemma ChunkOfWritten(n: int, u: Unit, rest: string)
    requires rest == [] || rest[0] == ' '
    ensures ChunkAt(Written(n, u) + rest) == Some((ChunkSeconds(n, u), |Written(n, u)|))
  {
    var w := Written(n, u);
    var s := w + rest;
    assert s[0..|w|] == w;
    if rest != [] {
      assert s[|w|] == rest[0];
    }
    ChunkOfRendered(s, n, u);
  }

  lemma ChunkOfRendered(s: string, n: int, u: Unit)
    requires PieceAt(s, 0, Written(n, u))
    ensures ChunkAt(s) == Some((ChunkSeconds(n, u), |Written(n, u)|))
  {
    var num := " " + IntToString(n);
    var w := Spelling(u);
    var e := |num|;
    assert Written(n, u) == num + w;
    SliceParts(s, 0, num, w);
    assert s[e] == s[e..e + |w|][0];
    assert |w| == 2 ==> s[e + 1] == s[e..e + |w|][1];
    NumberOfRendered(s, 0, n);
    UnitOfSpelling(s, e, u);
    ChunkFromParts(s, n, e, u, e + |w|);
  }

  /** time_re.match assembled from its number, its white space and its unit. */
  lemma ChunkFromParts(s: string, n: int, e: nat, u: Unit, end: nat)
    requires e <= |s| && NumberAt(s, 0) == Some((n, e))
    requires SkipSpace(s, e) == e && UnitAt(s, e) == Some((u, end))
    ensures ChunkAt(s) == Some((ChunkSeconds(n, u), end))
  {
  }

  /** A written amount is read back, up to the end of its digits. */
  lemma NumberOfRendered(s: string, k: nat, n: int)
    requires var num := " " + IntToString(n);
      k + |num| < |s| && s[k..k + |num|] == num && !IsDigit(s[k + |num|]) && !IsSpace(s[k + |num|])
    ensures NumberAt(s, k) == Some((n, k + |" " + IntToString(n)|))
  {
    RenderedNumberShape(s, k, n);
    NumberAtDigits(s, k, n);
  }

  /** Where the sign and the digits of a written amount sit. */
  lemma RenderedNumberShape(s: string, k: nat, n: int)
    requires var num := " " + IntToString(n);
      k + |num| <= |s| && s[k..k + |num|] == num
    ensures var a := if n < 0 then -n else n;
      var d := if n < 0 then k + 2 else k + 1;
      d + |NatToString(a)| == k + |" " + IntToString(n)|
      && s[k] == ' ' && (n < 0 ==> s[k + 1] == '-')
      && s[d..d + |NatToString(a)|] == NatToString(a)
  {
    var a := if n < 0 then -n else n;
    var pre := if n < 0 then " -" else " ";
    SpacedIntToString(n);
    SliceParts(s, k, pre, NatToString(a));
    assert s[k] == s[k..k + |pre|][0];
    if n < 0 {
      assert s[k + 1] == s[k..k + |pre|][1];
    }
  }

  lemma SpacedIntToString(n: int)
    ensures " " + IntToString(n) == (if n < 0 then " -" else " ") + NatToString(if n < 0 then -n else n)
  {
  }

  lemma SliceParts(s: string, k: nat, x: string, y: string)
    requires k + |x + y| <= |s| && s[k..k + |x + y|] == x + y
    ensures s[k..k + |x|] == x && s[k + |x|..k + |x| + |y|] == y
  {
    assert s[k..k + |x|] == (x + y)[..|x|];
    assert s[k + |x|..k + |x| + |y|] == (x + y)[|x|..];
  }

  /** White space, an optional minus sign and the digits of a, up to a non-digit. */
  lemma NumberAtDigits(s: string, k: nat, n: int)
    requires var a := if n < 0 then -n else n;
      var d := if n < 0 then k + 2 else k + 1;
      d + |NatToString(a)| < |s| && s[k] == ' ' && (n < 0 ==> s[k + 1] == '-')
      && s[d..d + |NatToString(a)|] == NatToString(a) && !IsDigit(s[d + |NatToString(a)|])
    ensures var a := if n < 0 then -n else n;
      var d := if n < 0 then k + 2 else k + 1;
      NumberAt(s, k) == Some((n, d + |NatToString(a)|))
  {
    var a := if n < 0 then -n else n;
    var d := if n < 0 then k + 2 else k + 1;
    var digits := NatToString(a);
    var e := d + |digits|;
    assert forall q :: d <= q < e ==> s[q] == digits[q - d];
    RunOfDigits(s, d, e);
    assert s[d..e] == digits;
    DigitsAtValue(s, d, e);
    DigitsValueOfNatToString(a);
    NumberAtRun(s, k, d, e, n < 0);
  }

  /** One space, an optional minus sign, then a run of digits from d to e. */
  lemma NumberAtRun(s: string, k: nat, d: nat, e: nat, neg: bool)
    requires d == (if neg then k + 2 else k + 1) && d < e <= |s| && s[k] == ' '
    requires if neg then s[k + 1] == '-' else IsDigit(s[k + 1])
    requires Commands.Run(s, d, IsDigit) == e
    ensures NumberAt(s, k) == Some((if neg then -DigitsAt(s, d, e) else DigitsAt(s, d, e), e))
  {
    SkipOneSpace(s, k);
  }

  lemma SkipOneSpace(s: string, k: nat)
    requires k + 1 < |s| && s[k] == ' ' && !IsSpace(s[k + 1])
    ensures SkipSpace(s, k) == k + 1
  {
  }


  lemma RunOfDigits(t: string, d: nat, e: nat)
    requires d <= e <= |t| && (forall p :: d <= p < e ==> IsDigit(t[p]))
    requires e == |t| || !IsDigit(t[e])
    ensures Commands.Run(t, d, IsDigit) == e
    decreases e - d
  {
    if d < e {
      RunOfDigits(t, d + 1, e);
    }
  }

  /** The shortest spelling is read as its unit and stops where it ends. */
  lemma UnitOfSpelling(t: string, e: nat, u: Unit)
    requires var w := Spelling(u);
      e + |w| <= |t| && t[e] == w[0] && (|w| == 2 ==> t[e + 1] == w[1])
      && (e + |w| == |t| || t[e + |w|] == ' ')
    ensures UnitAt(t, e) == Some((u, e + |Spelling(u)|))
  {
    if u.Seconds? || u.Minutes? || u.Hours? {
      UnitOfEarlySpelling(t, e, u);
    } else {
      UnitOfLateSpelling(t, e, u);
    }
  }

  lemma UnitOfEarlySpelling(t: string, e: nat, u: Unit)
    requires u.Seconds? || u.Minutes? || u.Hours?
    requires var w := Spelling(u);
      e + |w| <= |t| && t[e] == w[0] && (e + |w| == |t| || t[e + |w|] == ' ')
    ensures UnitAt(t, e) == Some((u, e + |Spelling(u)|))
  {
    match u
    case Seconds => assert Alternative(0, t, e) == Some(e + 1);
    case Minutes => assert Alternative(2, t, e) == Some(e + 1);
    case Hours => assert Alternative(3, t, e) == Some(e + 1);
  }

  lemma UnitOfLateSpelling(t: string, e: nat, u: Unit)
    requires !(u.Seconds? || u.Minutes? || u.Hours?)
    requires var w := Spelling(u);
      e + |w| <= |t| && t[e] == w[0] && (|w| == 2 ==> t[e + 1] == w[1])
      && (e + |w| == |t| || t[e + |w|] == ' ')
    ensures UnitAt(t, e) == Some((u, e + |Spelling(u)|))
  {
    if u.Days? || u.Weeks? {
      UnitOfDaysOrWeeks(t, e, u);
    } else {
      UnitOfMonthsOrYears(t, e, u);
    }
  }

  lemma UnitOfDaysOrWeeks(t: string, e: nat, u: Unit)
    requires u.Days? || u.Weeks?
    requires var w := Spelling(u);
      e + |w| <= |t| && t[e] == w[0] && (|w| == 2 ==> t[e + 1] == w[1])
      && (e + |w| == |t| || t[e + |w|] == ' ')
    ensures UnitAt(t, e) == Some((u, e + |Spelling(u)|))
  {
    match u
    case Days => assert Alternative(4, t, e) == Some(e + 1);
    case Weeks => assert Alternative(5, t, e) == Some(e + 2);
  }

  lemma UnitOfMonthsOrYears(t: string, e: nat, u: Unit)
    requires u.Months? || u.Years?
    requires var w := Spelling(u);
      e + |w| <= |t| && t[e] == w[0] && (e + |w| == |t| || t[e + |w|] == ' ')
    ensures UnitAt(t, e) == Some((u, e + |Spelling(u)|))
  {
    match u
    case Months => assert Alternative(7, t, e) == Some(e + 1);
    case Years => assert Alternative(8, t, e) == Some(e + 1);
  }

}
