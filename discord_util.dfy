/**
 * Message formatting and lookup helpers (util/discord.py): inline code and
 * code block rendering, the mention conversions of the message formatter,
 * and the name/id search and ranking rules used by the commands.
 */
module DiscordUtil {
  import opened Wrappers
  import opened Text

  /** U+200D ZERO WIDTH JOINER, inserted to break up runs of backticks. */
  const ZWJ: char := '\U{200D}'

  /* ---------------- Inline code ---------------- */

  /** Every backtick of s is immediately followed by a zero width joiner. */
  predicate BackticksEscaped(s: string)
  {
    forall i :: 0 <= i < |s| && s[i] == '`' ==> i + 1 < |s| && s[i + 1] == ZWJ
  }

  lemma {:induction false} EscapeEveryBacktick(s: string)
    ensures BackticksEscaped(ReplaceAll(s, "`", "`" + [ZWJ]))
    decreases |s|
  {
    var r := ReplaceAll(s, "`", "`" + [ZWJ]);
    if |s| >= 1 {
      var rest := ReplaceAll(s[1..], "`", "`" + [ZWJ]);
      EscapeEveryBacktick(s[1..]);
      if "`" <= s {
        assert r == "`" + [ZWJ] + rest;
      } else {
        assert r == [s[0]] + rest;
        assert s[0] != '`';
      }
    }
  }

  /** A string that starts or ends with a backtick. */
  predicate EdgeBacktick(s: string)
  {
    s != [] && (s[0] == '`' || s[|s| - 1] == '`')
  }

  /** No two consecutive backticks. */
  predicate NoDoubleBacktick(s: string)
  {
    forall i :: 0 <= i < |s| - 1 ==> !(s[i] == '`' && s[i + 1] == '`')
  }

  /** Inline.__str__ escapes every backtick when the text holds "``". */
  function EscapeInline(text: string): string
  {
    if IsInfix("``", text) then ReplaceAll(text, "`", "`" + [ZWJ]) else text
  }

  /** Inline.__str__ pads with a space a text that starts or ends with a backtick. */
  function PadInline(t: string): string
  {
    var t' := if "`" <= t then " " + t else t;
    if |t'| > 0 && t'[|t'| - 1] == '`' then t' + " " else t'
  }

  /** The body placed between the delimiters by Inline.__str__. */
  function InlineBody(text: string): string
  {
    PadInline(EscapeInline(text))
  }

  /** str(Inline(text)): text as Discord inline code. */
  function InlineStr(text: string): (r: string)
    ensures '`' !in text ==> r == "`" + text + "`"
    ensures '`' in text ==> r == "``" + InlineBody(text) + "``"
  {
    if '`' in text then "``" + InlineBody(text) + "``" else "`" + text + "`"
  }

  /** A text in which "``" does not occur has no two consecutive backticks. */
  lemma {:induction false} NoDoubleWithoutInfix(text: string)
    requires !IsInfix("``", text)
    ensures NoDoubleBacktick(text)
    decreases |text|
  {
    if text != [] {
      var rest := text[1..];
      NoDoubleWithoutInfix(rest);
      forall i | 0 <= i < |text| - 1 ensures !(text[i] == '`' && text[i + 1] == '`') {
        if i > 0 {
          assert text[i] == rest[i - 1] && text[i + 1] == rest[i];
        } else {
          assert !("``" <= text);
        }
      }
    }
  }

  lemma EscapeInlineNoDouble(text: string)
    ensures NoDoubleBacktick(EscapeInline(text))
    ensures IsInfix("``", text) ==> BackticksEscaped(EscapeInline(text))
  {
    var t := EscapeInline(text);
    if IsInfix("``", text) {
      EscapeEveryBacktick(text);
      forall i | 0 <= i < |t| - 1 ensures !(t[i] == '`' && t[i + 1] == '`') {
        if t[i] == '`' { assert t[i + 1] == ZWJ; }
      }
    } else {
      NoDoubleWithoutInfix(text);
    }
  }

  lemma PadInlineDelimited(t: string)
    requires NoDoubleBacktick(t)
    ensures NoDoubleBacktick(PadInline(t)) && !EdgeBacktick(PadInline(t))
    ensures BackticksEscaped(t) ==> BackticksEscaped(PadInline(t))
  {
    var t' := if "`" <= t then " " + t else t;
    assert NoDoubleBacktick(t') by {
      if "`" <= t {
        forall i | 0 <= i < |t'| - 1 ensures !(t'[i] == '`' && t'[i + 1] == '`') {
          if i > 0 { assert t'[i] == t[i - 1] && t'[i + 1] == t[i]; }
        }
      }
    }
    assert t' == [] || t'[0] != '`' by {
      if "`" <= t { assert t'[0] == ' '; } else if t != [] { assert t[0] != '`'; }
    }
    if BackticksEscaped(t) && "`" <= t {
      forall i | 0 <= i < |t'| && t'[i] == '`' ensures i + 1 < |t'| && t'[i + 1] == ZWJ {
        assert i > 0 && t[i - 1] == '`';
      }
    }
    var b := PadInline(t);
    if |t'| > 0 && t'[|t'| - 1] == '`' {
      assert b == t' + " ";
      forall i | 0 <= i < |b| - 1 ensures !(b[i] == '`' && b[i + 1] == '`') {
        if i < |t'| - 1 { assert b[i] == t'[i] && b[i + 1] == t'[i + 1]; }
      }
    }
  }

  /**
   * The body of a double-backtick inline never holds "``" and never starts
   * or ends with a backtick, so the "``" delimiters around it are the only
   * ones a reader finds. When the text itself holds "``", every backtick of
   * the body is followed by a zero width joiner.
   */
  lemma InlineBodyDelimited(text: string)
    ensures NoDoubleBacktick(InlineBody(text))
    ensures !EdgeBacktick(InlineBody(text))
    ensures IsInfix("``", text) ==> BackticksEscaped(InlineBody(text))
  {
    EscapeInlineNoDouble(text);
    PadInlineDelimited(EscapeInline(text));
  }

  /* ---------------- Code blocks ---------------- */

  predicate TripleAt(s: string, i: int)
    requires 0 <= i && i + 2 < |s|
  {
    s[i] == '`' && s[i + 1] == '`' && s[i + 2] == '`'
  }

  predicate NoTripleBacktick(s: string)
  {
    forall i | 0 <= i && i + 2 < |s| :: !TripleAt(s, i)
  }

  function EscapeCodeBlock(text: string): string
  {
    ReplaceAll(text, "``", "`" + [ZWJ] + "`")
  }

  /** str(CodeBlock(text, language)) */
  function CodeBlockStr(text: string, language: Option<string>): (r: string)
    ensures "```" <= r && r[|r| - 3..] == "```"
  {
    var lang := if language.Some? then language.value else "";
    "```" + lang + "\n" + EscapeCodeBlock(text) + "```"
  }

  lemma {:induction false} EscapeKeepsHead(text: string)
    ensures text != [] ==> EscapeCodeBlock(text) != [] && EscapeCodeBlock(text)[0] == text[0]
    ensures !("``" <= EscapeCodeBlock(text))
  {
    if |text| < 2 {
      assert EscapeCodeBlock(text) == text;
    } else if "``" <= text {
      var r := EscapeCodeBlock(text);
      assert r == "`" + [ZWJ] + "`" + EscapeCodeBlock(text[2..]);
      assert r[1] == ZWJ;
    } else {
      EscapeKeepsHead(text[1..]);
      assert EscapeCodeBlock(text) == [text[0]] + EscapeCodeBlock(text[1..]);
      if text[0] == '`' { assert text[1] != '`'; }
    }
  }

  lemma NoTripleConcat(a: string, b: string)
    requires NoTripleBacktick(a) && NoTripleBacktick(b)
    requires |a| <= 3 && !("``" <= b)
    requires |a| >= 2 ==> a[|a| - 2] != '`'
    ensures NoTripleBacktick(a + b)
  {
    var s := a + b;
    forall i | 0 <= i && i + 2 < |s| ensures !TripleAt(s, i) {
      if i >= |a| {
        assert s[i..i + 3] == b[i - |a|..i - |a| + 3];
        assert !TripleAt(b, i - |a|);
      } else if i + 2 < |a| {
        assert !TripleAt(a, i);
      } else if i + 1 < |a| {
        assert i == |a| - 2;
      } else {
        assert i == |a| - 1;
        assert |b| >= 2 && s[i + 1] == b[0] && s[i + 2] == b[1];
      }
    }
  }

  /**
   * After escaping, the text of a code block holds no "```", so it cannot
   * close the block early.
   */
  lemma {:induction false} CodeBlockEscaped(text: string)
    ensures NoTripleBacktick(EscapeCodeBlock(text))
    decreases |text|
  {
    var r := EscapeCodeBlock(text);
    if |text| < 2 {
      assert r == text;
    } else if "``" <= text {
      CodeBlockEscaped(text[2..]);
      EscapeKeepsHead(text[2..]);
      var rep := "`" + [ZWJ] + "`";
      assert NoTripleBacktick(rep) by {
        forall i | 0 <= i && i + 2 < |rep| ensures !TripleAt(rep, i) { assert i == 0; }
      }
      NoTripleConcat(rep, EscapeCodeBlock(text[2..]));
      assert r == rep + EscapeCodeBlock(text[2..]);
    } else {
      CodeBlockEscaped(text[1..]);
      EscapeKeepsHead(text[1..]);
      NoTripleConcat([text[0]], EscapeCodeBlock(text[1..]));
      assert r == [text[0]] + EscapeCodeBlock(text[1..]);
    }
  }

  /* ---------------- Formatter conversions ---------------- */

  /** The values the bot passes to its message formatter; `text` is str(value). */
  datatype FieldValue =
    | RoleValue(id: nat, text: string)
    | UserValue(id: nat, text: string)
    | ChannelValue(id: nat, text: string)
    | IntValue(n: int)
    | TextValue(text: string)

  function StrOf(v: FieldValue): string
  {
    match v
    case IntValue(n) => IntToString(n)
    case _ => v.text
  }

  /** A converted field: plain text, or a code block still waiting for its language. */
  datatype Converted = Plain(s: string) | Block(text: string)

  function RoleMention(id: int): string { "<@&" + IntToString(id) + ">" }
  function UserMention(id: int): string { "<@" + IntToString(id) + ">" }
  function ChannelLink(id: int): string { "<#" + IntToString(id) + ">" }

  /**
   * Formatter.convert_field for the conversions i, b, m, M, c and s. None is
   * the ValueError that string.Formatter raises when a conversion does not
   * apply to the value.
   */
  function ConvertField(v: FieldValue, conversion: char): (r: Option<Converted>)
    ensures conversion == 'm' ==>
      (r.Some? <==> (v.RoleValue? || v.UserValue? || v.IntValue?))
    ensures conversion == 'M' ==> (r.Some? <==> (v.RoleValue? || v.IntValue?))
    ensures conversion == 'c' ==> (r.Some? <==> (v.ChannelValue? || v.IntValue?))
    ensures conversion in {'i', 'b', 's'} ==> r.Some?
  {
    match conversion
    case 'i' => Some(Plain(InlineStr(StrOf(v))))
    case 'b' => Some(Block(StrOf(v)))
    case 'm' =>
      (match v
       case RoleValue(id, _) => Some(Plain(RoleMention(id)))
       case UserValue(id, _) => Some(Plain(UserMention(id)))
       case IntValue(n) => Some(Plain(UserMention(n)))
       case _ => None)
    case 'M' =>
      (match v
       case RoleValue(id, _) => Some(Plain(RoleMention(id)))
       case IntValue(n) => Some(Plain(RoleMention(n)))
       case _ => None)
    case 'c' =>
      (match v
       case ChannelValue(id, _) => Some(Plain(ChannelLink(id)))
       case IntValue(n) => Some(Plain(ChannelLink(n)))
       case _ => None)
    case 's' => Some(Plain(StrOf(v)))
    case _ => None
  }

  /** Formatter.format_field: a code block takes a non-empty format spec as its language. */
  function FormatField(c: Converted, fmt: string): string
  {
    match c
    case Plain(s) => s
    case Block(text) => CodeBlockStr(text, if fmt != "" then Some(fmt) else None)
  }

  /** The three mention forms are distinguishable by their first characters. */
  lemma MentionFormsDistinct(a: int, b: int, c: int)
    ensures RoleMention(a) != UserMention(b) && RoleMention(a) != ChannelLink(c)
    ensures UserMention(b) != ChannelLink(c)
    ensures UserMention(b)[2] != '&'
  {
    assert RoleMention(a)[2] == '&';
    assert UserMention(b)[2] == IntToString(b)[0];
    if b < 0 { assert IntToString(b)[0] == '-'; }
    else { assert IsDigit(NatToString(b)[0]); }
    assert UserMention(b)[1] == '@' && ChannelLink(c)[1] == '#';
  }

  /* ---------------- Ranking by name ---------------- */

  /** named_priority: 3 exact, 2 equal ignoring case, 1 case-insensitive prefix, 0 substring. */
  function NamedPriority(name: string, s: string): Option<int>
  {
    if s == name then Some(3)
    else if Lower(s) == Lower(name) then Some(2)
    else if Lower(s) <= Lower(name) then Some(1)
    else if IsInfix(Lower(s), Lower(name)) then Some(0)
    else None
  }

  /** A name is ranked at all exactly when the query is a case-insensitive substring of it. */
  lemma NamedPriorityRanked(name: string, s: string)
    ensures NamedPriority(name, s).Some? <==> IsInfix(Lower(s), Lower(name))
    ensures NamedPriority(name, s) == Some(3) <==> s == name
  {
    if s == name { assert Lower(s) <= Lower(name); }
    else if Lower(s) == Lower(name) { assert Lower(s) <= Lower(name); }
  }

  /** nicknamed_priority: the same tiers tried on the name, then the nickname. */
  function NicknamedPriority(name: string, nick: Option<string>, s: string): Option<int>
  {
    if s == name then Some(3)
    else if nick.Some? && s == nick.value then Some(3)
    else if Lower(s) == Lower(name) then Some(2)
    else if nick.Some? && Lower(s) == Lower(nick.value) then Some(2)
    else if Lower(s) <= Lower(name) then Some(1)
    else if nick.Some? && Lower(s) <= Lower(nick.value) then Some(1)
    else if IsInfix(Lower(s), Lower(name)) then Some(0)
    else if nick.Some? && IsInfix(Lower(s), Lower(nick.value)) then Some(0)
    else None
  }

  function MaxRank(a: Option<int>, b: Option<int>): Option<int>
  {
    if a.None? then b else if b.None? then a else Some(if a.value >= b.value then a.value else b.value)
  }

  /** Checking name and nickname in turn per tier gives the better of the two separate ranks. */
  lemma NicknamedIsBestOfBoth(name: string, nick: Option<string>, s: string)
    ensures NicknamedPriority(name, nick, s)
         == if nick.None? then NamedPriority(name, s)
            else MaxRank(NamedPriority(name, s), NamedPriority(nick.value, s))
  {
  }

  /* ---------------- priority_find ---------------- */

  /** A rank: None (skip), a number, or math.inf (take this item alone). */
  datatype Rank = Unranked | Finite(n: int) | Infinite

  function Ranks<T>(rank: T -> Rank, items: seq<T>): (r: seq<Rank>)
    ensures |r| == |items| && forall i :: 0 <= i < |items| ==> r[i] == rank(items[i])
  {
    if items == [] then [] else Ranks(rank, items[..|items| - 1]) + [rank(items[|items| - 1])]
  }

  /** The largest finite rank among ranks, if any. */
  function Best(ranks: seq<Rank>): (b: Option<int>)
    ensures b.None? <==> forall i :: 0 <= i < |ranks| ==> !ranks[i].Finite?
    ensures b.Some? ==> (exists i :: 0 <= i < |ranks| && ranks[i] == Finite(b.value))
    ensures b.Some? ==> forall i :: 0 <= i < |ranks| && ranks[i].Finite? ==> ranks[i].n <= b.value
  {
    if ranks == [] then None
    else
      var b := Best(ranks[..|ranks| - 1]);
      var last := ranks[|ranks| - 1];
      if !last.Finite? then b
      else if b.None? || last.n > b.value then Some(last.n)
      else b
  }

  /** The items, in input order, whose rank is Finite(k). */
  function WithRank<T>(items: seq<T>, ranks: seq<Rank>, k: int): (r: seq<T>)
    requires |items| == |ranks|
    ensures |r| <= |items|
  {
    if items == [] then []
    else WithRank(items[..|items| - 1], ranks[..|ranks| - 1], k)
         + (if ranks[|ranks| - 1] == Finite(k) then [items[|items| - 1]] else [])
  }

  /** Index of the first infinite rank, if any. */
  function FirstInfinite(ranks: seq<Rank>): (r: Option<nat>)
    ensures r.Some? ==>
      (r.value < |ranks| && ranks[r.value].Infinite? && forall i :: 0 <= i < r.value ==> !ranks[i].Infinite?)
    ensures r.None? ==> forall i :: 0 <= i < |ranks| ==> !ranks[i].Infinite?
  {
    if ranks == [] then None
    else if ranks[0].Infinite? then Some(0)
    else match FirstInfinite(ranks[1..])
      case None => None
      case Some(j) => Some(j + 1)
  }

  /**
   * priority_find: the items of the highest rank, in input order, skipping
   * unranked items; the first item ranked math.inf is returned alone.
   */
  method PriorityFind<T>(rank: T -> Rank, items: seq<T>) returns (results: seq<T>)
    ensures FirstInfinite(Ranks(rank, items)).Some? ==>
      results == [items[FirstInfinite(Ranks(rank, items)).value]]
    ensures FirstInfinite(Ranks(rank, items)).None? ==>
      results == match Best(Ranks(rank, items))
                 case None => []
                 case Some(b) => WithRank(items, Ranks(rank, items), b)
  {
    var ranks := Ranks(rank, items);
    results := [];
    var cur: Option<int> := None;
    var i := 0;
    while i < |items|
      invariant 0 <= i <= |items|
      invariant FirstInfinite(ranks[..i]).None?
      invariant PriorityInvariant(items[..i], ranks[..i], cur, results)
    {
      var r := rank(items[i]);
      if r.Infinite? {
        FirstInfiniteOfPrefix(ranks, i);
        return [items[i]];
      }
      PriorityStep(items, ranks, i, cur, results);
      if r.Unranked? {
      } else if cur.None? || r.n > cur.value {
        cur := Some(r.n);
        results := [items[i]];
      } else if r.n == cur.value {
        results := results + [items[i]];
      }
      FirstInfiniteStep(ranks, i);
      i := i + 1;
    }
    assert ranks[..i] == ranks && items[..i] == items;
  }

  /** What the loop of priority_find knows after scanning a prefix of the items. */
  ghost predicate PriorityInvariant<T>(items: seq<T>, ranks: seq<Rank>, cur: Option<int>, results: seq<T>)
    requires |items| == |ranks|
  {
    cur == Best(ranks)
    && (cur.None? ==> results == [])
    && (cur.Some? ==> results == WithRank(items, ranks, cur.value))
  }

  /** One finite or unranked item keeps priority_find's invariant. */
  lemma PriorityStep<T>(items: seq<T>, ranks: seq<Rank>, i: nat, cur: Option<int>, results: seq<T>)
    requires |items| == |ranks| && i < |items| && !ranks[i].Infinite?
    requires PriorityInvariant(items[..i], ranks[..i], cur, results)
    ensures ranks[i].Unranked? ==> PriorityInvariant(items[..i + 1], ranks[..i + 1], cur, results)
    ensures ranks[i].Finite? && (cur.None? || ranks[i].n > cur.value) ==>
      PriorityInvariant(items[..i + 1], ranks[..i + 1], Some(ranks[i].n), [items[i]])
    ensures ranks[i].Finite? && cur.Some? && ranks[i].n == cur.value ==>
      PriorityInvariant(items[..i + 1], ranks[..i + 1], cur, results + [items[i]])
    ensures ranks[i].Finite? && cur.Some? && ranks[i].n < cur.value ==>
      PriorityInvariant(items[..i + 1], ranks[..i + 1], cur, results)
  {
    var its := items[..i + 1];
    var rs := ranks[..i + 1];
    assert its[..i] == items[..i] && rs[..i] == ranks[..i];
    assert its[i] == items[i] && rs[i] == ranks[i];
    if ranks[i].Finite? && (cur.None? || ranks[i].n > cur.value) {
      WithRankAbsent(items[..i], ranks[..i], ranks[i].n);
    }
  }

  lemma FirstInfiniteOfPrefix(ranks: seq<Rank>, i: nat)
    requires i < |ranks| && ranks[i].Infinite? && FirstInfinite(ranks[..i]).None?
    ensures FirstInfinite(ranks) == Some(i)
  {
    var f := FirstInfinite(ranks);
    forall j | 0 <= j < i ensures !ranks[j].Infinite? {
      assert ranks[..i][j] == ranks[j];
    }
  }

  lemma FirstInfiniteStep(ranks: seq<Rank>, i: nat)
    requires i < |ranks| && !ranks[i].Infinite? && FirstInfinite(ranks[..i]).None?
    ensures FirstInfinite(ranks[..i + 1]).None?
  {
    var p := ranks[..i + 1];
    forall j | 0 <= j < |p| ensures !p[j].Infinite? {
      if j < i { assert ranks[..i][j] == ranks[j]; }
    }
  }

  lemma {:induction false} WithRankAbsent<T>(items: seq<T>, ranks: seq<Rank>, k: int)
    requires |items| == |ranks|
    requires forall i :: 0 <= i < |ranks| ==> ranks[i] != Finite(k)
    ensures WithRank(items, ranks, k) == []
  {
    if items != [] {
      WithRankAbsent(items[..|items| - 1], ranks[..|ranks| - 1], k);
    }
  }

  /**
   * The items priority_find returns (when no rank is infinite) are exactly
   * those whose rank is finite and at least every other finite rank.
   */
  lemma {:induction false} WithRankMembers<T>(items: seq<T>, ranks: seq<Rank>, k: int, x: T)
    requires |items| == |ranks|
    ensures x in WithRank(items, ranks, k) <==>
      exists i :: 0 <= i < |items| && items[i] == x && ranks[i] == Finite(k)
  {
    if items != [] {
      var n := |items| - 1;
      WithRankMembers(items[..n], ranks[..n], k, x);
      if x in WithRank(items[..n], ranks[..n], k) {
        var i :| 0 <= i < n && items[..n][i] == x && ranks[..n][i] == Finite(k);
        assert items[i] == x && ranks[i] == Finite(k);
      }
      if exists i :: 0 <= i < |items| && items[i] == x && ranks[i] == Finite(k) {
        var i :| 0 <= i < |items| && items[i] == x && ranks[i] == Finite(k);
        if i < n { assert items[..n][i] == x && ranks[..n][i] == Finite(k); }
      }
    }
  }

  /* ---------------- smart_find ---------------- */

  /** Anything with an id, a name and possibly a nickname (members, roles, channels, emoji). */
  datatype Named = Named(id: int, name: string, nick: Option<string>)

  /** The string through which x matches query as a prefix: its name, else its nickname. */
  function PrefixKey(x: Named, query: string): Option<string>
  {
    if query <= x.name then Some(x.name)
    else if x.nick.Some? && query <= x.nick.value then Some(x.nick.value)
    else None
  }

  predicate InfixMatch(x: Named, query: string)
  {
    PrefixKey(x, query).None?
    && (IsInfix(query, x.name) || (x.nick.Some? && IsInfix(query, x.nick.value)))
  }

  /** The prefix-matched strings of items, in order. */
  function PrefixStrings(items: seq<Named>, query: string): seq<string>
  {
    if items == [] then []
    else PrefixStrings(items[..|items| - 1], query)
         + (match PrefixKey(items[|items| - 1], query) case Some(k) => [k] case None => [])
  }

  /** The last prefix-matching item. */
  function LastPrefix(items: seq<Named>, query: string): Option<Named>
  {
    if items == [] then None
    else if PrefixKey(items[|items| - 1], query).Some? then Some(items[|items| - 1])
    else LastPrefix(items[..|items| - 1], query)
  }

  function InfixItems(items: seq<Named>, query: string): seq<Named>
  {
    if items == [] then []
    else InfixItems(items[..|items| - 1], query)
         + (if InfixMatch(items[|items| - 1], query) then [items[|items| - 1]] else [])
  }

  /** The last string of ms is strictly shorter than every earlier one. */
  predicate LastStrictlyShortest(ms: seq<string>)
  {
    ms != [] && forall k :: 0 <= k < |ms| - 1 ==> |ms[|ms| - 1]| < |ms[k]|
  }

  /** Index of the first item whose id equals the integer the query parses to. */
  function FirstWithId(items: seq<Named>, id: int): (r: Option<nat>)
    ensures r.Some? ==>
      (r.value < |items| && items[r.value].id == id && forall j :: 0 <= j < r.value ==> items[j].id != id)
    ensures r.None? ==> forall j :: 0 <= j < |items| ==> items[j].id != id
  {
    if items == [] then None
    else if items[0].id == id then Some(0)
    else match FirstWithId(items[1..], id)
      case None => None
      case Some(j) => Some(j + 1)
  }

  /** What smart_find returns when no id matches. */
  function ByName(items: seq<Named>, query: string): Option<Named>
  {
    if LastStrictlyShortest(PrefixStrings(items, query)) then LastPrefix(items, query)
    else if |InfixItems(items, query)| == 1 then Some(InfixItems(items, query)[0])
    else None
  }

  /**
   * smart_find: an exact id match first; otherwise the prefix match, when the
   * prefix-match list that the loop keeps ends up with a single entry; otherwise
   * the unique infix match.
   */
  method SmartFind(query: string, items: seq<Named>) returns (r: Option<Named>)
    ensures ParseInt(query).Some? && FirstWithId(items, ParseInt(query).value).Some? ==>
      r == Some(items[FirstWithId(items, ParseInt(query).value).value])
    ensures (ParseInt(query).None? || FirstWithId(items, ParseInt(query).value).None?) ==>
      r == ByName(items, query)
  {
    var intId := ParseInt(query);
    r := SmartFindScan(query, intId, items);
  }

  /** The loop of smart_find, given int(query) (None when the query is not an integer). */
  method SmartFindScan(query: string, intId: Option<int>, items: seq<Named>) returns (r: Option<Named>)
    ensures intId.Some? && FirstWithId(items, intId.value).Some? ==>
      r == Some(items[FirstWithId(items, intId.value).value])
    ensures (intId.None? || FirstWithId(items, intId.value).None?) ==>
      r == ByName(items, query)
  {
    var prefixMatch: Option<Named> := None;
    var prefixMatches: seq<string> := [];
    var infixMatches: seq<Named> := [];
    var i := 0;
    while i < |items|
      invariant 0 <= i <= |items|
      invariant intId.Some? ==> FirstWithId(items[..i], intId.value).None?
      invariant SmartFindInvariant(items[..i], query, prefixMatches, prefixMatch, infixMatches)
    {
      var x := items[i];
      if intId.Some? && x.id == intId.value {
        FirstWithIdOfPrefix(items, i, intId.value);
        return Some(x);
      }
      var key := PrefixKey(x, query);
      SmartFindStep(items, query, i, prefixMatches, prefixMatch, infixMatches);
      if key.Some? {
        if prefixMatches != [] && |key.value| < |prefixMatches[0]| {
          prefixMatches := [];
        }
        prefixMatches := prefixMatches + [key.value];
        prefixMatch := Some(x);
      } else if InfixMatch(x, query) {
        infixMatches := infixMatches + [x];
      }
      if intId.Some? { FirstWithIdStep(items, i, intId.value); }
      i := i + 1;
    }
    assert items[..i] == items;
    ByNameOfLoopState(items, query, prefixMatches, prefixMatch, infixMatches);
    if |prefixMatches| == 1 {
      return prefixMatch;
    }
    if |infixMatches| == 1 {
      return Some(infixMatches[0]);
    }
    return None;
  }

  /** Index of the first string of the smallest length in ms. */
  function FirstShortest(ms: seq<string>): (j: nat)
    requires ms != []
    ensures j < |ms|
    ensures forall k :: 0 <= k < |ms| ==> |ms[j]| <= |ms[k]|
    ensures forall k :: 0 <= k < j ==> |ms[j]| < |ms[k]|
  {
    if |ms| == 1 then 0
    else
      var j := FirstShortest(ms[..|ms| - 1]);
      assert forall k :: 0 <= k < |ms| - 1 ==> ms[..|ms| - 1][k] == ms[k];
      if |ms[|ms| - 1]| < |ms[j]| then |ms| - 1 else j
  }

  /**
   * The list smart_find's loop keeps of the prefix-matched strings ms: it is
   * reset only by a strictly shorter match, so it is the suffix of ms from
   * the first string of the smallest length.
   */
  function KeptMatches(ms: seq<string>): seq<string>
  {
    if ms == [] then [] else ms[FirstShortest(ms)..]
  }

  /** One more prefix match: the loop's list is reset by a strictly shorter string, else extended. */
  lemma KeptMatchesStep(ms: seq<string>, m: string)
    ensures KeptMatches(ms + [m])
         == (if KeptMatches(ms) != [] && |m| < |KeptMatches(ms)[0]| then [] else KeptMatches(ms)) + [m]
  {
    var ms' := ms + [m];
    assert ms'[..|ms'| - 1] == ms;
  }

  /** What the loop of smart_find knows after scanning `done`. */
  predicate SmartFindInvariant(done: seq<Named>, query: string, pl: seq<string>, pm: Option<Named>, im: seq<Named>)
  {
    pl == KeptMatches(PrefixStrings(done, query))
    && pm == LastPrefix(done, query) && im == InfixItems(done, query)
  }

  /** One iteration of smart_find's loop keeps its invariant. */
  lemma SmartFindStep(items: seq<Named>, query: string, i: nat, pl: seq<string>, pm: Option<Named>, im: seq<Named>)
    requires i < |items| && SmartFindInvariant(items[..i], query, pl, pm, im)
    ensures var key := PrefixKey(items[i], query);
      if key.Some? then
        SmartFindInvariant(items[..i + 1], query,
          (if pl != [] && |key.value| < |pl[0]| then [] else pl) + [key.value], Some(items[i]), im)
      else
        SmartFindInvariant(items[..i + 1], query, pl, pm,
          im + (if InfixMatch(items[i], query) then [items[i]] else []))
  {
    var key := PrefixKey(items[i], query);
    SpecSnoc(items, query, i);
    if key.Some? {
      KeptMatchesStep(PrefixStrings(items[..i], query), key.value);
    } else {
      assert PrefixStrings(items[..i + 1], query) == PrefixStrings(items[..i], query) + [];
      assert PrefixStrings(items[..i], query) + [] == PrefixStrings(items[..i], query);
    }
  }

  lemma SpecSnoc(items: seq<Named>, query: string, i: nat)
    requires i < |items|
    ensures PrefixStrings(items[..i + 1], query) == PrefixStrings(items[..i], query)
      + (match PrefixKey(items[i], query) case Some(k) => [k] case None => [])
    ensures LastPrefix(items[..i + 1], query)
      == if PrefixKey(items[i], query).Some? then Some(items[i]) else LastPrefix(items[..i], query)
    ensures InfixItems(items[..i + 1], query)
      == InfixItems(items[..i], query) + (if InfixMatch(items[i], query) then [items[i]] else [])
  {
    var p := items[..i + 1];
    assert p[..|p| - 1] == items[..i] && p[|p| - 1] == items[i];
  }

  /** The kept list has a single entry exactly when the last match is strictly the shortest. */
  lemma KeptMatchesUnique(ms: seq<string>)
    ensures |KeptMatches(ms)| == 1 <==> LastStrictlyShortest(ms)
  {
    if ms != [] {
      var j := FirstShortest(ms);
    }
  }

  /** What the loop of smart_find has gathered decides the result as ByName says. */
  lemma ByNameOfLoopState(items: seq<Named>, query: string, pl: seq<string>, pm: Option<Named>, im: seq<Named>)
    requires SmartFindInvariant(items, query, pl, pm, im)
    ensures ByName(items, query)
      == if |pl| == 1 then pm else if |im| == 1 then Some(im[0]) else None
  {
    KeptMatchesUnique(PrefixStrings(items, query));
  }

  lemma FirstWithIdOfPrefix(items: seq<Named>, i: nat, id: int)
    requires i < |items| && items[i].id == id && FirstWithId(items[..i], id).None?
    ensures FirstWithId(items, id) == Some(i)
  {
    forall j | 0 <= j < i ensures items[j].id != id {
      assert items[..i][j] == items[j];
    }
  }

  lemma FirstWithIdStep(items: seq<Named>, i: nat, id: int)
    requires i < |items| && items[i].id != id && FirstWithId(items[..i], id).None?
    ensures FirstWithId(items[..i + 1], id).None?
  {
    var p := items[..i + 1];
    forall j | 0 <= j < |p| ensures p[j].id != id {
      if j < i { assert items[..i][j] == items[j]; }
    }
  }

  /** Whatever smart_find's name rules return is one of the items searched. */
  lemma {:induction false} ByNameIsElement(items: seq<Named>, query: string)
    ensures ByName(items, query).Some? ==> ByName(items, query).value in items
  {
    LastPrefixIsElement(items, query);
    InfixItemsAreElements(items, query);
  }

  lemma {:induction false} LastPrefixIsElement(items: seq<Named>, query: string)
    ensures LastPrefix(items, query).Some? ==> LastPrefix(items, query).value in items
  {
    if items != [] && PrefixKey(items[|items| - 1], query).None? {
      LastPrefixIsElement(items[..|items| - 1], query);
    }
  }

  lemma {:induction false} InfixItemsAreElements(items: seq<Named>, query: string)
    ensures forall x :: x in InfixItems(items, query) ==> x in items && InfixMatch(x, query)
  {
    if items != [] {
      InfixItemsAreElements(items[..|items| - 1], query);
    }
  }
}
