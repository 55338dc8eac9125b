/**
 * plugins/commands.py: the command-line tokenizer (ArgParser), the table of
 * registered commands and the prefix/name dispatch of incoming messages.
 *
 * ArgParser matches one verbose regular expression at its cursor. Here that
 * expression is a hand-written scanner: leading white space, then the first
 * alternative that matches, tried in the expression's order (tag, quoted
 * string, code block, double-backtick code, single-backtick code, bare word).
 * Where the expression's backtracking can change the outcome (the quoted
 * string and the optional code-block language), the scanner backtracks the
 * same way.
 */
module Commands {
  import opened Wrappers
  import opened Text
  import DiscordUtil

  /* ---------------- Scanning helpers ---------------- */

  predicate StartsAt(s: string, k: nat, pat: string)
  {
    k <= |s| && pat <= s[k..]
  }

  /** The end of the longest run of characters satisfying f from k (a greedy `f*`). */
  function Run(s: string, k: nat, f: char -> bool): (e: nat)
    requires k <= |s|
    ensures k <= e <= |s| && (e == |s| || !f(s[e]))
    ensures forall p {:trigger f(s[p])} :: k <= p < e ==> f(s[p])
    decreases |s| - k
  {
    if k < |s| && f(s[k]) then Run(s, k + 1, f) else k
  }

  /** The first position from k where pat starts, or the end of s. */
  function ScanTo(s: string, k: nat, pat: string): (e: nat)
    requires k <= |s| && pat != []
    ensures k <= e <= |s| && (e < |s| ==> pat <= s[e..])
    ensures forall p :: k <= p < e ==> !(pat <= s[p..])
    decreases |s| - k
  {
    if k == |s| || pat <= s[k..] then k else ScanTo(s, k + 1, pat)
  }

  /**
   * `(?:(?!pat).)+pat` from b: one or more characters up to the first
   * occurrence of pat, which must exist. The result is where pat starts.
   */
  function Delimited(s: string, b: nat, pat: string): (r: Option<nat>)
    requires b <= |s| && pat != []
    ensures r.Some? ==> b < r.value && r.value + |pat| <= |s| && pat <= s[r.value..]
  {
    var e := ScanTo(s, b, pat);
    if b < e < |s| then Some(e) else None
  }

  /* ---------------- Tags ---------------- */

  datatype TagKind = UserTag(hasNick: bool) | RoleTag | ChannelTag | EmojiTag(name: string, animated: bool)

  /**
   * The `type` group: `@!?`, `@&`, `#`, and with emoji chunking `a?:\w*:`.
   * The result is the kind and where the digits must start.
   */
  function TypeAt(s: string, k: nat, emoji: bool): (r: Option<(TagKind, nat)>)
    requires k <= |s|
    ensures r.Some? ==> k < r.value.1 <= |s|
    ensures r.Some? && r.value.0.EmojiTag? ==> emoji
  {
    if k < |s| && s[k] == '@' then
      if k + 1 < |s| && s[k + 1] == '!' then Some((UserTag(true), k + 2))
      else if k + 1 < |s| && s[k + 1] == '&' then Some((RoleTag, k + 2))
      else Some((UserTag(false), k + 1))
    else if k < |s| && s[k] == '#' then Some((ChannelTag, k + 1))
    else if emoji && k < |s| && (s[k] == ':' || (s[k] == 'a' && k + 1 < |s| && s[k + 1] == ':')) then
      var animated := s[k] == 'a';
      var b := if animated then k + 2 else k + 1;
      var w := Run(s, b, IsWordChar);
      if w < |s| && s[w] == ':' then Some((EmojiTag(s[b..w], animated), w + 1)) else None
    else None
  }

  datatype TagMatch = TagMatch(kind: TagKind, id: nat, end: nat)

  /** `<` type `\d+` `>` at k. */
  function TagAt(s: string, k: nat, emoji: bool): (r: Option<TagMatch>)
    requires k <= |s|
    ensures r.Some? ==> k < r.value.end <= |s| && s[k] == '<' && s[r.value.end - 1] == '>'
    ensures r.Some? && r.value.kind.EmojiTag? ==> emoji
  {
    if k < |s| && s[k] == '<' then
      match TypeAt(s, k + 1, emoji)
      case None => None
      case Some((kind, d)) =>
        var e := Run(s, d, IsDigit);
        if d < e < |s| && s[e] == '>' then Some(TagMatch(kind, DigitsValue(s[d..e]), e + 1)) else None
    else None
  }

  /* ---------------- Quoted strings ---------------- */

  /**
   * `(?:\\.|[^"])*"` from k, with the backtracking of the regular
   * expression: another round of the loop is tried before leaving it, an
   * escape pair before a single character. The result is the end of the
   * closing quote.
   */
  function QuotedTail(s: string, k: nat): (r: Option<nat>)
    requires k <= |s|
    ensures r.Some? ==> k < r.value <= |s| && s[r.value - 1] == '"'
    decreases |s| - k
  {
    var pair := if k + 1 < |s| && s[k] == '\\' then QuotedTail(s, k + 2) else None;
    if pair.Some? then pair
    else
      var single := if k < |s| && s[k] != '"' then QuotedTail(s, k + 1) else None;
      if single.Some? then single
      else if k < |s| && s[k] == '"' then Some(k + 1)
      else None
  }

  /* ---------------- Code ---------------- */

  /** The optional language group `\S*\n(?!```)`: the end of its line break. */
  function LanguageAt(s: string, b: nat): (r: Option<nat>)
    requires b <= |s|
    ensures r.Some? ==> b < r.value <= |s|
  {
    var w := Run(s, b, c => !IsSpace(c));
    if w < |s| && s[w] == '\n' && !StartsAt(s, w + 1, "```") then Some(w + 1) else None
  }

  datatype CodeMatch = CodeMatch(block: string, language: Option<string>, end: nat)

  /**
   * ``` [language] block ```: with the language group when the rest then
   * matches, otherwise without it.
   */
  function CodeBlockAt(s: string, k: nat): (r: Option<CodeMatch>)
    requires k <= |s|
    ensures r.Some? ==> k + 6 < r.value.end <= |s|
  {
    if !StartsAt(s, k, "```") then None
    else
      var b := k + 3;
      var withLanguage :=
        match LanguageAt(s, b)
        case None => None
        case Some(l) =>
          (match Delimited(s, l, "```")
           case None => None
           case Some(e) => Some(CodeMatch(s[l..e], Some(s[b..l]), e + 3)));
      if withLanguage.Some? then withLanguage
      else
        match Delimited(s, b, "```")
        case None => None
        case Some(e) => Some(CodeMatch(s[b..e], None, e + 3))
  }

  /* ---------------- Words ---------------- */

  /** A bare word: non-space characters, stopping before a tag. */
  function WordEnd(s: string, k: nat, emoji: bool): (e: nat)
    requires k <= |s|
    ensures k <= e <= |s|
    ensures forall p :: k <= p < e ==> !IsSpace(s[p]) && TagAt(s, p, emoji).None?
    ensures e < |s| ==> IsSpace(s[e]) || TagAt(s, e, emoji).Some?
    decreases |s| - k
  {
    if k < |s| && !IsSpace(s[k]) && TagAt(s, k, emoji).None? then WordEnd(s, k + 1, emoji) else k
  }

  /* ---------------- Arguments ---------------- */

  /** The argument classes: Arg's subclasses with their own fields. */
  datatype ArgKind =
    | UserMentionArg(id: nat, hasNick: bool)
    | RoleMentionArg(id: nat)
    | ChannelArg(id: nat)
    | EmojiArg(id: nat, name: string, animated: bool)
    | StringArg(text: string)
    | InlineCodeArg(text: string)
    | CodeBlockArg(text: string, language: Option<string>)

  /** isinstance(arg, StringArg): inline code and code blocks are StringArg subclasses. */
  predicate IsString(k: ArgKind)
  {
    k.StringArg? || k.InlineCodeArg? || k.CodeBlockArg?
  }

  /** Every argument carries its source text and the command line left after it. */
  datatype Arg = Arg(source: string, rest: string, kind: ArgKind)

  function TagArg(m: TagMatch): ArgKind
  {
    match m.kind
    case UserTag(nick) => UserMentionArg(m.id, nick)
    case RoleTag => RoleMentionArg(m.id)
    case ChannelTag => ChannelArg(m.id)
    case EmojiTag(name, animated) => EmojiArg(m.id, name, animated)
  }

  /** The alternatives in order, at a position holding no white space: first a tag. */
  function TokenAt(s: string, j: nat, emoji: bool): (r: Option<(ArgKind, nat)>)
    requires j <= |s|
    ensures r.Some? ==> j < r.value.1 <= |s|
    ensures j < |s| && !IsSpace(s[j]) ==> r.Some?
  {
    match TagAt(s, j, emoji)
    case Some(m) => Some((TagArg(m), m.end))
    case None => QuotedToken(s, j, emoji)
  }

  /** Then a quoted string, read with its escapes removed. */
  function QuotedToken(s: string, j: nat, emoji: bool): (r: Option<(ArgKind, nat)>)
    requires j <= |s|
    ensures r.Some? ==> j < r.value.1 <= |s|
    ensures j < |s| && !IsSpace(s[j]) && TagAt(s, j, emoji).None? ==> r.Some?
    ensures j < |s| && s[j] == '"' && QuotedTail(s, j + 1).Some? ==>
      var e := QuotedTail(s, j + 1).value;
      r == Some((StringArg(Unescape(s[j + 1..e - 1])), e))
  {
    var quoted := if j < |s| && s[j] == '"' then QuotedTail(s, j + 1) else None;
    match quoted
    case Some(e) => Some((StringArg(Unescape(s[j + 1..e - 1])), e))
    case None => BlockToken(s, j, emoji)
  }

  /** Then a code block. */
  function BlockToken(s: string, j: nat, emoji: bool): (r: Option<(ArgKind, nat)>)
    requires j <= |s|
    ensures r.Some? ==> j < r.value.1 <= |s|
    ensures j < |s| && !IsSpace(s[j]) && TagAt(s, j, emoji).None? ==> r.Some?
  {
    match CodeBlockAt(s, j)
    case Some(c) => Some((CodeBlockArg(c.block, c.language), c.end))
    case None => InlineToken(s, j, emoji)
  }

  /** Then code between double backticks, then between single ones. */
  function InlineToken(s: string, j: nat, emoji: bool): (r: Option<(ArgKind, nat)>)
    requires j <= |s|
    ensures r.Some? ==> j < r.value.1 <= |s|
    ensures j < |s| && !IsSpace(s[j]) && TagAt(s, j, emoji).None? ==> r.Some?
  {
    var code2 := if StartsAt(s, j, "``") then Delimited(s, j + 2, "``") else None;
    var code1 := if StartsAt(s, j, "`") then Delimited(s, j + 1, "`") else None;
    if code2.Some? then Some((InlineCodeArg(s[j + 2..code2.value]), code2.value + 2))
    else if code1.Some? then Some((InlineCodeArg(s[j + 1..code1.value]), code1.value + 1))
    else WordToken(s, j, emoji)
  }

  /** Last a bare word. */
  function WordToken(s: string, j: nat, emoji: bool): (r: Option<(ArgKind, nat)>)
    requires j <= |s|
    ensures r.Some? ==> j < r.value.1 <= |s|
    ensures j < |s| && !IsSpace(s[j]) && TagAt(s, j, emoji).None? ==> r.Some?
  {
    var e := WordEnd(s, j, emoji);
    assert j < |s| && !IsSpace(s[j]) && TagAt(s, j, emoji).None? ==> e == WordEnd(s, j + 1, emoji);
    if j < e then Some((StringArg(s[j..e]), e)) else None
  }

  datatype Lexed = Lexed(source: string, kind: ArgKind, end: nat)

  /** One match of the expression at position i: the `source` group, the argument and the match end. */
  function Lex(s: string, i: nat, emoji: bool): Option<Lexed>
    requires i <= |s|
  {
    var j := SkipSpace(s, i);
    match TokenAt(s, j, emoji)
    case None => None
    case Some((kind, e)) => Some(Lexed(s[j..e], kind, e))
  }

  /** A match exists exactly when something other than white space is left. */
  lemma LexBlank(s: string, i: nat, emoji: bool)
    requires i <= |s|
    ensures Lex(s, i, emoji).None? <==> forall p :: i <= p < |s| ==> IsSpace(s[p])
  {
    var j := SkipSpace(s, i);
  }

  /** A match consumes its non-empty source and moves the cursor forward. */
  lemma LexAdvances(s: string, i: nat, emoji: bool)
    requires i <= |s| && Lex(s, i, emoji).Some?
    ensures var l := Lex(s, i, emoji).value;
      i < l.end <= |s| && l.source != [] && l.source == s[l.end - |l.source|..l.end]
      && forall p :: i <= p < l.end - |l.source| ==> IsSpace(s[p])
  {
  }

  /** Without emoji chunking no emoji argument is produced. */
  lemma NoEmojiUnlessChunked(s: string, i: nat)
    requires i <= |s|
    ensures Lex(s, i, false).Some? ==> !Lex(s, i, false).value.kind.EmojiArg?
  {
  }

  /* ---------------- The parser object ---------------- */

  class ArgParser {
    var cmdline: string
    var pos: nat

    ghost predicate Valid()
      reads this
    {
      pos <= |cmdline|
    }

    /** The command line loses its leading white space; the cursor starts at 0. */
    constructor(text: string)
      ensures Valid() && cmdline == LStrip(text) && pos == 0
    {
      cmdline := LStrip(text);
      pos := 0;
    }

    /** get_rest: what the cursor has not consumed, from its first non-space character. */
    function GetRest(): (r: string)
      requires Valid()
      reads this
      ensures r == cmdline[SkipSpace(cmdline, pos)..]
    {
      LStrip(cmdline[pos..])
    }

    /**
     * next_arg: on a match the cursor moves to its end and the argument
     * carries its source and the rest after it; otherwise nothing changes.
     */
    method NextArg(chunkEmoji: bool) returns (arg: Option<Arg>)
      requires Valid()
      modifies this
      ensures Valid() && cmdline == old(cmdline)
      ensures Lex(cmdline, old(pos), chunkEmoji).None? ==> arg.None? && pos == old(pos)
      ensures Lex(cmdline, old(pos), chunkEmoji).Some? ==>
        var l := Lex(cmdline, old(pos), chunkEmoji).value;
        old(pos) < pos == l.end && arg == Some(Arg(l.source, GetRest(), l.kind))
    {
      var m := Lex(cmdline, pos, chunkEmoji);
      if m.None? {
        return None;
      }
      LexAdvances(cmdline, pos, chunkEmoji);
      pos := m.value.end;
      arg := Some(Arg(m.value.source, GetRest(), m.value.kind));
    }

    /** __iter__: the successive next_arg matches until none is left, which leaves an empty rest. */
    method Args() returns (args: seq<Arg>)
      requires Valid()
      modifies this
      ensures Valid() && cmdline == old(cmdline) && old(pos) <= pos
      ensures args == Tokens(cmdline, old(pos), false)
      ensures GetRest() == []
    {
      args := [];
      while true
        invariant Valid() && cmdline == old(cmdline) && old(pos) <= pos
        invariant args + Tokens(cmdline, pos, false) == Tokens(cmdline, old(pos), false)
        decreases |cmdline| - pos
      {
        TokensStep(cmdline, pos, false);
        var arg := NextArg(false);
        if arg.None? {
          LexBlank(cmdline, pos, false);
          assert args + [] == args;
          return;
        }
        AppendOne(args, arg.value, Tokens(cmdline, pos, false), Tokens(cmdline, old(pos), false));
        args := args + [arg.value];
      }
    }
  }

  /**
   * The arguments that iterating a parser yields from position i: each
   * next_arg match with the rest after it, until nothing matches. Without
   * emoji chunking none is an emoji, and the last one leaves an empty rest.
   */
  function Tokens(s: string, i: nat, emoji: bool): (r: seq<Arg>)
    requires i <= |s|
    ensures !emoji ==> forall k :: 0 <= k < |r| ==> !r[k].kind.EmojiArg?
    ensures r != [] ==> r[|r| - 1].rest == []
    ensures r == [] <==> forall p :: i <= p < |s| ==> IsSpace(s[p])
    decreases |s| - i
  {
    LexBlank(s, i, emoji);
    match Lex(s, i, emoji)
    case None => []
    case Some(l) =>
      LexAdvances(s, i, emoji);
      NoEmojiUnlessChunked(s, i);
      RestEmptyIffNoArg(s, l.end, emoji);
      var tail := Tokens(s, l.end, emoji);
      [Arg(l.source, LStrip(s[l.end..]), l.kind)] + tail
  }

  /** One step of Tokens: nothing when no argument matches, else the match and the arguments after it. */
  lemma TokensStep(s: string, i: nat, emoji: bool)
    requires i <= |s|
    ensures Lex(s, i, emoji).None? ==> Tokens(s, i, emoji) == []
    ensures Lex(s, i, emoji).Some? ==>
      var l := Lex(s, i, emoji).value;
      i < l.end <= |s| && Tokens(s, i, emoji) == [Arg(l.source, LStrip(s[l.end..]), l.kind)] + Tokens(s, l.end, emoji)
  {
    if Lex(s, i, emoji).Some? {
      LexAdvances(s, i, emoji);
    }
  }

  lemma AppendOne<X>(xs: seq<X>, a: X, rest: seq<X>, whole: seq<X>)
    requires xs + ([a] + rest) == whole
    ensures xs + [a] + rest == whole
  {
    assert xs + [a] + rest == xs + ([a] + rest);
  }

  /* ---------------- Properties of the scanner ---------------- */

  /** get_rest is empty exactly when next_arg would find nothing. */
  lemma RestEmptyIffNoArg(s: string, i: nat, emoji: bool)
    requires i <= |s|
    ensures LStrip(s[i..]) == [] <==> Lex(s, i, emoji).None?
  {
    LexBlank(s, i, emoji);
    var r := LStrip(s[i..]);
    if r != [] {
      assert !IsSpace(s[i + (|s| - i - |r|)]);
    } else {
      forall p | i <= p < |s|
        ensures IsSpace(s[p])
      {
        assert s[p] == s[i..][p - i];
      }
    }
  }

  /** A tag is taken before any other alternative. */
  lemma TagLexes(s: string, i: nat, emoji: bool, m: TagMatch)
    requires i < |s| && !IsSpace(s[i]) && TagAt(s, i, emoji) == Some(m)
    ensures Lex(s, i, emoji) == Some(Lexed(s[i..m.end], TagArg(m), m.end))
  {
    assert SkipSpace(s, i) == i;
  }

  /** A quoted string is taken when its closing quote is found. */
  lemma QuotedLexes(s: string, i: nat, emoji: bool, e: nat)
    requires i < |s| && s[i] == '"' && QuotedTail(s, i + 1) == Some(e)
    ensures Lex(s, i, emoji) == Some(Lexed(s[i..e], StringArg(Unescape(s[i + 1..e - 1])), e))
  {
    assert SkipSpace(s, i) == i;
    QuotedTokenAt(s, i, emoji, e);
  }

  lemma QuotedTokenAt(s: string, i: nat, emoji: bool, e: nat)
    requires i < |s| && s[i] == '"' && QuotedTail(s, i + 1) == Some(e)
    ensures TokenAt(s, i, emoji) == Some((StringArg(Unescape(s[i + 1..e - 1])), e))
  {
    assert TagAt(s, i, emoji).None?;
  }

  /** A position that can start nothing but a word starts one. */
  lemma WordLexes(s: string, i: nat, emoji: bool)
    requires i < |s| && !IsSpace(s[i]) && s[i] != '"' && s[i] != '`' && TagAt(s, i, emoji).None?
    ensures Lex(s, i, emoji) == Some(Lexed(s[i..WordEnd(s, i, emoji)], StringArg(s[i..WordEnd(s, i, emoji)]), WordEnd(s, i, emoji)))
  {
    assert SkipSpace(s, i) == i;
    assert !StartsAt(s, i, "`") && !StartsAt(s, i, "``") && !StartsAt(s, i, "```");
    assert CodeBlockAt(s, i).None?;
  }

  /** The digits of a mention are read back as its id. */
  lemma TagOfDigits(s: string, k: nat, kind: TagKind, d: nat, n: nat, emoji: bool)
    requires k < |s| && s[k] == '<' && TypeAt(s, k + 1, emoji) == Some((kind, d))
    requires d < |s| - 1 && Run(s, d, IsDigit) == |s| - 1 && s[|s| - 1] == '>'
    requires AllDigits(s[d..|s| - 1]) && DigitsValue(s[d..|s| - 1]) == n
    ensures TagAt(s, k, emoji) == Some(TagMatch(kind, n, |s|))
  {
  }

  /** A decimal number closed by '>' at position d: the digit run ends just before the '>'. */
  lemma DigitsThenClose(s: string, d: nat, n: nat)
    requires d <= |s| && s[d..] == NatToString(n) + ">"
    ensures d < |s| - 1 && Run(s, d, IsDigit) == |s| - 1 && s[|s| - 1] == '>'
    ensures AllDigits(s[d..|s| - 1]) && DigitsValue(s[d..|s| - 1]) == n
  {
    var t := NatToString(n);
    assert forall p :: d <= p < d + |t| ==> s[p] == t[p - d];
    assert s[d + |t|] == '>';
    RunOverDigits(s, d, d + |t|);
    assert s[d..|s| - 1] == t;
    DigitsValueOfNatToString(n);
  }


  lemma RunOverDigits(s: string, d: nat, e: nat)
    requires d <= e < |s| && (forall p :: d <= p < e ==> IsDigit(s[p])) && !IsDigit(s[e])
    ensures Run(s, d, IsDigit) == e
    decreases e - d
  {
    if d < e {
      RunOverDigits(s, d + 1, e);
    }
  }

  /**
   * The mention forms the bot writes read back as the right argument:
   * "<@id>" a user mention without nickname, "<@!id>" with one, "<@&id>" a
   * role mention and "<#id>" a channel.
   */
  lemma UserMentionReadsBack(n: nat, emoji: bool)
    ensures var s := DiscordUtil.UserMention(n);
      Lex(s, 0, emoji) == Some(Lexed(s, UserMentionArg(n, false), |s|))
  {
    assert DiscordUtil.UserMention(n) == "<@" + NatToString(n) + ">";
    assert MentionHead("<@", UserTag(false));
    HeadTagReadsBack("<@", UserTag(false), n, emoji);
  }

  /** The nickname form `<@!id>` of a user mention reads back as that user. */
  lemma NickMentionReadsBack(n: nat, emoji: bool)
    ensures var s := "<@!" + NatToString(n) + ">";
      Lex(s, 0, emoji) == Some(Lexed(s, UserMentionArg(n, true), |NatToString(n)| + 4))
  {
    assert MentionHead("<@!", UserTag(true));
    HeadTagReadsBack("<@!", UserTag(true), n, emoji);
  }

  lemma RoleMentionReadsBack(n: nat, emoji: bool)
    ensures var s := DiscordUtil.RoleMention(n);
      Lex(s, 0, emoji) == Some(Lexed(s, RoleMentionArg(n), |s|))
  {
    assert DiscordUtil.RoleMention(n) == "<@&" + NatToString(n) + ">";
    assert MentionHead("<@&", RoleTag);
    HeadTagReadsBack("<@&", RoleTag, n, emoji);
  }

  lemma ChannelLinkReadsBack(n: nat, emoji: bool)
    ensures var s := DiscordUtil.ChannelLink(n);
      Lex(s, 0, emoji) == Some(Lexed(s, ChannelArg(n), |s|))
  {
    assert DiscordUtil.ChannelLink(n) == "<#" + NatToString(n) + ">";
    assert MentionHead("<#", ChannelTag);
    HeadTagReadsBack("<#", ChannelTag, n, emoji);
  }


  /** The opening of each mention form and the tag kind it stands for. */
  predicate MentionHead(head: string, kind: TagKind)
  {
    (head == "<@" && kind == UserTag(false)) || (head == "<@!" && kind == UserTag(true))
    || (head == "<@&" && kind == RoleTag) || (head == "<#" && kind == ChannelTag)
  }

  /** One mention form, written around the decimal id. */
  lemma HeadTagReadsBack(head: string, kind: TagKind, n: nat, emoji: bool)
    requires MentionHead(head, kind)
    ensures var s := head + NatToString(n) + ">";
      Lex(s, 0, emoji) == Some(Lexed(s, TagArg(TagMatch(kind, n, |s|)), |s|))
  {
    var s := head + NatToString(n) + ">";
    assert s[0..] == s;
    HeadTagAt(s, 0, head, kind, n, emoji);
    TagLexes(s, 0, emoji, TagMatch(kind, n, |s|));
    assert s[0..|s|] == s;
  }

  /** A mention form that ends the string, starting at k, is a tag reaching the end. */
  lemma HeadTagAt(s: string, k: nat, head: string, kind: TagKind, n: nat, emoji: bool)
    requires MentionHead(head, kind) && k <= |s| && s[k..] == head + NatToString(n) + ">"
    ensures TagAt(s, k, emoji) == Some(TagMatch(kind, n, |s|))
  {
    var t := NatToString(n);
    var r := s[k..];
    var d := k + |head|;
    assert s[k] == r[0] == '<' && s[k + 1] == r[1] == head[1];
    assert s[d] == r[|head|] == t[0] && IsDigit(t[0]);
    if |head| == 3 {
      assert s[k + 2] == r[2] == head[2];
    }
    assert s[d..] == r[|head|..] == t + ">";
    assert TypeAt(s, k + 1, emoji) == Some((kind, d));
    DigitsThenClose(s, d, n);
    TagOfDigits(s, k, kind, d, n, emoji);
  }

  /** The escaped text followed by a quote is read up to that quote. */
  lemma {:induction false} QuotedTailOfEscape(s: string, k: nat, t: string)
    requires TextAt(s, k, Escape(t, '"') + "\"")
    ensures QuotedTail(s, k) == Some(k + |Escape(t, '"')| + 1)
    decreases t
  {
    var e := Escape(t, '"');
    if t == [] {
      assert e + "\"" == ['"'] + [];
      TextAtCons(s, k, '"', []);
    } else if t[0] == '"' || t[0] == '\\' {
      var rest := Escape(t[1..], '"') + "\"";
      assert e + "\"" == ['\\'] + ([t[0]] + rest);
      TextAtCons(s, k, '\\', [t[0]] + rest);
      TextAtCons(s, k + 1, t[0], rest);
      QuotedTailOfEscape(s, k + 2, t[1..]);
    } else {
      var rest := Escape(t[1..], '"') + "\"";
      assert e + "\"" == [t[0]] + rest;
      TextAtCons(s, k, t[0], rest);
      QuotedTailOfEscape(s, k + 1, t[1..]);
    }
  }

  /**
   * A quoted argument reads back as its text: the backslashes written
   * before quotes and backslashes are removed.
   */
  lemma QuotedReadsBack(t: string, emoji: bool)
    ensures var q := "\"" + Escape(t, '"') + "\"";
      Lex(q, 0, emoji) == Some(Lexed(q, StringArg(t), |q|))
  {
    var q := "\"" + Escape(t, '"') + "\"";
    QuotedText(t, q);
    QuotedLexesWhole(q, emoji, t);
  }

  /** A text that is one closed quoted string is lexed whole. */
  lemma QuotedLexesWhole(q: string, emoji: bool, t: string)
    requires q != [] && q[0] == '"' && QuotedTail(q, 1) == Some(|q|) && Unescape(q[1..|q| - 1]) == t
    ensures Lex(q, 0, emoji) == Some(Lexed(q, StringArg(t), |q|))
  {
    QuotedTokenAt(q, 0, emoji, |q|);
    assert SkipSpace(q, 0) == 0;
    LexOfToken(q, 0, emoji, StringArg(t), |q|);
    assert q[0..|q|] == q;
  }

  /** Lex at a non-space position is the token found there. */
  lemma LexOfToken(s: string, i: nat, emoji: bool, kind: ArgKind, e: nat)
    requires i <= |s| && SkipSpace(s, i) == i && TokenAt(s, i, emoji) == Some((kind, e))
    ensures Lex(s, i, emoji) == Some(Lexed(s[i..e], kind, e))
  {
  }

  lemma QuotedText(t: string, q: string)
    requires q == "\"" + Escape(t, '"') + "\""
    ensures q[0] == '"' && QuotedTail(q, 1) == Some(|q|) && Unescape(q[1..|q| - 1]) == t
  {
    QuotedTextCloses(t, q);
    assert q[1..|q| - 1] == Escape(t, '"');
    UnescapeEscape(t, '"');
  }

  lemma QuotedTextCloses(t: string, q: string)
    requires q == "\"" + Escape(t, '"') + "\""
    ensures q[0] == '"' && QuotedTail(q, 1) == Some(|q|)
  {
    assert q == "\"" + (Escape(t, '"') + "\"");
    TextAtSuffix("\"", Escape(t, '"') + "\"");
    QuotedTailOfEscape(q, 1, t);
  }

  /**
   * A word runs into a mention written right after it: the word stops
   * before the tag, and the tag is the next argument.
   */
  lemma WordStopsBeforeMention(w: string, n: nat, emoji: bool)
    requires w != [] && forall p :: 0 <= p < |w| ==> !IsSpace(w[p]) && w[p] != '<'
    requires w[0] != '"' && w[0] != '`'
    ensures var s := w + DiscordUtil.UserMention(n);
      Lex(s, 0, emoji) == Some(Lexed(w, StringArg(w), |w|))
      && Lex(s, |w|, emoji) == Some(Lexed(DiscordUtil.UserMention(n), UserMentionArg(n, false), |s|))
  {
    var u := DiscordUtil.UserMention(n);
    var s := w + u;
    assert s[|w|..] == u == "<@" + NatToString(n) + ">";
    HeadTagAt(s, |w|, "<@", UserTag(false), n, emoji);
    assert forall p :: 0 <= p < |w| ==> s[p] == w[p];
    WordUpTo(s, 0, |w|, emoji);
    WordLexes(s, 0, emoji);
    assert s[0..|w|] == w;
    TagLexes(s, |w|, emoji, TagMatch(UserTag(false), n, |s|));
    assert s[|w|..|s|] == u;
  }

  lemma WordUpTo(s: string, k: nat, e: nat, emoji: bool)
    requires k <= e < |s| && TagAt(s, e, emoji).Some?
    requires forall p :: k <= p < e ==> !IsSpace(s[p]) && s[p] != '<'
    ensures WordEnd(s, k, emoji) == e
    decreases e - k
  {
    if k < e {
      WordUpTo(s, k + 1, e, emoji);
    }
  }

  lemma WordToEnd(s: string, k: nat, emoji: bool)
    requires k <= |s|
    requires forall p :: k <= p < |s| ==> !IsSpace(s[p]) && s[p] != '<'
    ensures WordEnd(s, k, emoji) == |s|
    decreases |s| - k
  {
    if k < |s| {
      WordToEnd(s, k + 1, emoji);
    }
  }

  /**
   * "<:name:id>" and "<a:name:id>" are emoji arguments only with emoji
   * chunking; otherwise the whole tag is one bare word.
   */
  lemma EmojiOnlyWhenChunked(name: string, n: nat, animated: bool)
    requires forall p :: 0 <= p < |name| ==> IsWordChar(name[p])
    ensures var s := (if animated then "<a:" else "<:") + name + ":" + NatToString(n) + ">";
      Lex(s, 0, true) == Some(Lexed(s, EmojiArg(n, name, animated), |s|))
      && Lex(s, 0, false) == Some(Lexed(s, StringArg(s), |s|))
  {
    EmojiChunked(name, n, animated);
    EmojiUnchunked(name, n, animated);
  }

  lemma EmojiChunked(name: string, n: nat, animated: bool)
    requires forall p :: 0 <= p < |name| ==> IsWordChar(name[p])
    ensures var s := (if animated then "<a:" else "<:") + name + ":" + NatToString(n) + ">";
      Lex(s, 0, true) == Some(Lexed(s, EmojiArg(n, name, animated), |s|))
  {
    var s := (if animated then "<a:" else "<:") + name + ":" + NatToString(n) + ">";
    var w := (if animated then 3 else 2) + |name|;
    EmojiShape(name, n, animated);
    EmojiTagAt(s, animated, w, n);
    var m := TagMatch(EmojiTag(name, animated), n, |s|);
    EmojiTagArg(m);
    WholeTagLexes(s, true, m);
  }

  /** Where the parts of a written custom emoji sit. */
  lemma EmojiShape(name: string, n: nat, animated: bool)
    requires forall p :: 0 <= p < |name| ==> IsWordChar(name[p])
    ensures var s := (if animated then "<a:" else "<:") + name + ":" + NatToString(n) + ">";
      var b := if animated then 3 else 2;
      var w := b + |name|;
      w < |s| && s[0] == '<' && s[b - 1] == ':' && (animated ==> s[1] == 'a')
      && (forall p :: b <= p < w ==> IsWordChar(s[p])) && s[w] == ':'
      && s[w + 1..] == NatToString(n) + ">" && s[b..w] == name
  {
    var head := if animated then "<a:" else "<:";
    var t := NatToString(n);
    var s := head + name + ":" + t + ">";
    var b := |head|;
    var w := b + |name|;
    assert s[0] == '<' && s[b - 1] == ':' && (animated ==> s[1] == 'a');
    assert forall p :: b <= p < w ==> IsWordChar(s[p]) by {
      assert forall p :: b <= p < w ==> s[p] == name[p - b];
    }
    assert s[w] == ':';
    assert s[w + 1..] == t + ">";
    assert s[b..w] == name by {
      var hn := head + name;
      assert s == hn + (":" + t + ">");
      assert s[..w] == hn && s[b..w] == s[..w][b..];
      assert hn[b..] == name;
    }
  }


  lemma EmojiTagArg(m: TagMatch)
    requires m.kind.EmojiTag?
    ensures TagArg(m) == EmojiArg(m.id, m.kind.name, m.kind.animated)
  {
  }

  /** A tag that fills the whole string is its one argument. */
  lemma WholeTagLexes(s: string, emoji: bool, m: TagMatch)
    requires s != [] && TagAt(s, 0, emoji) == Some(m) && m.end == |s|
    ensures Lex(s, 0, emoji) == Some(Lexed(s, TagArg(m), |s|))
  {
    TagLexes(s, 0, emoji, m);
    assert s[0..|s|] == s;
  }

  /** An emoji tag laid out by position: `<`, optional `a`, `:`, the name, `:`, the id, `>`. */
  lemma EmojiTagAt(s: string, animated: bool, w: nat, n: nat)
    requires var b := if animated then 3 else 2;
      b <= w < |s| && s[0] == '<' && s[b - 1] == ':' && (animated ==> s[1] == 'a')
      && (forall p :: b <= p < w ==> IsWordChar(s[p])) && s[w] == ':'
      && s[w + 1..] == NatToString(n) + ">"
    ensures TagAt(s, 0, true) == Some(TagMatch(EmojiTag(s[if animated then 3 else 2..w], animated), n, |s|))
  {
    var b := if animated then 3 else 2;
    RunOverWord(s, b, w);
    assert TypeAt(s, 1, true) == Some((EmojiTag(s[b..w], animated), w + 1));
    DigitsThenClose(s, w + 1, n);
    TagOfDigits(s, 0, EmojiTag(s[b..w], animated), w + 1, n, true);
  }

  lemma EmojiUnchunked(name: string, n: nat, animated: bool)
    requires forall p :: 0 <= p < |name| ==> IsWordChar(name[p])
    ensures var s := (if animated then "<a:" else "<:") + name + ":" + NatToString(n) + ">";
      Lex(s, 0, false) == Some(Lexed(s, StringArg(s), |s|))
  {
    var head := if animated then "<a:" else "<:";
    var t := NatToString(n);
    var s := head + name + ":" + t + ">";
    var w := |head| + |name|;
    assert TypeAt(s, 1, false).None?;
    assert TagAt(s, 0, false).None?;
    assert forall p :: 1 <= p < |s| ==> s[p] != '<' && !IsSpace(s[p]) by {
      assert forall p :: |head| <= p < w ==> s[p] == name[p - |head|];
      assert forall p :: w + 1 <= p < w + 1 + |t| ==> s[p] == t[p - w - 1];
      assert forall p :: 0 <= p < |t| ==> IsDigit(t[p]);
    }
    WordToEnd(s, 1, false);
    WordLexes(s, 0, false);
    assert s[0..|s|] == s;
  }

  lemma RunOverWord(s: string, b: nat, w: nat)
    requires b <= w < |s| && (forall p :: b <= p < w ==> IsWordChar(s[p])) && !IsWordChar(s[w])
    ensures Run(s, b, IsWordChar) == w
    decreases w - b
  {
    if b < w {
      RunOverWord(s, b + 1, w);
    }
  }

  /* ---------------- Registry and dispatch ---------------- */

  /** The global `commands` dict: command names to handlers. */
  class CommandTable<H> {
    var commands: map<string, H>

    constructor()
      ensures commands == map[]
    {
      commands := map[];
    }

    /**
     * unsafe_hook_command: a handler that is not a coroutine function, or a
     * name already taken, is an error and leaves the table alone.
     */
    method Hook(name: string, fun: H, isCoroutine: bool) returns (err: Option<string>)
      modifies this
      ensures !isCoroutine ==> err == Some("expected coroutine function") && commands == old(commands)
      ensures isCoroutine && name in old(commands) ==>
        err == Some("command " + name + " already registered") && commands == old(commands)
      ensures isCoroutine && name !in old(commands) ==> err == None && commands == old(commands)[name := fun]
    {
      if !isCoroutine {
        return Some("expected coroutine function");
      }
      if name in commands {
        return Some("command " + name + " already registered");
      }
      commands := commands[name := fun];
      err := None;
    }

    /** unsafe_unhook_command: an unknown name is an error; otherwise the name is removed. */
    method Unhook(name: string) returns (err: Option<string>)
      modifies this
      ensures name !in old(commands) ==> err == Some("command " + name + " is not registered") && commands == old(commands)
      ensures name in old(commands) ==> err == None && commands == old(commands) - {name}
    {
      if name !in commands {
        return Some("command " + name + " is not registered");
      }
      commands := commands - {name};
      err := None;
    }
  }

  /** Registering a fresh name and removing it again gives back the table. */
  lemma HookUnhookRestores<H>(table: map<string, H>, name: string, fun: H)
    requires name !in table
    ensures (table[name := fun]) - {name} == table
    ensures name in table[name := fun] && table[name := fun][name] == fun
  {
    assert forall k :: k in (table[name := fun]) - {name} <==> k in table;
  }

  /**
   * message_find_command: with a non-empty prefix that starts the message,
   * the first argument after it, when it is a string argument, names the
   * command in lower case. The result is that name and the parser
   * position the handler receives.
   */
  function FindCommand<H>(prefix: string, content: string, commands: map<string, H>): (r: Option<(string, nat)>)
    ensures r.Some? ==> prefix != [] && prefix <= content && r.value.0 in commands
  {
    if prefix != [] && prefix <= content then
      var cmdline := LStrip(content[|prefix|..]);
      match Lex(cmdline, 0, false)
      case None => None
      case Some(l) =>
        if IsString(l.kind) && Lower(l.kind.text) in commands then Some((Lower(l.kind.text), l.end)) else None
    else None
  }

  /** A message naming a registered command in any letter case, after the prefix, runs it. */
  lemma FindCommandByName<H>(prefix: string, name: string, commands: map<string, H>)
    requires prefix != [] && name != [] && Lower(name) in commands
    requires forall p :: 0 <= p < |name| ==> IsWordChar(name[p])
    ensures FindCommand(prefix, prefix + name, commands) == Some((Lower(name), |name|))
  {
    var content := prefix + name;
    assert content[..|prefix|] == prefix;
    assert content[|prefix|..] == name;
    assert SkipSpace(name, 0) == 0;
    assert LStrip(name) == name;
    WordReadsWhole(name, false);
    FindCommandOfLexed(prefix, content, commands, Lexed(name, StringArg(name), |name|));
  }

  /** The first argument after the prefix, when a string naming a command, is that command. */
  lemma FindCommandOfLexed<H>(prefix: string, content: string, commands: map<string, H>, l: Lexed)
    requires prefix != [] && prefix <= content && Lex(LStrip(content[|prefix|..]), 0, false) == Some(l)
    requires IsString(l.kind) && Lower(l.kind.text) in commands
    ensures FindCommand(prefix, content, commands) == Some((Lower(l.kind.text), l.end))
  {
  }

  /** A run of word characters is one bare word. */
  lemma WordReadsWhole(w: string, emoji: bool)
    requires w != [] && forall p :: 0 <= p < |w| ==> IsWordChar(w[p])
    ensures Lex(w, 0, emoji) == Some(Lexed(w, StringArg(w), |w|))
  {
    assert forall p :: 0 <= p < |w| ==> !IsSpace(w[p]) && w[p] != '<';
    WordToEnd(w, 0, emoji);
    assert w[0] != '"' && w[0] != '`';
    WordLexes(w, 0, emoji);
    assert w[0..|w|] == w;
  }

  /** Without the prefix, or with an empty one, no command runs. */
  lemma NoPrefixNoCommand<H>(prefix: string, content: string, commands: map<string, H>)
    requires prefix == [] || !(prefix <= content)
    ensures FindCommand(prefix, content, commands).None?
  {
  }
}
