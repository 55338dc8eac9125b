/**
 * plugins/rolereactions.py: reacting to a configured message with an emoji
 * grants the role mapped to that emoji. The configuration maps a message id
 * to the guild and channel of the message and to its emoji-to-role map
 * (emoji keys are custom-emoji ids or unicode emoji names, roles are role
 * ids, all as strings). The subcommands new/delete/add/remove edit it; the
 * reply each sends is returned as a value.
 */
module RoleReactions {
  import opened Wrappers
  import opened Text
  import Commands

  /** MessageReactions */
  datatype Reactions = Reactions(guild: string, channel: string, reacts: map<string, string>)

  type Conf = map<string, Reactions>

  /* ---------------- Message links ---------------- */

  /** format_msg */
  function FormatMsg(guild: string, channel: string, msg: string): string
  {
    "https://discord.com/channels/" + guild + "/" + channel + "/" + msg
  }

  /** retrieve_msg_link: the link built from the stored guild and channel. */
  function RetrieveMsgLink(conf: Conf, msg: string): (r: string)
    requires msg in conf
    ensures r == FormatMsg(conf[msg].guild, conf[msg].channel, msg)
  {
    FormatMsg(conf[msg].guild, conf[msg].channel, msg)
  }

  /** The end of the run of characters satisfying \d from k. */
  function DigitEnd(s: string, k: nat): (j: nat)
    requires k <= |s|
    ensures k <= j <= |s| && (j == |s| || !IsDigit(s[j]))
    ensures forall p {:trigger IsDigit(s[p])} :: k <= p < j ==> IsDigit(s[p])
    decreases |s| - k
  {
    if k < |s| && IsDigit(s[k]) then DigitEnd(s, k + 1) else k
  }

  /** The end of the run of word characters (\w*) from k. */
  function WordEnd(s: string, k: nat): (j: nat)
    requires k <= |s|
    ensures k <= j <= |s|
    decreases |s| - k
  {
    if k < |s| && IsWordChar(s[k]) then WordEnd(s, k + 1) else k
  }

  /** `(\d+)/(\d+)/(\d+)` at k: the three ids. */
  function IdsAt(t: string, k: nat): Option<(string, string, string)>
    requires k <= |t|
  {
    var a := DigitEnd(t, k);
    if a == k || a == |t| || t[a] != '/' then None
    else
      var b := DigitEnd(t, a + 1);
      if b == a + 1 || b == |t| || t[b] != '/' then None
      else
        var c := DigitEnd(t, b + 1);
        if c == b + 1 then None else Some((t[k..a], t[a + 1..b], t[b + 1..c]))
  }

  /** `discord.com` at k, its '.' standing for any character but a line break. */
  predicate DiscordAt(t: string, k: nat)
  {
    k + 11 <= |t| && t[k..k + 7] == "discord" && t[k + 7] != '\n' && t[k + 8..k + 11] == "com"
  }

  /** `discordapp.com` at k, its '.' standing for any character but a line break. */
  predicate DiscordAppAt(t: string, k: nat)
  {
    k + 14 <= |t| && t[k..k + 10] == "discordapp" && t[k + 10] != '\n' && t[k + 11..k + 14] == "com"
  }

  /** `(?:discord.com|discordapp.com)/channels/(\d+)/(\d+)/(\d+)` at k. */
  function HostAt(t: string, k: nat): Option<(string, string, string)>
    requires k <= |t|
  {
    var h := if DiscordAt(t, k) then k + 11 else if DiscordAppAt(t, k) then k + 14 else |t| + 1;
    if h + 10 <= |t| && t[h..h + 10] == "/channels/" then IdsAt(t, h + 10) else None
  }

  /**
   * msg_id_re.match: `https?://`, then an optional `\w*\.` (tried first and
   * given up when the rest does not match after it), then the host and the
   * three ids.
   */
  function LinkMatch(t: string): Option<(string, string, string)>
  {
    var k := if 5 <= |t| && t[4] == 's' then 8 else 7;
    if !(k <= |t| && t[..4] == "http" && t[k - 3..k] == "://") then None
    else
      var w := WordEnd(t, k);
      if w < |t| && t[w] == '.' && HostAt(t, w + 1).Some? then HostAt(t, w + 1)
      else HostAt(t, k)
  }

  /** A run of digits followed by a non-digit (or the end) is read as a whole. */
  lemma {:induction false} DigitRun(t: string, k: nat, d: string)
    requires AllDigits(d) && TextAt(t, k, d)
    requires k + |d| == |t| || !IsDigit(t[k + |d|])
    ensures DigitEnd(t, k) == k + |d|
    decreases |d|
  {
    if d != [] {
      assert IsDigit(d[0]);
      assert AllDigits(d[1..]) by {
        forall i | 0 <= i < |d[1..]|
          ensures IsDigit(d[1..][i])
        {
          assert d[1..][i] == d[i + 1];
        }
      }
      DigitRun(t, k + 1, d[1..]);
    }
  }

  /** The id part, assembled from where its runs end. */
  lemma IdsAtOf(t: string, k: nat, a: nat, b: nat, c: nat)
    requires k < a < b - 1 && b < c - 1 && c <= |t|
    requires DigitEnd(t, k) == a && t[a] == '/' && DigitEnd(t, a + 1) == b && t[b] == '/' && DigitEnd(t, b + 1) == c
    ensures IdsAt(t, k) == Some((t[k..a], t[a + 1..b], t[b + 1..c]))
  {
  }

  /** Three digit runs separated by '/' and ending the text are the three ids. */
  lemma IdsOfParts(t: string, k: nat, g: string, c: string, m: string)
    requires |g| > 0 && |c| > 0 && |m| > 0 && AllDigits(g) && AllDigits(c) && AllDigits(m)
    requires k + |g| + |c| + |m| + 2 == |t|
    requires TextAt(t, k, g) && t[k + |g|] == '/' && TextAt(t, k + |g| + 1, c)
    requires t[k + |g| + 1 + |c|] == '/' && TextAt(t, k + |g| + |c| + 2, m)
    ensures IdsAt(t, k) == Some((g, c, m))
  {
    var a := k + |g|;
    var b := a + 1 + |c|;
    DigitRun(t, k, g);
    DigitRun(t, a + 1, c);
    DigitRun(t, b + 1, m);
    SliceOfTextAt(t, k, g);
    SliceOfTextAt(t, a + 1, c);
    SliceOfTextAt(t, b + 1, m);
    IdsAtOf(t, k, a, b, |t|);
  }

  const LinkPrefix: string := "https://discord.com/channels/"

  /** What the link prefix puts where: the scheme. */
  lemma PrefixScheme(t: string)
    requires 29 <= |t| && t[..29] == LinkPrefix
    ensures t[..4] == "http" && t[4] == 's' && t[5..8] == "://" && t[15] == '.' && t[16] == 'c'
  {
    assert t[0] == t[..29][0] && t[1] == t[..29][1] && t[2] == t[..29][2] && t[3] == t[..29][3];
    assert t[4] == t[..29][4] && t[5] == t[..29][5] && t[6] == t[..29][6] && t[7] == t[..29][7];
    assert t[15] == t[..29][15] && t[16] == t[..29][16];
    assert t[..4] == "http";
    assert t[5..8] == "://";
  }

  /** What the link prefix puts where: the host and the path. */
  lemma PrefixHost(t: string)
    requires 29 <= |t| && t[..29] == LinkPrefix
    ensures DiscordAt(t, 8) && t[19..29] == "/channels/"
  {
    assert t[8] == t[..29][8] && t[9] == t[..29][9] && t[10] == t[..29][10] && t[11] == t[..29][11] && t[12] == t[..29][12] && t[13] == t[..29][13] && t[14] == t[..29][14];
    assert t[15] == t[..29][15] && t[16] == t[..29][16] && t[17] == t[..29][17] && t[18] == t[..29][18];
    assert t[8..15] == "discord";
    assert t[16..19] == "com";
    assert t[19..29] == "/channels/";
  }

  lemma PrefixWord(t: string)
    requires 29 <= |t| && t[..29] == LinkPrefix
    ensures WordEnd(t, 8) == 15
  {
    assert t[8] == t[..29][8] && t[9] == t[..29][9] && t[10] == t[..29][10] && t[11] == t[..29][11];
    assert t[12] == t[..29][12] && t[13] == t[..29][13] && t[14] == t[..29][14] && t[15] == t[..29][15];
    assert WordEnd(t, 15) == 15;
    assert WordEnd(t, 14) == 15;
    assert WordEnd(t, 13) == 15;
    assert WordEnd(t, 12) == 15;
    assert WordEnd(t, 11) == 15;
    assert WordEnd(t, 10) == 15;
    assert WordEnd(t, 9) == 15;
  }

  /** Behind the link prefix, the ids are what is matched. */
  lemma LinkMatchOfPrefix(t: string)
    requires 29 <= |t| && t[..29] == LinkPrefix
    ensures LinkMatch(t) == IdsAt(t, 29)
  {
    PrefixScheme(t);
    PrefixHost(t);
    PrefixWord(t);
    assert t[16..23][0] == 'c' && t[16..26][0] == 'c';
    assert !DiscordAt(t, 16) && !DiscordAppAt(t, 16);
    assert HostAt(t, 16).None?;
    assert HostAt(t, 8) == IdsAt(t, 29);
  }

  /** Where the parts of a link sit. */
  lemma LinkParts(g: string, c: string, m: string)
    ensures var t := FormatMsg(g, c, m);
      |t| == 29 + |g| + |c| + |m| + 2 && t[..29] == LinkPrefix
      && TextAt(t, 29, g) && t[29 + |g|] == '/' && TextAt(t, 29 + |g| + 1, c)
      && t[29 + |g| + 1 + |c|] == '/' && TextAt(t, 29 + |g| + |c| + 2, m)
  {
    var t := FormatMsg(g, c, m);
    var x1, x2 := LinkPrefix + g + "/", LinkPrefix + g + "/" + c + "/";
    assert t == LinkPrefix + g + ("/" + c + "/" + m);
    TextAtMiddle(LinkPrefix, g, "/" + c + "/" + m);
    assert t == x1 + c + ("/" + m);
    TextAtMiddle(x1, c, "/" + m);
    assert t == x2 + m;
    TextAtSuffix(x2, m);
  }

  /** A link built by format_msg is read back by msg_id_re as the same three ids. */
  lemma LinkOfFormatMsg(g: string, c: string, m: string)
    requires |g| > 0 && |c| > 0 && |m| > 0 && AllDigits(g) && AllDigits(c) && AllDigits(m)
    ensures LinkMatch(FormatMsg(g, c, m)) == Some((g, c, m))
  {
    var t := FormatMsg(g, c, m);
    LinkParts(g, c, m);
    IdsOfParts(t, 29, g, c, m);
    LinkMatchOfPrefix(t);
  }

  /** A link to a message with numeric ids is read back as the same ids. */
  lemma LinkOfIds(guild: nat, channel: nat, msg: nat)
    ensures LinkMatch(FormatMsg(NatToString(guild), NatToString(channel), NatToString(msg)))
      == Some((NatToString(guild), NatToString(channel), NatToString(msg)))
  {
    LinkOfFormatMsg(NatToString(guild), NatToString(channel), NatToString(msg));
  }

  /** The message a command replies to, if any. */
  datatype Reference = Reference(guild: Option<nat>, channel: Option<nat>, message: Option<nat>)

  /**
   * get_msg_ref for a command sent as a reply: accepted only with a guild
   * id and a message id, and only in the channel the command was sent in.
   */
  function RefOfReply(r: Reference, channel: nat): (res: Option<(string, string, string)>)
    ensures res.Some? <==> r.guild.Some? && r.message.Some? && r.channel == Some(channel)
    ensures res.Some? ==> res.value == (NatToString(r.guild.value), NatToString(channel), NatToString(r.message.value))
  {
    if r.guild.None? || r.message.None? || r.channel != Some(channel) then None
    else Some((NatToString(r.guild.value), NatToString(r.channel.value), NatToString(r.message.value)))
  }

  /** get_msg_ref: from the reply reference, else from a message link in the next argument. */
  method GetMsgRef(reference: Option<Reference>, channel: nat, args: Commands.ArgParser) returns (r: Option<(string, string, string)>)
    requires args.Valid()
    modifies args
    ensures args.Valid() && args.cmdline == old(args.cmdline)
    ensures reference.Some? ==> r == RefOfReply(reference.value, channel) && args.pos == old(args.pos)
    ensures reference.None? ==>
      var l := Commands.Lex(args.cmdline, old(args.pos), false);
      r == if l.Some? && Commands.IsString(l.value.kind) then LinkMatch(l.value.kind.text) else None
  {
    if reference.Some? {
      return RefOfReply(reference.value, channel);
    }
    var arg := args.NextArg(false);
    if arg.None? || !Commands.IsString(arg.value.kind) {
      return None;
    }
    r := LinkMatch(arg.value.kind.text);
  }

  /* ---------------- Subcommands ---------------- */

  /** The message each subcommand sends. */
  datatype Reply =
    | AlreadyExist(link: string)
    | Created(link: string)
    | DoNotExist(link: string)
    | Deleted(link: string)
    | EmojiTaken(emoji: string, role: string)
    | NowSets(emoji: string, link: string, role: string)
    | EmojiMissing(emoji: string, link: string)
    | NoLongerSets(emoji: string, link: string)

  /** rolereact new: refused when the message is configured, else an empty emoji map. */
  function NewResult(conf: Conf, guild: string, channel: string, msg: string): (Conf, Reply)
  {
    if msg in conf then (conf, AlreadyExist(RetrieveMsgLink(conf, msg)))
    else (conf[msg := Reactions(guild, channel, map[])], Created(FormatMsg(guild, channel, msg)))
  }

  /** rolereact delete: refused when the message is not configured, else the entry is dropped. */
  function DeleteResult(conf: Conf, guild: string, channel: string, msg: string): (Conf, Reply)
  {
    if msg !in conf then (conf, DoNotExist(FormatMsg(guild, channel, msg)))
    else (conf - {msg}, Deleted(RetrieveMsgLink(conf, msg)))
  }

  /**
   * rolereact add: refused when the message is not configured or the emoji
   * is mapped; a role that cannot be resolved ends the command silently.
   */
  function AddResult(conf: Conf, guild: string, channel: string, msg: string, emoji: string, role: Option<string>): (Conf, Option<Reply>)
  {
    if msg !in conf then (conf, Some(DoNotExist(FormatMsg(guild, channel, msg))))
    else if emoji in conf[msg].reacts then (conf, Some(EmojiTaken(emoji, conf[msg].reacts[emoji])))
    else if role.None? then (conf, None)
    else
      var c := conf[msg := conf[msg].(reacts := conf[msg].reacts[emoji := role.value])];
      (c, Some(NowSets(emoji, RetrieveMsgLink(c, msg), role.value)))
  }

  /** rolereact remove: refused when the message is not configured or the emoji is unmapped. */
  function RemoveResult(conf: Conf, guild: string, channel: string, msg: string, emoji: string): (Conf, Reply)
  {
    if msg !in conf then (conf, DoNotExist(FormatMsg(guild, channel, msg)))
    else if emoji !in conf[msg].reacts then (conf, EmojiMissing(emoji, RetrieveMsgLink(conf, msg)))
    else
      var c := conf[msg := conf[msg].(reacts := conf[msg].reacts - {emoji})];
      (c, NoLongerSets(emoji, RetrieveMsgLink(c, msg)))
  }

  /** new stores the guild and channel given and no emoji; a configured message is left alone. */
  lemma NewEffect(conf: Conf, guild: string, channel: string, msg: string)
    ensures var (c, reply) := NewResult(conf, guild, channel, msg);
      msg in c && (reply.Created? <==> msg !in conf)
      && (reply.Created? ==> c[msg] == Reactions(guild, channel, map[]) && reply.link == FormatMsg(guild, channel, msg))
      && (reply.AlreadyExist? ==> c == conf)
      && forall n :: n != msg ==> (n in c <==> n in conf) && (n in c ==> c[n] == conf[n])
  {
  }

  /** delete drops exactly that message's entry, and only when there is one. */
  lemma DeleteEffect(conf: Conf, guild: string, channel: string, msg: string)
    ensures var (c, reply) := DeleteResult(conf, guild, channel, msg);
      msg !in c && (reply.Deleted? <==> msg in conf)
      && forall n :: n != msg ==> (n in c <==> n in conf) && (n in c ==> c[n] == conf[n])
  {
  }

  /** add maps the emoji to the role and leaves every other mapping and entry unchanged. */
  lemma AddEffect(conf: Conf, guild: string, channel: string, msg: string, emoji: string, role: string)
    requires msg in conf && emoji !in conf[msg].reacts
    ensures var (c, reply) := AddResult(conf, guild, channel, msg, emoji, Some(role));
      msg in c && c[msg].reacts == conf[msg].reacts[emoji := role]
      && c[msg].guild == conf[msg].guild && c[msg].channel == conf[msg].channel
      && reply == Some(NowSets(emoji, RetrieveMsgLink(conf, msg), role))
      && forall n :: n != msg ==> (n in c <==> n in conf) && (n in c ==> c[n] == conf[n])
  {
  }

  /** add never overwrites a mapping: a mapped emoji, or an unresolved role, changes nothing. */
  lemma AddNeverOverwrites(conf: Conf, guild: string, channel: string, msg: string, emoji: string, role: Option<string>)
    requires msg !in conf || emoji in conf[msg].reacts || role.None?
    ensures AddResult(conf, guild, channel, msg, emoji, role).0 == conf
  {
  }

  /** remove deletes only that emoji's mapping. */
  lemma RemoveEffect(conf: Conf, guild: string, channel: string, msg: string, emoji: string)
    requires msg in conf
    ensures var (c, reply) := RemoveResult(conf, guild, channel, msg, emoji);
      msg in c && emoji !in c[msg].reacts
      && (reply.NoLongerSets? <==> emoji in conf[msg].reacts)
      && (forall e :: e != emoji ==>
            (e in c[msg].reacts <==> e in conf[msg].reacts) && (e in c[msg].reacts ==> c[msg].reacts[e] == conf[msg].reacts[e]))
      && forall n :: n != msg ==> (n in c <==> n in conf) && (n in c ==> c[n] == conf[n])
  {
  }

  /** Adding a mapping and removing it again restores the configuration. */
  lemma AddThenRemove(conf: Conf, guild: string, channel: string, msg: string, emoji: string, role: string)
    requires msg in conf && emoji !in conf[msg].reacts
    ensures RemoveResult(AddResult(conf, guild, channel, msg, emoji, Some(role)).0, guild, channel, msg, emoji).0 == conf
  {
    var c := AddResult(conf, guild, channel, msg, emoji, Some(role)).0;
    assert c[msg].reacts - {emoji} == conf[msg].reacts;
    assert conf[msg].(reacts := conf[msg].reacts) == conf[msg];
  }

  /** The configuration of every command, edited in place. */
  class Store {
    var conf: Conf

    constructor (conf: Conf)
      ensures this.conf == conf
    {
      this.conf := conf;
    }

    method New(guild: string, channel: string, msg: string) returns (reply: Reply)
      modifies this
      ensures (conf, reply) == NewResult(old(conf), guild, channel, msg)
    {
      if msg in conf {
        return AlreadyExist(RetrieveMsgLink(conf, msg));
      }
      conf := conf[msg := Reactions(guild, channel, map[])];
      reply := Created(FormatMsg(guild, channel, msg));
    }

    method Delete(guild: string, channel: string, msg: string) returns (reply: Reply)
      modifies this
      ensures (conf, reply) == DeleteResult(old(conf), guild, channel, msg)
    {
      if msg !in conf {
        return DoNotExist(FormatMsg(guild, channel, msg));
      }
      reply := Deleted(RetrieveMsgLink(conf, msg));
      conf := conf - {msg};
    }

    method Add(guild: string, channel: string, msg: string, emoji: string, role: Option<string>) returns (reply: Option<Reply>)
      modifies this
      ensures (conf, reply) == AddResult(old(conf), guild, channel, msg, emoji, role)
    {
      if msg !in conf {
        return Some(DoNotExist(FormatMsg(guild, channel, msg)));
      }
      var obj := conf[msg];
      if emoji in obj.reacts {
        return Some(EmojiTaken(emoji, obj.reacts[emoji]));
      }
      if role.None? {
        return None;
      }
      conf := conf[msg := obj.(reacts := obj.reacts[emoji := role.value])];
      reply := Some(NowSets(emoji, RetrieveMsgLink(conf, msg), role.value));
    }

    method Remove(guild: string, channel: string, msg: string, emoji: string) returns (reply: Reply)
      modifies this
      ensures (conf, reply) == RemoveResult(old(conf), guild, channel, msg, emoji)
    {
      if msg !in conf {
        return DoNotExist(FormatMsg(guild, channel, msg));
      }
      var obj := conf[msg];
      if emoji !in obj.reacts {
        return EmojiMissing(emoji, RetrieveMsgLink(conf, msg));
      }
      conf := conf[msg := obj.(reacts := obj.reacts - {emoji})];
      reply := NoLongerSets(emoji, RetrieveMsgLink(conf, msg));
    }
  }

  /* ---------------- Reactions ---------------- */

  /** The emoji of a reaction event: a custom emoji has an id, a unicode one only a name. */
  datatype Emoji = Emoji(id: Option<nat>, name: Option<string>)

  /** The configuration key of an emoji: its id as a string, else its name. */
  function EmojiKey(e: Emoji): Option<string>
  {
    if e.id.Some? then Some(NatToString(e.id.value)) else e.name
  }

  /** discord.utils.find over the guild's roles: the first role whose id string is text. */
  function FindRole(roles: seq<nat>, text: string): (r: Option<nat>)
    ensures r.Some? ==> r.value in roles && NatToString(r.value) == text
    ensures r.None? ==> forall i :: 0 <= i < |roles| ==> NatToString(roles[i]) != text
  {
    if roles == [] then None
    else if NatToString(roles[0]) == text then Some(roles[0])
    else FindRole(roles[1..], text)
  }

  /** get_payload_role */
  function PayloadRole(conf: Conf, roles: seq<nat>, msg: nat, e: Emoji): Option<nat>
  {
    var m := NatToString(msg);
    if m !in conf then None
    else match EmojiKey(e)
      case None => None
      case Some(k) => if k !in conf[m].reacts then None else FindRole(roles, conf[m].reacts[k])
  }

  /**
   * A reaction grants a role only on a configured message, for a mapped
   * emoji, and the role is a guild role whose id is the one mapped.
   */
  lemma PayloadRoleMapped(conf: Conf, roles: seq<nat>, msg: nat, e: Emoji)
    ensures var r := PayloadRole(conf, roles, msg, e);
      r.Some? ==>
        var m := NatToString(msg);
        m in conf && EmojiKey(e).Some? && EmojiKey(e).value in conf[m].reacts
        && r.value in roles && NatToString(r.value) == conf[m].reacts[EmojiKey(e).value]
    ensures NatToString(msg) !in conf ==> PayloadRole(conf, roles, msg, e).None?
  {
  }

  /** After rolereact add, reacting with that custom emoji grants that role. */
  lemma AddThenReact(conf: Conf, guild: string, channel: string, msg: nat, emoji: nat, role: nat, roles: seq<nat>, name: Option<string>)
    requires NatToString(msg) in conf && NatToString(emoji) !in conf[NatToString(msg)].reacts
    requires role in roles
    ensures var c := AddResult(conf, guild, channel, NatToString(msg), NatToString(emoji), Some(NatToString(role))).0;
      var r := PayloadRole(c, roles, msg, Emoji(Some(emoji), name));
      r.Some? && NatToString(r.value) == NatToString(role)
  {
    var c := AddResult(conf, guild, channel, NatToString(msg), NatToString(emoji), Some(NatToString(role))).0;
    assert c[NatToString(msg)].reacts[NatToString(emoji)] == NatToString(role);
    var i :| 0 <= i < |roles| && roles[i] == role;
  }
}
