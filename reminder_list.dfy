/**
 * plugins/reminders.py: the per-user reminder lists. Each user's list is kept
 * sorted by due time (a stable sort after every insertion), is shown with
 * 1-based numbers, and loses entries by number (`reminder remove n`) or when
 * a reminder fires (the first equal entry).
 *
 * A reminder stores its due time as the decimal text of an integer; here the
 * integer itself is stored (Text.ParseIntOfIntToString shows that the text
 * reads back as that integer). The current time and the UTC rendering of a
 * time are parameters.
 */
module ReminderList {
  import opened Wrappers
  import opened Text
  import Commands
  import DiscordUtil
  import Reminders

  datatype Reminder = Reminder(guild: string, channel: string, msg: string, time: int, contents: string)

  /* ---------------- Formatting ---------------- */

  /** format_msg: the jump link of a message. */
  function FormatMsg(guild: string, channel: string, msg: string): string
  {
    "https://discord.com/channels/" + guild + "/" + channel + "/" + msg
  }

  /** The "<t:time:F>" timestamp tag at the end of every formatted reminder. */
  function DueTag(r: Reminder): string
  {
    " for <t:" + IntToString(r.time) + ":F>"
  }

  /** format_reminder: the contents as inline code, then the link, then the due time. */
  function FormatReminder(r: Reminder): string
  {
    var link := FormatMsg(r.guild, r.channel, r.msg);
    if r.contents == [] then link + DueTag(r)
    else DiscordUtil.InlineStr(r.contents) + " (" + link + ")" + DueTag(r)
  }

  /**
   * The contents part is left out exactly when the contents are empty: the
   * text then starts with the link, otherwise with the inline-code backtick.
   */
  lemma FormatOmitsEmptyContents(r: Reminder)
    ensures r.contents == [] <==> FormatReminder(r)[0] == 'h'
    ensures r.contents != [] <==> FormatReminder(r)[0] == '`'
  {
    var link := FormatMsg(r.guild, r.channel, r.msg);
    assert link[0] == 'h';
    if r.contents != [] {
      var i := DiscordUtil.InlineStr(r.contents);
      assert i[0] == '`';
      assert FormatReminder(r)[0] == i[0];
    }
  }

  /** Both forms end with the due-time tag. */
  lemma FormatEndsWithDueTag(r: Reminder)
    ensures var s := FormatReminder(r); |DueTag(r)| <= |s| && s[|s| - |DueTag(r)|..] == DueTag(r)
  {
    var link := FormatMsg(r.guild, r.channel, r.msg);
    var head := if r.contents == [] then link else DiscordUtil.InlineStr(r.contents) + " (" + link + ")";
    assert FormatReminder(r) == head + DueTag(r);
  }

  /** format_text_reminder: the plain-text form used in the attached list file. */
  function FormatTextReminder(r: Reminder, utc: int -> string): string
  {
    var link := FormatMsg(r.guild, r.channel, r.msg);
    if r.contents == [] then link + " for " + utc(r.time)
    else "\"\"\"" + r.contents + "\"\"\" (" + link + ") for " + utc(r.time)
  }

  /* ---------------- Sorting by due time ---------------- */

  predicate Sorted(xs: seq<Reminder>)
  {
    forall i, j :: 0 <= i < j < |xs| ==> xs[i].time <= xs[j].time
  }

  /** Every entry is due at t or later. */
  predicate DueFrom(xs: seq<Reminder>, t: int)
  {
    forall i :: 0 <= i < |xs| ==> t <= xs[i].time
  }

  /** x placed after every entry due no later than it (the stable insertion step). */
  function Insert(x: Reminder, xs: seq<Reminder>): (r: seq<Reminder>)
    ensures |r| == |xs| + 1
  {
    if xs == [] then [x]
    else if x.time < xs[0].time then [x] + xs
    else [xs[0]] + Insert(x, xs[1..])
  }

  lemma {:induction false} InsertMultiset(x: Reminder, xs: seq<Reminder>)
    ensures multiset(Insert(x, xs)) == multiset(xs) + multiset{x}
    decreases |xs|
  {
    if xs != [] && x.time >= xs[0].time {
      InsertMultiset(x, xs[1..]);
      assert xs == [xs[0]] + xs[1..];
    }
  }

  lemma {:induction false} InsertDueFrom(x: Reminder, xs: seq<Reminder>, t: int)
    requires DueFrom(xs, t) && t <= x.time
    ensures DueFrom(Insert(x, xs), t)
    decreases |xs|
  {
    if xs != [] && x.time >= xs[0].time {
      InsertDueFrom(x, xs[1..], t);
      var r := Insert(x, xs);
      assert forall i :: 1 <= i < |r| ==> r[i] == Insert(x, xs[1..])[i - 1];
    }
  }

  /** A list is sorted when its head is due no later than a sorted tail. */
  lemma SortedCons(y: Reminder, ys: seq<Reminder>)
    requires DueFrom(ys, y.time) && Sorted(ys)
    ensures Sorted([y] + ys)
  {
    var r := [y] + ys;
    forall i, j | 0 <= i < j < |r|
      ensures r[i].time <= r[j].time
    {
      assert r[j] == ys[j - 1];
      if i > 0 {
        assert r[i] == ys[i - 1];
      }
    }
  }

  lemma {:induction false} InsertSorted(x: Reminder, xs: seq<Reminder>)
    requires Sorted(xs)
    ensures Sorted(Insert(x, xs))
    decreases |xs|
  {
    if xs == [] {
    } else if x.time < xs[0].time {
      assert DueFrom(xs, x.time);
      SortedCons(x, xs);
    } else {
      assert Sorted(xs[1..]) && DueFrom(xs[1..], xs[0].time);
      InsertSorted(x, xs[1..]);
      InsertDueFrom(x, xs[1..], xs[0].time);
      SortedCons(xs[0], Insert(x, xs[1..]));
    }
  }

  /** list.sort(key = time): a stable sort, here as insertion sort. */
  function SortByTime(xs: seq<Reminder>): (r: seq<Reminder>)
    ensures |r| == |xs|
  {
    if xs == [] then [] else Insert(xs[|xs| - 1], SortByTime(xs[..|xs| - 1]))
  }

  /** The sort returns a sorted list... */
  lemma {:induction false} SortSorts(xs: seq<Reminder>)
    ensures Sorted(SortByTime(xs))
    decreases |xs|
  {
    if xs != [] {
      SortSorts(xs[..|xs| - 1]);
      InsertSorted(xs[|xs| - 1], SortByTime(xs[..|xs| - 1]));
    }
  }

  /** ...that is a permutation of its input. */
  lemma {:induction false} SortPermutes(xs: seq<Reminder>)
    ensures multiset(SortByTime(xs)) == multiset(xs)
    decreases |xs|
  {
    if xs != [] {
      var init, last := xs[..|xs| - 1], xs[|xs| - 1];
      SortPermutes(init);
      InsertMultiset(last, SortByTime(init));
      assert xs == init + [last];
    }
  }

  /** The entries due at time t, in list order. */
  function DueAt(xs: seq<Reminder>, t: int): seq<Reminder>
  {
    if xs == [] then []
    else (if xs[0].time == t then [xs[0]] else []) + DueAt(xs[1..], t)
  }

  lemma {:induction false} DueAtAppend(a: seq<Reminder>, b: seq<Reminder>, t: int)
    ensures DueAt(a + b, t) == DueAt(a, t) + DueAt(b, t)
    decreases |a|
  {
    if a != [] {
      var h := if a[0].time == t then [a[0]] else [];
      assert (a + b)[0] == a[0] && (a + b)[1..] == a[1..] + b;
      assert DueAt(a + b, t) == h + DueAt(a[1..] + b, t);
      DueAtAppend(a[1..], b, t);
      assert DueAt(a, t) == h + DueAt(a[1..], t);
    } else {
      assert a + b == b;
    }
  }

  lemma {:induction false} DueAtNone(xs: seq<Reminder>, t: int)
    requires forall i :: 0 <= i < |xs| ==> t < xs[i].time
    ensures DueAt(xs, t) == []
    decreases |xs|
  {
    if xs != [] {
      DueAtNone(xs[1..], t);
    }
  }

  lemma DueAtSnoc(xs: seq<Reminder>, x: Reminder, t: int)
    requires xs != [] && x == xs[|xs| - 1]
    ensures DueAt(xs, t) == DueAt(xs[..|xs| - 1], t) + (if x.time == t then [x] else [])
  {
    assert xs == xs[..|xs| - 1] + [x];
    DueAtAppend(xs[..|xs| - 1], [x], t);
    assert DueAt([x], t) == (if x.time == t then [x] else []) + DueAt([], t);
  }

  /** Inserting into a sorted list puts x after the entries due at the same time. */
  lemma {:induction false} DueAtInsert(x: Reminder, xs: seq<Reminder>, t: int)
    requires Sorted(xs)
    ensures DueAt(Insert(x, xs), t) == DueAt(xs, t) + (if x.time == t then [x] else [])
    decreases |xs|
  {
    if xs == [] {
      DueAtCons(x, [], t);
    } else if x.time < xs[0].time {
      DueAtInsertFront(x, xs, t);
    } else {
      assert Sorted(xs[1..]);
      DueAtInsert(x, xs[1..], t);
      DueAtInsertBehind(x, xs, t);
    }
  }

  /** x due no earlier than the head goes behind it, into the tail. */
  lemma DueAtInsertBehind(x: Reminder, xs: seq<Reminder>, t: int)
    requires xs != [] && xs[0].time <= x.time
    requires DueAt(Insert(x, xs[1..]), t) == DueAt(xs[1..], t) + (if x.time == t then [x] else [])
    ensures DueAt(Insert(x, xs), t) == DueAt(xs, t) + (if x.time == t then [x] else [])
  {
    var r := Insert(x, xs);
    assert r[0] == xs[0] && r[1..] == Insert(x, xs[1..]);
    var hd := if xs[0].time == t then [xs[0]] else [];
    var tail, last := DueAt(xs[1..], t), if x.time == t then [x] else [];
    assert DueAt(r, t) == hd + (tail + last);
    assert DueAt(xs, t) == hd + tail;
    assert hd + (tail + last) == (hd + tail) + last;
  }

  /** x due before the head of a sorted list goes in front. */
  lemma DueAtInsertFront(x: Reminder, xs: seq<Reminder>, t: int)
    requires Sorted(xs) && xs != [] && x.time < xs[0].time
    ensures DueAt(Insert(x, xs), t) == DueAt(xs, t) + (if x.time == t then [x] else [])
  {
    DueAtCons(x, xs, t);
    if x.time == t {
      assert forall i :: 0 <= i < |xs| ==> xs[0].time <= xs[i].time;
      DueAtNone(xs, t);
    }
  }

  lemma DueAtCons(h: Reminder, rest: seq<Reminder>, t: int)
    ensures DueAt([h] + rest, t) == (if h.time == t then [h] else []) + DueAt(rest, t)
  {
    assert ([h] + rest)[0] == h && ([h] + rest)[1..] == rest;
  }

  /** The sort is stable: entries due at the same time keep their relative order. */
  lemma {:induction false} SortIsStable(xs: seq<Reminder>, t: int)
    ensures DueAt(SortByTime(xs), t) == DueAt(xs, t)
    decreases |xs|
  {
    if xs != [] {
      var init, last := xs[..|xs| - 1], xs[|xs| - 1];
      SortIsStable(init, t);
      SortSorts(init);
      DueAtInsert(last, SortByTime(init), t);
      DueAtSnoc(xs, last, t);
    }
  }

  /** An entry due no earlier than everything in a sorted list goes at its end. */
  lemma {:induction false} InsertAtEnd(x: Reminder, xs: seq<Reminder>)
    requires forall i :: 0 <= i < |xs| ==> xs[i].time <= x.time
    ensures Insert(x, xs) == xs + [x]
    decreases |xs|
  {
    if xs != [] {
      InsertAtEnd(x, xs[1..]);
      assert xs == [xs[0]] + xs[1..];
    }
  }

  /** Sorting a sorted list leaves it as it is. */
  lemma {:induction false} SortOfSorted(xs: seq<Reminder>)
    requires Sorted(xs)
    ensures SortByTime(xs) == xs
    decreases |xs|
  {
    if xs != [] {
      var init, last := xs[..|xs| - 1], xs[|xs| - 1];
      SortOfSorted(init);
      InsertAtEnd(last, init);
      assert init + [last] == xs;
    }
  }

  /**
   * What `remindme` stores: appending to a sorted list and sorting again is
   * inserting the new reminder after every entry due no later than it.
   */
  lemma SortAfterAppend(xs: seq<Reminder>, x: Reminder)
    requires Sorted(xs)
    ensures SortByTime(xs + [x]) == Insert(x, xs)
  {
    assert (xs + [x])[..|xs|] == xs;
    SortOfSorted(xs);
  }

  /* ---------------- Removal ---------------- */

  /** del xs[i] */
  function RemoveAt(xs: seq<Reminder>, i: nat): (r: seq<Reminder>)
    requires i < |xs|
    ensures |r| == |xs| - 1
    ensures forall j :: 0 <= j < |r| ==> r[j] == (if j < i then xs[j] else xs[j + 1])
  {
    xs[..i] + xs[i + 1..]
  }

  /** Removing one entry from a sorted list keeps it sorted. */
  lemma RemoveAtSorted(xs: seq<Reminder>, i: nat)
    requires i < |xs| && Sorted(xs)
    ensures Sorted(RemoveAt(xs, i))
  {
    var r := RemoveAt(xs, i);
    forall a, b | 0 <= a < b < |r|
      ensures r[a].time <= r[b].time
    {
      var a' := if a < i then a else a + 1;
      var b' := if b < i then b else b + 1;
      assert r[a] == xs[a'] && r[b] == xs[b'];
    }
  }

  /** Removing an entry loses that entry and nothing else. */
  lemma RemoveAtMultiset(xs: seq<Reminder>, i: nat)
    requires i < |xs|
    ensures multiset(RemoveAt(xs, i)) == multiset(xs) - multiset{xs[i]}
  {
    assert xs == xs[..i] + [xs[i]] + xs[i + 1..];
  }

  /** The index of the first entry equal to x (list.index). */
  function FirstIndex(xs: seq<Reminder>, x: Reminder): (r: Option<nat>)
    ensures r.None? <==> x !in xs
    ensures r.Some? ==> r.value < |xs| && xs[r.value] == x && x !in xs[..r.value]
  {
    if xs == [] then None
    else if xs[0] == x then Some(0)
    else
      match FirstIndex(xs[1..], x)
      case None => None
      case Some(k) =>
        assert xs[..k + 1] == [xs[0]] + xs[1..][..k];
        Some(k + 1)
  }

  /** list.remove(x): drops the first entry equal to x; fails when there is none. */
  function RemoveFirst(xs: seq<Reminder>, x: Reminder): (r: Option<seq<Reminder>>)
    ensures r.None? <==> x !in xs
  {
    match FirstIndex(xs, x)
    case None => None
    case Some(k) => Some(RemoveAt(xs, k))
  }

  /**
   * list.remove takes out exactly one copy of x, the first: the entries before
   * it are not equal to x and everything else keeps its order.
   */
  lemma RemoveFirstOnlyFirst(xs: seq<Reminder>, x: Reminder)
    requires x in xs
    ensures var r := RemoveFirst(xs, x).value;
      multiset(r) == multiset(xs) - multiset{x}
      && exists k :: 0 <= k < |xs| && xs[k] == x && x !in xs[..k] && r == xs[..k] + xs[k + 1..]
  {
    var k := FirstIndex(xs, x).value;
    RemoveAtMultiset(xs, k);
  }

  lemma RemoveFirstSorted(xs: seq<Reminder>, x: Reminder)
    requires x in xs && Sorted(xs)
    ensures Sorted(RemoveFirst(xs, x).value)
  {
    RemoveAtSorted(xs, FirstIndex(xs, x).value);
  }

  /* ---------------- The commands ---------------- */

  datatype Reply = Message(text: string) | File(name: string, text: string)

  /** Line n of the listing. */
  function ListLine(n: nat, r: Reminder): string
  {
    "**" + NatToString(n) + ".** Reminder " + FormatReminder(r)
  }

  /** The numbered listing sent for `reminder list`: line i shows entry i - 1. */
  function ListLines(xs: seq<Reminder>): (r: seq<string>)
  {
    seq(|xs|, i requires 0 <= i < |xs| => ListLine(i + 1, xs[i]))
  }

  function TextLines(xs: seq<Reminder>, utc: int -> string): (r: seq<string>)
  {
    seq(|xs|, i requires 0 <= i < |xs| => NatToString(i + 1) + ". Reminder " + FormatTextReminder(xs[i], utc))
  }

  /** The list reply: a message when it fits in 2000 characters, else a text file. */
  function ListReply(xs: seq<Reminder>, utc: int -> string): (r: Reply)
    ensures r.Message? ==> |r.text| <= 2000
  {
    var md := "Your reminders include:\n" + Join("\n", ListLines(xs));
    if |md| > 2000 then File("reminder_list.txt", "Your reminders include:\n" + Join("\n", TextLines(xs, utc)))
    else Message(md)
  }

  datatype Subcommand = ListSub | RemoveSub | OtherSub

  /** The subcommand of `reminder`, compared in lower case. */
  function SubcommandOf(text: string): Subcommand
  {
    var name := Lower(text);
    if name == "list" then ListSub else if name == "remove" then RemoveSub else OtherSub
  }

  /**
   * `reminder remove n` on the configuration `conf`: the new configuration
   * and the reply. n must be all digits (else no reply and no change); a
   * number outside 1..len gets "does not exist" and changes nothing;
   * otherwise entry n - 1 is deleted (an emptied list is stored as empty,
   * not as None) and named in the reply.
   */
  function RemoveResult(conf: map<string, seq<Reminder>>, user: string, arg: string)
    : (map<string, seq<Reminder>>, Option<Reply>)
  {
    if !(arg != [] && AllDigits(arg)) then (conf, None)
    else
      var n := DigitsValue(arg);
      var xs := if user in conf then conf[user] else [];
      if 1 <= n <= |xs| then
        (conf[user := RemoveAt(xs, n - 1)], Some(Message(Take("Removed reminder " + FormatReminder(xs[n - 1]), 2000))))
      else
        (conf, Some(Message("Reminder " + NatToString(n) + " does not exist")))
  }

  /** A number outside 1..len, or an argument that is not a number, changes nothing. */
  lemma RemoveOutOfRange(conf: map<string, seq<Reminder>>, user: string, arg: string)
    requires !(arg != [] && AllDigits(arg)) || !(1 <= DigitsValue(arg) <= |if user in conf then conf[user] else []|)
    ensures RemoveResult(conf, user, arg).0 == conf
    ensures RemoveResult(conf, user, arg).1.Some? <==> arg != [] && AllDigits(arg)
  {
  }

  /**
   * Removing entry n: the user's list loses exactly its entry n - 1, the rest
   * keep their order (and stay sorted), other users are untouched, and the
   * reply names the removed entry.
   */
  lemma RemoveInRange(conf: map<string, seq<Reminder>>, user: string, arg: string)
    requires arg != [] && AllDigits(arg) && user in conf && 1 <= DigitsValue(arg) <= |conf[user]|
    ensures var xs, n, c := conf[user], DigitsValue(arg), RemoveResult(conf, user, arg).0;
      c.Keys == conf.Keys
      && (forall u :: u in conf && u != user ==> c[u] == conf[u])
      && c[user] == xs[..n - 1] + xs[n..]
      && multiset(c[user]) == multiset(xs) - multiset{xs[n - 1]}
      && (Sorted(xs) ==> Sorted(c[user]))
      && RemoveResult(conf, user, arg).1 == Some(Message(Take("Removed reminder " + FormatReminder(xs[n - 1]), 2000)))
  {
    var xs, n := conf[user], DigitsValue(arg);
    RemoveAtMultiset(xs, n - 1);
    if Sorted(xs) {
      RemoveAtSorted(xs, n - 1);
    }
  }

  /** The reminders configuration: each user's list (no entry means None). */
  class Store {
    var conf: map<string, seq<Reminder>>

    /** Every stored list is sorted by due time. */
    ghost predicate Valid()
      reads this
    {
      forall u :: u in conf ==> Sorted(conf[u])
    }

    constructor(conf0: map<string, seq<Reminder>>)
      requires forall u :: u in conf0 ==> Sorted(conf0[u])
      ensures Valid() && conf == conf0
    {
      conf := conf0;
    }

    /** conf[user], or [] when the user has no list. */
    function ListOf(user: string): (xs: seq<Reminder>)
      reads this
      ensures user !in conf ==> xs == []
      ensures Valid() ==> Sorted(xs)
    {
      if user in conf then conf[user] else []
    }

    /**
     * remindme: nothing outside a guild or without a valid duration; else
     * the new reminder is due `now` plus the duration, holds the rest of the
     * command line, and joins the user's list by a stable sort.
     */
    method RemindMe(user: string, guild: Option<string>, channel: string, msg: string, now: int,
                    args: Commands.ArgParser) returns (reply: Option<string>)
      requires Valid() && args.Valid()
      modifies this, args
      ensures Valid() && args.Valid() && args.cmdline == old(args.cmdline)
      ensures guild.None? ==> reply.None? && conf == old(conf) && args.pos == old(args.pos)
      ensures guild.Some? ==>
        var l := Commands.Lex(old(args.cmdline), old(args.pos), false);
        var d := if l.Some? && Commands.IsString(l.value.kind) then Reminders.Duration(l.value.kind.text) else None;
        (l.None? ==> args.pos == old(args.pos))
        && (l.Some? ==> args.pos == l.value.end)
        && match d
        case None => reply.None? && conf == old(conf)
        case Some(secs) =>
          var r := Reminder(guild.value, channel, msg, secs + now, args.GetRest());
          conf == old(conf)[user := Insert(r, old(ListOf(user)))]
          && reply == Some(Take("Created reminder " + FormatReminder(r), 2000))
    {
      if guild.None? {
        return None;
      }
      ghost var xs := ListOf(user);
      ghost var l := Commands.Lex(args.cmdline, args.pos, false);
      var secs := Reminders.GetTime(args);
      assert secs == if l.Some? && Commands.IsString(l.value.kind) then Reminders.Duration(l.value.kind.text) else None;
      if secs.None? {
        return None;
      }
      var r := Reminder(guild.value, channel, msg, secs.value + now, args.GetRest());
      Schedule(user, r);
      assert conf == old(conf)[user := Insert(r, xs)];
      reply := Some(Take("Created reminder " + FormatReminder(r), 2000));
    }

    /** The user's list (a copy, or [] for none) gains r and is stably sorted by due time. */
    method Schedule(user: string, r: Reminder)
      requires Valid()
      modifies this
      ensures Valid() && conf == old(conf)[user := Insert(r, old(ListOf(user)))]
    {
      var xs := ListOf(user);
      SortAfterAppend(xs, r);
      InsertSorted(r, xs);
      conf := conf[user := SortByTime(xs + [r])];
    }

    /** reminder remove n, once the argument text is read. */
    method Remove(user: string, arg: string) returns (reply: Option<Reply>)
      requires Valid()
      modifies this
      ensures Valid()
      ensures (conf, reply) == RemoveResult(old(conf), user, arg)
    {
      if !(arg != [] && AllDigits(arg)) {
        return None;
      }
      var n := DigitsValue(arg);
      var xs := ListOf(user);
      if n < 1 || n > |xs| {
        return Some(Message("Reminder " + NatToString(n) + " does not exist"));
      }
      var r := xs[n - 1];
      RemoveAtSorted(xs, n - 1);
      conf := conf[user := RemoveAt(xs, n - 1)];
      reply := Some(Message(Take("Removed reminder " + FormatReminder(r), 2000)));
    }

    /** reminder remove: the entry number is the next string argument. */
    method RemoveCommand(user: string, args: Commands.ArgParser) returns (reply: Option<Reply>)
      requires Valid() && args.Valid()
      modifies this, args
      ensures Valid() && args.Valid() && args.cmdline == old(args.cmdline)
      ensures var n := Commands.Lex(args.cmdline, old(args.pos), false);
        if n.None? || !Commands.IsString(n.value.kind) then reply.None? && conf == old(conf)
        else (conf, reply) == RemoveResult(old(conf), user, n.value.kind.text)
    {
      var arg := args.NextArg(false);
      if arg.None? || !Commands.IsString(arg.value.kind) {
        return None;
      }
      reply := Remove(user, arg.value.kind.text);
    }

    /**
     * reminder: the subcommand is a string argument compared in lower case;
     * "list" replies with the listing, "remove" deletes an entry by number.
     */
    method Command(user: string, args: Commands.ArgParser, utc: int -> string) returns (reply: Option<Reply>)
      requires Valid() && args.Valid()
      modifies this, args
      ensures Valid() && args.Valid() && args.cmdline == old(args.cmdline)
      ensures var l := Commands.Lex(args.cmdline, old(args.pos), false);
        match l
        case None => reply.None? && conf == old(conf)
        case Some(a) =>
          if !Commands.IsString(a.kind) then reply.None? && conf == old(conf)
          else match SubcommandOf(a.kind.text)
            case ListSub => reply == Some(ListReply(old(ListOf(user)), utc)) && conf == old(conf)
            case OtherSub => reply.None? && conf == old(conf)
            case RemoveSub =>
              var n := Commands.Lex(args.cmdline, a.end, false);
              if n.None? || !Commands.IsString(n.value.kind) then reply.None? && conf == old(conf)
              else (conf, reply) == RemoveResult(old(conf), user, n.value.kind.text)
    {
      var cmd := args.NextArg(false);
      if cmd.None? || !Commands.IsString(cmd.value.kind) {
        return None;
      }
      var sub := SubcommandOf(cmd.value.kind.text);
      if sub == ListSub {
        return Some(ListReply(ListOf(user), utc));
      }
      if sub == RemoveSub {
        reply := RemoveCommand(user, args);
      } else {
        reply := None;
      }
    }

    /**
     * handle_reminder, after sending: the first entry equal to the fired
     * reminder leaves the user's list. A user without a list is left alone;
     * a list without the entry makes list.remove raise (`raised`), with no change.
     */
    method Fired(user: string, r: Reminder) returns (raised: bool)
      requires Valid()
      modifies this
      ensures Valid()
      ensures user !in old(conf) ==> !raised && conf == old(conf)
      ensures user in old(conf) ==>
        match RemoveFirst(old(conf)[user], r)
        case None => raised && conf == old(conf)
        case Some(rest) => !raised && conf == old(conf)[user := rest]
    {
      if user !in conf {
        return false;
      }
      var rest := RemoveFirst(conf[user], r);
      if rest.None? {
        return true;
      }
      RemoveFirstSorted(conf[user], r);
      conf := conf[user := rest.value];
      raised := false;
    }
  }
}
