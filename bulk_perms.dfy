/**
 * The guild snapshot that the permission export and import work on
 * (plugins/bulk_perms.py): roles, channels with their permission overwrites,
 * the channel and overwrite orderings, channel labels, the permission mask
 * arithmetic and the rows of the exported CSV file.
 *
 * A permission value is the set of flag indices whose bit is set: bit i of
 * the integer is set exactly when i is in the set, so `v & ~m | a` is
 * `(v - m) + a`. The flag table (discord.Permissions' flag names, in order)
 * is a parameter.
 */
module BulkPerms {
  import opened Wrappers
  import opened Text

  type Mask = set<nat>

  /** A permission overwrite as its (allow, deny) pair. */
  datatype Overwrite = Overwrite(allow: Mask, deny: Mask)

  /** The key of an overwrite: a role or a member, compared by kind and id. */
  datatype Target = RoleTarget(id: nat) | MemberTarget(id: nat)

  datatype Role = Role(id: nat, name: string, perms: Mask)

  datatype Member = Member(id: nat, name: string)

  datatype ChannelKind = CategoryKind | TextKind | StoreKind | VoiceKind | StageKind | OtherKind

  /**
   * A guild channel. `category` is the id of its category channel;
   * `synced` is discord.py's permissions_synced; `overwrites` is the
   * overwrites mapping in its iteration order.
   */
  datatype Channel = Channel(
    id: nat, name: string, kind: ChannelKind, position: nat,
    category: Option<nat>, synced: bool, overwrites: seq<(Target, Overwrite)>)

  /** The roles (in guild order, lowest first), channels and members of a guild. */
  datatype Guild = Guild(roles: seq<Role>, channels: seq<Channel>, members: seq<Member>)

  predicate IsVoiceLike(c: Channel) { c.kind == VoiceKind || c.kind == StageKind }

  /** The first channel with the given id. */
  function FindChannel(chs: seq<Channel>, id: nat): (r: Option<Channel>)
    ensures r.Some? ==> r.value in chs && r.value.id == id
    ensures r.None? ==> forall c :: c in chs ==> c.id != id
  {
    if chs == [] then None else if chs[0].id == id then Some(chs[0]) else FindChannel(chs[1..], id)
  }

  /* ---------------- Sort keys ---------------- */

  /** channel_sort_key: (category position, is voice or stage, position). */
  datatype SortKey = SortKey(group: int, voice: bool, pos: int)

  /** Python's ordering of such tuples: lexicographic, with False before True. */
  predicate KeyLe(a: SortKey, b: SortKey)
  {
    a.group < b.group
    || (a.group == b.group && ((!a.voice && b.voice) || (a.voice == b.voice && a.pos <= b.pos)))
  }

  predicate KeyLess(a: SortKey, b: SortKey) { KeyLe(a, b) && a != b }

  /** The position of the category a channel sits in, or -1 for none. */
  function CategoryPosition(g: Guild, c: Channel): int
  {
    match c.category
    case None => -1
    case Some(k) => match FindChannel(g.channels, k) case Some(cat) => cat.position case None => -1
  }

  function ChannelSortKey(g: Guild, c: Channel): SortKey
  {
    if c.kind == CategoryKind then SortKey(c.position, false, -1)
    else SortKey(CategoryPosition(g, c), IsVoiceLike(c), c.position)
  }

  /**
   * A category sorts before every channel in it; inside a category, text-like
   * channels come before voice and stage channels; channels outside any
   * category come before every category.
   */
  lemma ChannelKeyOrder(g: Guild, cat: Channel, c: Channel, d: Channel)
    requires cat.kind == CategoryKind && FindChannel(g.channels, cat.id) == Some(cat)
    requires c.kind != CategoryKind && c.category == Some(cat.id)
    requires d.kind != CategoryKind && d.category == Some(cat.id)
    ensures KeyLess(ChannelSortKey(g, cat), ChannelSortKey(g, c))
    ensures !IsVoiceLike(c) && IsVoiceLike(d) ==> KeyLess(ChannelSortKey(g, c), ChannelSortKey(g, d))
    ensures forall e: Channel :: e.kind != CategoryKind && e.category.None? ==>
      KeyLess(ChannelSortKey(g, e), ChannelSortKey(g, cat))
  {
  }

  /** overwrite_sort_key: a role's index in the guild's roles, else -1; members -1. */
  function OverwriteSortKey(g: Guild, t: Target): (k: int)
    ensures k >= -1
  {
    match t
    case MemberTarget(_) => -1
    case RoleTarget(id) => RoleIndex(g.roles, id)
  }

  /** list.index on the roles: the first position of the role with this id, or -1. */
  function RoleIndex(roles: seq<Role>, id: nat): (k: int)
    ensures -1 <= k < |roles|
    ensures k >= 0 ==> roles[k].id == id && forall j :: 0 <= j < k ==> roles[j].id != id
    ensures k == -1 ==> forall j :: 0 <= j < |roles| ==> roles[j].id != id
  {
    if roles == [] then -1
    else if roles[0].id == id then 0
    else var k := RoleIndex(roles[1..], id); if k == -1 then -1 else k + 1
  }

  /**
   * Members, and roles missing from the guild's role list, sort before every
   * role of the list; listed roles sort in the guild's role order.
   */
  lemma OverwriteKeyOrder(g: Guild, i: nat, j: nat, t: Target)
    requires i < j < |g.roles|
    requires forall a, b :: 0 <= a < b < |g.roles| ==> g.roles[a].id != g.roles[b].id
    requires t.MemberTarget? || RoleIndex(g.roles, t.id) == -1
    ensures OverwriteSortKey(g, t) < OverwriteSortKey(g, RoleTarget(g.roles[i].id))
    ensures OverwriteSortKey(g, RoleTarget(g.roles[i].id)) < OverwriteSortKey(g, RoleTarget(g.roles[j].id))
  {
    assert RoleIndex(g.roles, g.roles[i].id) == i;
    assert RoleIndex(g.roles, g.roles[j].id) == j;
  }

  /* ---------------- Stable sorting (Python's sorted) ---------------- */

  function InsertBy<T>(x: T, r: seq<T>, le: (T, T) -> bool): (s: seq<T>)
    ensures |s| == |r| + 1
    ensures multiset(s) == multiset(r) + multiset{x}
  {
    if r == [] then [x]
    else if le(x, r[0]) then [x] + r
    else
      assert r == [r[0]] + r[1..];
      [r[0]] + InsertBy(x, r[1..], le)
  }

  /** sorted(s, key=...): a stable insertion sort; an element goes before the equal elements after it. */
  function SortBy<T>(s: seq<T>, le: (T, T) -> bool): (r: seq<T>)
    ensures |r| == |s|
    ensures multiset(r) == multiset(s)
  {
    if s == [] then []
    else
      assert s == [s[0]] + s[1..];
      InsertBy(s[0], SortBy(s[1..], le), le)
  }

  predicate SortedBy<T>(s: seq<T>, le: (T, T) -> bool)
  {
    forall i :: 0 <= i < |s| - 1 ==> le(s[i], s[i + 1])
  }

  lemma {:induction false} InsertBySorted<T>(x: T, r: seq<T>, le: (T, T) -> bool)
    requires forall a, b :: le(a, b) || le(b, a)
    requires SortedBy(r, le)
    ensures SortedBy(InsertBy(x, r, le), le)
    ensures r != [] ==> InsertBy(x, r, le)[0] == x || InsertBy(x, r, le)[0] == r[0]
  {
    if r != [] && !le(x, r[0]) {
      InsertBySorted(x, r[1..], le);
      var s := InsertBy(x, r, le);
      assert s == [r[0]] + InsertBy(x, r[1..], le);
      assert le(r[0], x);
    }
  }

  /** The sort's result is ordered whenever the comparison is total. */
  lemma {:induction false} SortBySorted<T>(s: seq<T>, le: (T, T) -> bool)
    requires forall a, b :: le(a, b) || le(b, a)
    ensures SortedBy(SortBy(s, le), le)
  {
    if s != [] {
      SortBySorted(s[1..], le);
      InsertBySorted(s[0], SortBy(s[1..], le), le);
    }
  }

  /** [a] when the order ranks a equal to x, else nothing. */
  function TieOf<T>(a: T, x: T, le: (T, T) -> bool): seq<T>
  {
    if le(x, a) && le(a, x) then [a] else []
  }

  /** The elements of s that the order ranks equal to x, in the order of s. */
  function Ties<T>(s: seq<T>, x: T, le: (T, T) -> bool): seq<T>
  {
    if s == [] then [] else TieOf(s[0], x, le) + Ties(s[1..], x, le)
  }

  ghost predicate Transitive<T(!new)>(le: (T, T) -> bool)
  {
    forall a, b, c :: le(a, b) && le(b, c) ==> le(a, c)
  }

  /** Ties of a sequence with a head: the head when it is tied with x, then the ties of the rest. */
  lemma TiesCons<T>(a: T, s: seq<T>, x: T, le: (T, T) -> bool)
    ensures Ties([a] + s, x, le) == TieOf(a, x, le) + Ties(s, x, le)
  {
    assert ([a] + s)[0] == a && ([a] + s)[1..] == s;
  }

  /** Two pieces, one of them empty, commute in front of a third. */
  lemma SwapEmpty<T>(p: seq<T>, q: seq<T>, t: seq<T>)
    requires p == [] || q == []
    ensures p + (q + t) == q + (p + t)
  {
    if p == [] {
      assert p + (q + t) == q + t == q + (p + t);
    } else {
      assert q + (p + t) == p + t == p + (q + t);
    }
  }

  /**
   * Inserting h keeps the ties with x in order: h joins them in front when
   * it is tied with x. Only one consequence of transitivity is needed: what
   * x comes before, h comes before too when h comes before x.
   */
  lemma {:induction false} InsertByTies<T>(h: T, r: seq<T>, x: T, le: (T, T) -> bool)
    requires forall y :: le(h, x) && le(x, y) ==> le(h, y)
    ensures Ties(InsertBy(h, r, le), x, le) == TieOf(h, x, le) + Ties(r, x, le)
  {
    if r == [] || le(h, r[0]) {
      assert InsertBy(h, r, le) == [h] + r;
      TiesCons(h, r, x, le);
    } else {
      var r0, rest := r[0], r[1..];
      InsertByTies(h, rest, x, le);
      var ins := InsertBy(h, rest, le);
      assert InsertBy(h, r, le) == [r0] + ins;
      TiesCons(r0, ins, x, le);
      assert le(h, x) && le(x, r0) ==> le(h, r0);
      SwapEmpty(TieOf(r0, x, le), TieOf(h, x, le), Ties(rest, x, le));
    }
  }

  /**
   * sorted() is stable: the elements ranked equal to any x come out in the
   * order they went in.
   */
  lemma {:induction false} SortByStable<T(!new)>(s: seq<T>, x: T, le: (T, T) -> bool)
    requires Transitive(le)
    ensures Ties(SortBy(s, le), x, le) == Ties(s, x, le)
  {
    if s != [] {
      SortByStable(s[1..], x, le);
      InsertByTies(s[0], SortBy(s[1..], le), x, le);
    }
  }

  /** What sorted() promises under a total preorder: same length and elements, ordered, stable. */
  lemma SortByFacts<T(!new)>(s: seq<T>, le: (T, T) -> bool)
    requires forall a, b :: le(a, b) || le(b, a)
    requires Transitive(le)
    ensures |SortBy(s, le)| == |s| && multiset(SortBy(s, le)) == multiset(s)
    ensures SortedBy(SortBy(s, le), le)
    ensures forall x :: Ties(SortBy(s, le), x, le) == Ties(s, x, le)
  {
    SortBySorted(s, le);
    forall x
      ensures Ties(SortBy(s, le), x, le) == Ties(s, x, le)
    {
      SortByStable(s, x, le);
    }
  }

  lemma KeyLeTotal()
    ensures forall a, b :: KeyLe(a, b) || KeyLe(b, a)
  {
  }

  lemma ExportOrdersAreTotal(g: Guild)
    ensures forall a, b :: ChannelLe(g)(a, b) || ChannelLe(g)(b, a)
    ensures Transitive(ChannelLe(g))
    ensures forall a, b :: OverwriteLe(g)(a, b) || OverwriteLe(g)(b, a)
    ensures Transitive(OverwriteLe(g))
  {
  }

  /* ---------------- Channel labels ---------------- */

  /** How many channels of chs have this name. */
  function NameCount(chs: seq<Channel>, name: string): nat
  {
    if chs == [] then 0 else (if chs[0].name == name then 1 else 0) + NameCount(chs[1..], name)
  }

  /** How many channels of chs have this name and an id below `id`. */
  function SmallerIdCount(chs: seq<Channel>, name: string, id: int): (n: nat)
    ensures n <= NameCount(chs, name)
  {
    if chs == [] then 0
    else (if chs[0].name == name && chs[0].id < id then 1 else 0) + SmallerIdCount(chs[1..], name, id)
  }

  /**
   * disambiguated_name: the bare name, unless two or more channels share it;
   * then "name (k)" where k is the channel's 1-based place among them when
   * sorted by id, that is one more than the number of them with a smaller id.
   */
  function DisambiguatedName(g: Guild, c: Channel): string
  {
    if NameCount(g.channels, c.name) < 2 then c.name
    else c.name + " (" + NatToString(1 + SmallerIdCount(g.channels, c.name, c.id)) + ")"
  }

  lemma {:induction false} SmallerIdCountMono(chs: seq<Channel>, name: string, a: int, b: int)
    requires a <= b
    ensures SmallerIdCount(chs, name, a) <= SmallerIdCount(chs, name, b)
  {
    if chs != [] { SmallerIdCountMono(chs[1..], name, a, b); }
  }

  lemma {:induction false} SmallerIdCountStrict(chs: seq<Channel>, c: Channel, b: int)
    requires c in chs && c.id < b
    ensures SmallerIdCount(chs, c.name, c.id) < SmallerIdCount(chs, c.name, b)
  {
    if chs[0] == c {
      SmallerIdCountMono(chs[1..], c.name, c.id, b);
    } else {
      SmallerIdCountStrict(chs[1..], c, b);
    }
  }

  lemma {:induction false} NameCountTwo(chs: seq<Channel>, c: Channel, d: Channel)
    requires c in chs && d in chs && c != d && c.name == d.name
    ensures NameCount(chs, c.name) >= 2
  {
    if chs[0] == c {
      NameCountPositive(chs[1..], d);
    } else if chs[0] == d {
      NameCountPositive(chs[1..], c);
    } else {
      NameCountTwo(chs[1..], c, d);
    }
  }

  lemma {:induction false} NameCountPositive(chs: seq<Channel>, c: Channel)
    requires c in chs
    ensures NameCount(chs, c.name) >= 1
  {
    if chs[0] != c { NameCountPositive(chs[1..], c); }
  }

  lemma ParenthesisedInjective(name: string, x: string, y: string)
    requires name + " (" + x + ")" == name + " (" + y + ")"
    ensures x == y
  {
    var s := name + " (" + x + ")";
    var t := name + " (" + y + ")";
    assert |x| == |y|;
    assert x == s[|name| + 2..|name| + 2 + |x|];
    assert y == t[|name| + 2..|name| + 2 + |y|];
  }

  /** Two different channels of the guild with the same name get different labels. */
  lemma DisambiguatedNamesDiffer(g: Guild, c: Channel, d: Channel)
    requires c in g.channels && d in g.channels && c.id != d.id && c.name == d.name
    ensures DisambiguatedName(g, c) != DisambiguatedName(g, d)
  {
    NameCountTwo(g.channels, c, d);
    var m := SmallerIdCount(g.channels, c.name, c.id);
    var n := SmallerIdCount(g.channels, d.name, d.id);
    if c.id < d.id { SmallerIdCountStrict(g.channels, c, d.id); }
    else { SmallerIdCountStrict(g.channels, d, c.id); }
    if DisambiguatedName(g, c) == DisambiguatedName(g, d) {
      ParenthesisedInjective(c.name, NatToString(1 + m), NatToString(1 + n));
      NatToStringInjective(1 + m, 1 + n);
    }
  }

  /** The number in a label is between 1 and the number of channels sharing the name. */
  lemma {:induction false} DisambiguatedRank(chs: seq<Channel>, c: Channel)
    requires c in chs
    ensures 1 + SmallerIdCount(chs, c.name, c.id) <= NameCount(chs, c.name)
  {
    if chs[0] == c {
    } else {
      DisambiguatedRank(chs[1..], c);
    }
  }

  /* ---------------- Mask arithmetic ---------------- */

  /** tweak_permissions: value & ~remove | add. */
  function TweakPermissions(value: Mask, add: Mask, remove: Mask): (r: Mask)
    ensures forall b :: b in add ==> b in r
    ensures forall b :: b in remove && b !in add ==> b !in r
    ensures forall b :: b !in add && b !in remove ==> (b in r <==> b in value)
  {
    (value - remove) + add
  }

  /** Adding bits that are already set and removing bits that are not changes nothing. */
  lemma TweakIdentity(value: Mask, add: Mask, remove: Mask)
    requires add <= value && remove !! value
    ensures TweakPermissions(value, add, remove) == value
  {
  }

  /**
   * tweak_overwrite: allow' = (allow & ~reset) | add, deny' = (deny & ~reset) | remove.
   * The new pair is given before PermissionOverwrite.from_pair resolves it.
   */
  function TweakOverwrite(ow: Overwrite, add: Mask, remove: Mask, reset: Mask): (r: Overwrite)
    ensures forall b :: b !in add && b !in remove && b !in reset ==>
      (b in r.allow <==> b in ow.allow) && (b in r.deny <==> b in ow.deny)
    ensures forall b :: b in add ==> b in r.allow
    ensures forall b :: b in remove ==> b in r.deny
    ensures forall b :: b in reset && b !in add ==> b !in r.allow
    ensures forall b :: b in reset && b !in remove ==> b !in r.deny
  {
    Overwrite(TweakPermissions(ow.allow, add, reset), TweakPermissions(ow.deny, remove, reset))
  }

  /** Adding a bit does not clear it from deny, and removing one does not clear it from allow. */
  lemma TweakKeepsOppositeSide(ow: Overwrite, add: Mask, remove: Mask, reset: Mask, b: nat)
    requires b !in reset
    ensures b in add && b in ow.deny ==> b in TweakOverwrite(ow, add, remove, reset).deny
    ensures b in remove && b in ow.allow ==> b in TweakOverwrite(ow, add, remove, reset).allow
  {
  }

  /** overwrites_for: the overwrite of the first entry whose target has the same id, else an empty one. */
  function OverwritesFor(c: Channel, t: Target): (r: Overwrite)
    ensures r != Overwrite({}, {}) ==> exists i :: 0 <= i < |c.overwrites| && c.overwrites[i].0.id == t.id
  {
    FirstOverwrite(c.overwrites, t.id)
  }

  function FirstOverwrite(ows: seq<(Target, Overwrite)>, id: nat): (r: Overwrite)
    ensures r != Overwrite({}, {}) ==> exists i :: 0 <= i < |ows| && ows[i].0.id == id
  {
    if ows == [] then Overwrite({}, {})
    else if ows[0].0.id == id then ows[0].1
    else
      var r := FirstOverwrite(ows[1..], id);
      assert r != Overwrite({}, {}) ==> exists i :: 0 <= i < |ows| && ows[i].0.id == id by {
        if r != Overwrite({}, {}) {
          var i :| 0 <= i < |ows[1..]| && ows[1..][i].0.id == id;
          assert ows[i + 1].0.id == id;
        }
      }
      r
  }

  lemma {:induction false} FirstOverwriteOfDistinct(ows: seq<(Target, Overwrite)>, i: nat)
    requires i < |ows|
    requires forall a, b :: 0 <= a < b < |ows| ==> ows[a].0.id != ows[b].0.id
    ensures FirstOverwrite(ows, ows[i].0.id) == ows[i].1
  {
    if i > 0 {
      assert ows[0].0.id != ows[i].0.id;
      FirstOverwriteOfDistinct(ows[1..], i - 1);
    }
  }

  /* ---------------- Export ---------------- */

  function HeaderRow(flags: seq<string>): seq<string>
  {
    ["Category", "Channel", "Role/User"] + flags
  }

  /** "+" for each flag the role has, "-" for each it lacks, in flag order. */
  function RoleSigns(n: nat, perms: Mask): (r: seq<string>)
    ensures |r| == n
    ensures forall i :: 0 <= i < n ==> r[i] == (if i in perms then "+" else "-")
  {
    if n == 0 then [] else RoleSigns(n - 1, perms) + [if n - 1 in perms then "+" else "-"]
  }

  /** "+" where allowed, else "-" where denied, else "/". */
  function OverwriteSigns(n: nat, ow: Overwrite): (r: seq<string>)
    ensures |r| == n
    ensures forall i :: 0 <= i < n ==>
      r[i] == (if i in ow.allow then "+" else if i in ow.deny then "-" else "/")
  {
    if n == 0 then []
    else OverwriteSigns(n - 1, ow) + [if n - 1 in ow.allow then "+" else if n - 1 in ow.deny then "-" else "/"]
  }

  function RoleRow(flags: seq<string>, r: Role): seq<string>
  {
    ["", "", "Role " + r.name] + RoleSigns(|flags|, r.perms)
  }

  function FindRole(roles: seq<Role>, id: nat): (r: Option<Role>)
    ensures r.Some? ==> r.value in roles && r.value.id == id
  {
    if roles == [] then None else if roles[0].id == id then Some(roles[0]) else FindRole(roles[1..], id)
  }

  function FindMember(members: seq<Member>, id: int): (r: Option<Member>)
    ensures r.Some? ==> r.value in members && r.value.id == id
    ensures r.None? ==> forall m :: m in members ==> m.id != id
  {
    if members == [] then None
    else if members[0].id == id then Some(members[0])
    else FindMember(members[1..], id)
  }

  /** "Role <name>" or "User <id> <name>". */
  function TargetLabel(g: Guild, t: Target): string
  {
    match t
    case RoleTarget(id) =>
      "Role " + (match FindRole(g.roles, id) case Some(r) => r.name case None => "")
    case MemberTarget(id) =>
      "User " + NatToString(id) + " " + (match FindMember(g.members, id) case Some(m) => m.name case None => "")
  }

  /** The first two cells of a channel's rows: [category label, ""] or [category label or "", channel label]. */
  function ChannelHeader(g: Guild, c: Channel): seq<string>
  {
    if c.kind == CategoryKind then [DisambiguatedName(g, c), ""]
    else
      [match c.category
       case None => ""
       case Some(k) => (match FindChannel(g.channels, k) case Some(cat) => DisambiguatedName(g, cat) case None => ""),
       DisambiguatedName(g, c)]
  }

  function OverwriteLe(g: Guild): ((Target, Overwrite), (Target, Overwrite)) -> bool
  {
    (a: (Target, Overwrite), b: (Target, Overwrite)) => OverwriteSortKey(g, a.0) <= OverwriteSortKey(g, b.0)
  }

  function ChannelLe(g: Guild): (Channel, Channel) -> bool
  {
    (a: Channel, b: Channel) => KeyLe(ChannelSortKey(g, a), ChannelSortKey(g, b))
  }

  function OverwriteRows(g: Guild, flags: seq<string>, header: seq<string>, ows: seq<(Target, Overwrite)>): (rows: seq<seq<string>>)
    ensures |rows| == |ows|
    ensures forall i :: 0 <= i < |ows| ==>
      rows[i] == header + [TargetLabel(g, ows[i].0)] + OverwriteSigns(|flags|, ows[i].1)
  {
    if ows == [] then []
    else [header + [TargetLabel(g, ows[0].0)] + OverwriteSigns(|flags|, ows[0].1)]
         + OverwriteRows(g, flags, header, ows[1..])
  }

  /** The rows exported for one channel: its header row, then its overwrites unless it is synced. */
  function ChannelBlock(g: Guild, flags: seq<string>, c: Channel): seq<seq<string>>
  {
    var header := ChannelHeader(g, c);
    [header + [if c.synced then "(synced)" else ""]]
    + (if c.synced then [] else OverwriteRows(g, flags, header, SortBy(c.overwrites, OverwriteLe(g))))
  }

  /** The blocks of f over xs, one after the other. */
  function ConcatMap<T, U>(f: T -> seq<U>, xs: seq<T>): seq<U>
  {
    if xs == [] then [] else f(xs[0]) + ConcatMap(f, xs[1..])
  }

  lemma {:induction false} ConcatMapAppend<T, U>(f: T -> seq<U>, a: seq<T>, b: seq<T>)
    ensures ConcatMap(f, a + b) == ConcatMap(f, a) + ConcatMap(f, b)
  {
    if a == [] {
      assert a + b == b;
    } else {
      ConcatMapAppend(f, a[1..], b);
      assert (a + b)[1..] == a[1..] + b && (a + b)[0] == a[0];
    }
  }

  lemma ConcatMapSplit<T, U>(f: T -> seq<U>, xs: seq<T>, k: nat)
    requires k < |xs|
    ensures ConcatMap(f, xs) == ConcatMap(f, xs[..k]) + f(xs[k]) + ConcatMap(f, xs[k + 1..])
  {
    assert xs == xs[..k] + xs[k..];
    ConcatMapAppend(f, xs[..k], xs[k..]);
    assert xs[k..] == [xs[k]] + xs[k + 1..];
    ConcatMapCons(f, xs[k], xs[k + 1..]);
    ConcatAssoc(ConcatMap(f, xs[..k]), f(xs[k]), ConcatMap(f, xs[k + 1..]));
  }

  lemma ConcatMapCons<T, U>(f: T -> seq<U>, x: T, xs: seq<T>)
    ensures ConcatMap(f, [x] + xs) == f(x) + ConcatMap(f, xs)
  {
    assert ([x] + xs)[0] == x && ([x] + xs)[1..] == xs;
  }

  lemma ConcatAssoc<T>(a: seq<T>, b: seq<T>, c: seq<T>)
    ensures a + (b + c) == a + b + c
  {
  }

  function ChannelBlocks(g: Guild, flags: seq<string>, chs: seq<Channel>): seq<seq<string>>
  {
    ConcatMap((c: Channel) => ChannelBlock(g, flags, c), chs)
  }

  /**
   * A channel's block opens with its category and channel labels and the
   * "(synced)" marker when synced; a synced channel has nothing more. An
   * unsynced one has a row per overwrite, in an order that is a permutation
   * of its overwrites, sorted by overwrite_sort_key, and stable (members
   * and unlisted roles keep their mutual order).
   */
  lemma ChannelBlockMeaning(g: Guild, flags: seq<string>, c: Channel)
    ensures var rows := ChannelBlock(g, flags, c);
      rows[0] == ChannelHeader(g, c) + [if c.synced then "(synced)" else ""]
      && |rows[0]| == 3
      && (c.synced ==> |rows| == 1)
      && (!c.synced ==> |rows| == 1 + |c.overwrites|)
    ensures !c.synced ==>
      var ows := SortBy(c.overwrites, OverwriteLe(g));
      multiset(ows) == multiset(c.overwrites)
      && SortedBy(ows, OverwriteLe(g))
      && (forall x :: Ties(ows, x, OverwriteLe(g)) == Ties(c.overwrites, x, OverwriteLe(g)))
      && forall i :: 0 <= i < |ows| ==>
        ChannelBlock(g, flags, c)[1 + i]
          == ChannelHeader(g, c) + [TargetLabel(g, ows[i].0)] + OverwriteSigns(|flags|, ows[i].1)
  {
    ExportOrdersAreTotal(g);
    SortByFacts(c.overwrites, OverwriteLe(g));
  }

  /** The blocks of a list of channels: those before channel k, its own, then those after. */
  lemma ChannelBlocksSplit(g: Guild, flags: seq<string>, chs: seq<Channel>, k: nat)
    requires k < |chs|
    ensures ChannelBlocks(g, flags, chs)
      == ChannelBlocks(g, flags, chs[..k]) + ChannelBlock(g, flags, chs[k]) + ChannelBlocks(g, flags, chs[k + 1..])
  {
    ConcatMapSplit((c: Channel) => ChannelBlock(g, flags, c), chs, k);
  }

  function RoleRows(flags: seq<string>, roles: seq<Role>): (rows: seq<seq<string>>)
    ensures |rows| == |roles| && forall i :: 0 <= i < |roles| ==> rows[i] == RoleRow(flags, roles[i])
  {
    if roles == [] then [] else [RoleRow(flags, roles[0])] + RoleRows(flags, roles[1..])
  }

  /**
   * exportperms: the header, one row per role, then for each channel in
   * channel_sort_key order its header row and overwrite rows.
   */
  function ExportRows(g: Guild, flags: seq<string>): (rows: seq<seq<string>>)
    ensures |rows| >= 1 + |g.roles| + |g.channels| && rows[0] == HeaderRow(flags)
    ensures forall i :: 0 <= i < |g.roles| ==> rows[1 + i] == RoleRow(flags, g.roles[i])
  {
    ChannelBlocksCount(g, flags, SortBy(g.channels, ChannelLe(g)));
    [HeaderRow(flags)] + RoleRows(flags, g.roles) + ChannelBlocks(g, flags, SortBy(g.channels, ChannelLe(g)))
  }

  lemma {:induction false} ChannelBlocksCount(g: Guild, flags: seq<string>, chs: seq<Channel>)
    ensures |ChannelBlocks(g, flags, chs)| >= |chs|
  {
    if chs != [] { ChannelBlocksCount(g, flags, chs[1..]); }
  }

  /**
   * The order of the channel part of the export: a permutation of the
   * guild's channels, sorted by channel_sort_key, and stable (channels with
   * equal keys keep the guild's order).
   */
  lemma ExportChannelOrder(g: Guild)
    ensures var cs := SortBy(g.channels, ChannelLe(g));
      |cs| == |g.channels|
      && multiset(cs) == multiset(g.channels)
      && SortedBy(cs, ChannelLe(g))
      && (forall x :: Ties(cs, x, ChannelLe(g)) == Ties(g.channels, x, ChannelLe(g)))
  {
    ExportOrdersAreTotal(g);
    SortByFacts(g.channels, ChannelLe(g));
  }

  /**
   * The channel part of the export: the k-th channel in that order
   * contributes its block after the role rows and the blocks of the channels
   * before it, and before those of the channels after it.
   */
  lemma ExportChannelBlock(g: Guild, flags: seq<string>, k: nat)
    requires k < |g.channels|
    ensures var cs := SortBy(g.channels, ChannelLe(g));
      k < |cs|
      && ExportRows(g, flags)
        == [HeaderRow(flags)] + RoleRows(flags, g.roles)
           + ChannelBlocks(g, flags, cs[..k]) + ChannelBlock(g, flags, cs[k]) + ChannelBlocks(g, flags, cs[k + 1..])
  {
    var cs := SortBy(g.channels, ChannelLe(g));
    ChannelBlocksSplit(g, flags, cs, k);
    var front := [HeaderRow(flags)] + RoleRows(flags, g.roles);
    assert ExportRows(g, flags) == front + ChannelBlocks(g, flags, cs);
    ConcatRegroup(front, ChannelBlocks(g, flags, cs[..k]), ChannelBlock(g, flags, cs[k]),
                  ChannelBlocks(g, flags, cs[k + 1..]));
  }

  /** Appending three pieces one after the other is appending them together. */
  lemma ConcatRegroup<T>(a: seq<T>, x: seq<T>, y: seq<T>, z: seq<T>)
    ensures a + (x + y + z) == a + x + y + z
  {
  }

  /**
   * Every channel row has the three fixed columns: a channel's header row
   * has exactly those, and an overwrite row one more cell per flag.
   */
  lemma {:induction false} ChannelBlocksWidth(g: Guild, flags: seq<string>, chs: seq<Channel>)
    ensures forall row :: row in ChannelBlocks(g, flags, chs) ==> |row| == 3 || |row| == 3 + |flags|
  {
    if chs != [] {
      ChannelBlocksWidth(g, flags, chs[1..]);
      var c := chs[0];
      assert |ChannelHeader(g, c)| == 2;
      if !c.synced {
        var ows := SortBy(c.overwrites, OverwriteLe(g));
        var rows := OverwriteRows(g, flags, ChannelHeader(g, c), ows);
        assert forall row :: row in rows ==> |row| == 3 + |flags| by {
          forall row | row in rows ensures |row| == 3 + |flags| {
            var i :| 0 <= i < |rows| && rows[i] == row;
          }
        }
      }
    }
  }
}
