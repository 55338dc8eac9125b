/**
 * importperms (plugins/bulk_perms.py): reading a permission CSV back and
 * turning it into change notes and a list of deferred actions.
 *
 * The import is specified by functions: the header check, a fold of one row
 * step over the data rows, the overwrite pass over the channels that were
 * touched, the sync pass and the packing of notes into messages. The
 * methods further down run the same loops imperatively and are proved
 * against those functions.
 */
module BulkPermsImport {
  import opened Wrappers
  import opened Text
  import opened Dicts
  import opened BulkPerms
  import opened DiscordUtil

  /* ---------------- Values ---------------- */

  /** The (add, remove, reset) masks recorded for one overwrite target. */
  datatype Masks = Masks(add: Mask, remove: Mask, reset: Mask)

  const NoMasks := Masks({}, {}, {})

  predicate IsZero(m: Masks) { m.add == {} && m.remove == {} && m.reset == {} }

  /** A deferred action: what would be applied once the import is confirmed. */
  datatype Action =
    | EditRole(roleId: nat, add: Mask, remove: Mask)
    | MoveChannel(channelId: nat, categoryId: nat)
    | ReplaceOverwrites(channel: Channel, entries: seq<(Target, Masks)>)
    | SyncChannel(channelId: nat)

  /**
   * Why an import stops. Line numbers count the header as line 1.
   * MissingHeader is the StopIteration of reading an empty file,
   * FormatFailure the ValueError of formatting a move out of every category,
   * and MissingUserId the IndexError of a "User " cell with nothing after it;
   * the rest are the user errors the command reports.
   */
  datatype ImportError =
    | MissingHeader
    | InvalidHeader
    | UnknownPermission(name: string)
    | InvalidRow(line: nat)
    | ExpectedRole(line: nat)
    | UnknownRole(line: nat, name: string)
    | UnknownChannel(line: nat, name: string)
    | NotACategory(line: nat, name: string)
    | IsACategory(line: nat, name: string)
    | MissingUserId(line: nat)
    | ExpectedUserId(line: nat)
    | NoSuchMember(line: nat, id: int)
    | ExpectedRoleOrUser(line: nat)
    | FormatFailure(line: nat)
    | CannotSync(channelId: nat)

  /** Nothing to do ("No changes."), or the messages to show and the actions to run on confirmation. */
  datatype Outcome = NoChanges | Confirm(messages: seq<string>, actions: seq<Action>)

  const Check := '\U{2705}'
  const Cross := '\U{274C}'
  const Square := '\U{1F533}'

  /* ---------------- Header ---------------- */

  /** The position of a flag name in the flag table (getattr(discord.Permissions, name)). */
  function FlagIndex(flags: seq<string>, name: string): (r: Option<nat>)
    ensures r.Some? ==> r.value < |flags| && flags[r.value] == name
    ensures r.None? <==> name !in flags
  {
    if flags == [] then None
    else if flags[0] == name then Some(0)
    else match FlagIndex(flags[1..], name)
      case None => None
      case Some(i) => Some(i + 1)
  }

  /** The flag of each permission column, or the first unknown column name. */
  function FlagColumns(flags: seq<string>, names: seq<string>): (r: Result<seq<nat>, ImportError>)
    ensures r.Ok? ==> (|r.value| == |names|
      && forall k :: 0 <= k < |names| ==> r.value[k] < |flags| && flags[r.value[k]] == names[k])
    ensures r.Err? <==> exists k :: 0 <= k < |names| && names[k] !in flags
    ensures r.Err? ==> r.error.UnknownPermission? && r.error.name in names && r.error.name !in flags
  {
    if names == [] then Ok([])
    else match FlagIndex(flags, names[0])
      case None => Err(UnknownPermission(names[0]))
      case Some(f) =>
        match FlagColumns(flags, names[1..])
        case Err(e) =>
          assert exists k :: 0 <= k < |names| && names[k] !in flags by {
            var k :| 0 <= k < |names[1..]| && names[1..][k] !in flags;
            assert names[k + 1] !in flags;
          }
          Err(e)
        case Ok(cs) => Ok([f] + cs)
  }

  /** The header check: the three fixed column names, then known flag names. */
  function ParseHeader(flags: seq<string>, header: seq<string>): (r: Result<seq<nat>, ImportError>)
    ensures r == Err(InvalidHeader) <==> |header| < 3 || header[..3] != ["Category", "Channel", "Role/User"]
    ensures r.Ok? ==> |r.value| == |header| - 3
  {
    if |header| < 3 || header[0] != "Category" || header[1] != "Channel" || header[2] != "Role/User" then
      Err(InvalidHeader)
    else
      assert header[..3] == ["Category", "Channel", "Role/User"];
      FlagColumns(flags, header[3..])
  }

  /* ---------------- Reading the signs of one row ---------------- */

  /** What a row's signs are compared with: a role's permissions or an overwrite. */
  datatype Subject = RolePerms(perms: Mask) | OverwriteOf(ow: Overwrite)

  /** '+' asks for a flag that is not yet set (allowed). */
  predicate AddsFlag(s: Subject, flag: nat, sign: string)
  {
    sign == "+" && match s
      case RolePerms(p) => flag !in p
      case OverwriteOf(ow) => flag !in ow.allow
  }

  /** '-' on a role drops a flag it has; on an overwrite it denies a flag not yet denied. */
  predicate RemovesFlag(s: Subject, flag: nat, sign: string)
  {
    sign == "-" && match s
      case RolePerms(p) => flag in p
      case OverwriteOf(ow) => flag !in ow.deny
  }

  /** '/' on an overwrite clears a flag that is allowed or denied; role rows have no reset. */
  predicate ResetsFlag(s: Subject, flag: nat, sign: string)
  {
    sign == "/" && s.OverwriteOf? && (flag in s.ow.allow || flag in s.ow.deny)
  }

  /** The change notes and masks a row contributes. */
  datatype Delta = Delta(changes: seq<string>, masks: Masks)

  /** One column: a note and a mask bit for each of the three tests that holds. */
  function ColumnDelta(s: Subject, flag: nat, name: string, sign: string): Delta
  {
    var adds := AddsFlag(s, flag, sign);
    var removes := RemovesFlag(s, flag, sign);
    var resets := ResetsFlag(s, flag, sign);
    Delta(
      (if adds then [[Check] + name] else []) + (if removes then [[Cross] + name] else [])
      + (if resets then [[Square] + name] else []),
      Masks(if adds then {flag} else {}, if removes then {flag} else {}, if resets then {flag} else {}))
  }

  /** zip(flags, row[3:]) stops at the shorter of the two. */
  function Width(cols: seq<nat>, signs: seq<string>): nat
  {
    if |cols| <= |signs| then |cols| else |signs|
  }

  /** The first n columns of a row: their notes in column order and the union of their mask bits. */
  function RowDelta(s: Subject, cols: seq<nat>, names: seq<string>, signs: seq<string>, n: nat): Delta
    requires n <= |cols| && n <= |names| && n <= |signs|
  {
    if n == 0 then Delta([], NoMasks)
    else
      var d := RowDelta(s, cols, names, signs, n - 1);
      var c := ColumnDelta(s, cols[n - 1], names[n - 1], signs[n - 1]);
      Delta(d.changes + c.changes,
        Masks(d.masks.add + c.masks.add, d.masks.remove + c.masks.remove, d.masks.reset + c.masks.reset))
  }

  /**
   * A bit is in a mask exactly when some column of that flag asks for the
   * change, there are notes exactly when some mask is not empty, and a role
   * row never resets.
   */
  lemma RowDeltaMeaning(s: Subject, cols: seq<nat>, names: seq<string>, signs: seq<string>, n: nat)
    requires n <= |cols| && n <= |names| && n <= |signs|
    ensures var r := RowDelta(s, cols, names, signs, n);
      (forall b :: b in r.masks.add <==> exists k :: 0 <= k < n && cols[k] == b && AddsFlag(s, b, signs[k]))
      && (forall b :: b in r.masks.remove <==> exists k :: 0 <= k < n && cols[k] == b && RemovesFlag(s, b, signs[k]))
      && (forall b :: b in r.masks.reset <==> exists k :: 0 <= k < n && cols[k] == b && ResetsFlag(s, b, signs[k]))
      && (r.changes == [] <==> IsZero(r.masks))
      && (s.RolePerms? ==> r.masks.reset == {})
  {
    forall b {
      RowDeltaBit(s, cols, names, signs, n, b);
    }
    RowDeltaNotes(s, cols, names, signs, n);
  }

  /** One flag bit of the three masks of the first n columns. */
  lemma {:induction false} RowDeltaBit(s: Subject, cols: seq<nat>, names: seq<string>, signs: seq<string>, n: nat, b: nat)
    requires n <= |cols| && n <= |names| && n <= |signs|
    ensures var r := RowDelta(s, cols, names, signs, n);
      (b in r.masks.add <==> exists k :: 0 <= k < n && cols[k] == b && AddsFlag(s, b, signs[k]))
      && (b in r.masks.remove <==> exists k :: 0 <= k < n && cols[k] == b && RemovesFlag(s, b, signs[k]))
      && (b in r.masks.reset <==> exists k :: 0 <= k < n && cols[k] == b && ResetsFlag(s, b, signs[k]))
  {
    if n > 0 {
      RowDeltaBit(s, cols, names, signs, n - 1, b);
    }
  }

  /** Notes appear exactly when a mask bit does, and role rows never reset. */
  lemma {:induction false} RowDeltaNotes(s: Subject, cols: seq<nat>, names: seq<string>, signs: seq<string>, n: nat)
    requires n <= |cols| && n <= |names| && n <= |signs|
    ensures var r := RowDelta(s, cols, names, signs, n);
      (r.changes == [] <==> IsZero(r.masks)) && (s.RolePerms? ==> r.masks.reset == {})
  {
    if n > 0 {
      RowDeltaNotes(s, cols, names, signs, n - 1);
    }
  }

  /** The delta of a whole row. */
  function RowDeltaOf(s: Subject, cols: seq<nat>, names: seq<string>, signs: seq<string>): Delta
    requires |names| == |cols|
  {
    RowDelta(s, cols, names, signs, Width(cols, signs))
  }

  /** The indices 0 .. n-1: the flag columns of an exported file. */
  function Range(n: nat): (r: seq<nat>)
    ensures |r| == n && forall k :: 0 <= k < n ==> r[k] == k
  {
    if n == 0 then [] else Range(n - 1) + [n - 1]
  }

  /** A column that asks for nothing. */
  predicate Quiet(s: Subject, flag: nat, sign: string)
  {
    !AddsFlag(s, flag, sign) && !RemovesFlag(s, flag, sign) && !ResetsFlag(s, flag, sign)
  }

  /** A row whose every column is quiet contributes no note and no mask bit. */
  lemma {:induction false} QuietRow(s: Subject, cols: seq<nat>, names: seq<string>, signs: seq<string>, n: nat)
    requires n <= |cols| && n <= |names| && n <= |signs|
    requires forall k :: 0 <= k < n ==> Quiet(s, cols[k], signs[k])
    ensures RowDelta(s, cols, names, signs, n) == Delta([], NoMasks)
  {
    if n > 0 {
      QuietRow(s, cols, names, signs, n - 1);
    }
  }

  /** Re-importing an exported role row asks for no change: each column repeats what the role has. */
  lemma ExportedRoleRowIsNoop(perms: Mask, names: seq<string>)
    ensures RowDeltaOf(RolePerms(perms), Range(|names|), names, RoleSigns(|names|, perms)) == Delta([], NoMasks)
  {
    var signs := RoleSigns(|names|, perms);
    forall k | 0 <= k < |names|
      ensures Quiet(RolePerms(perms), Range(|names|)[k], signs[k])
    {
      assert Range(|names|)[k] == k;
      assert signs[k] == (if k in perms then "+" else "-");
    }
    QuietRow(RolePerms(perms), Range(|names|), names, signs, |names|);
  }

  /** Re-importing an exported overwrite row asks for no change: each column repeats the overwrite. */
  lemma ExportedOverwriteRowIsNoop(ow: Overwrite, names: seq<string>)
    ensures RowDeltaOf(OverwriteOf(ow), Range(|names|), names, OverwriteSigns(|names|, ow)) == Delta([], NoMasks)
  {
    var signs := OverwriteSigns(|names|, ow);
    forall k | 0 <= k < |names|
      ensures Quiet(OverwriteOf(ow), Range(|names|)[k], signs[k])
    {
      assert Range(|names|)[k] == k;
      assert signs[k] == (if k in ow.allow then "+" else if k in ow.deny then "-" else "/");
    }
    QuietRow(OverwriteOf(ow), Range(|names|), names, signs, |names|);
  }

  predicate DistinctFlags(cols: seq<nat>)
  {
    forall i, j :: 0 <= i < j < |cols| ==> cols[i] != cols[j]
  }

  /**
   * Applying a role row's masks: a flag marked '+' ends up set, one marked
   * '-' ends up unset, and every other flag keeps its value.
   */
  lemma RoleRowApplied(perms: Mask, cols: seq<nat>, names: seq<string>, signs: seq<string>, b: nat)
    requires |names| == |cols| && DistinctFlags(cols)
    ensures var d := RowDeltaOf(RolePerms(perms), cols, names, signs);
      var p := TweakPermissions(perms, d.masks.add, d.masks.remove);
      (forall k :: 0 <= k < Width(cols, signs) && cols[k] == b ==>
        (b in p <==> signs[k] == "+" || (signs[k] != "-" && b in perms)))
      && ((forall k :: 0 <= k < Width(cols, signs) ==> cols[k] != b) ==> (b in p <==> b in perms))
  {
    var d := RowDeltaOf(RolePerms(perms), cols, names, signs);
    RowDeltaMeaning(RolePerms(perms), cols, names, signs, Width(cols, signs));
    forall k | 0 <= k < Width(cols, signs) && cols[k] == b
      ensures b in d.masks.add <==> AddsFlag(RolePerms(perms), b, signs[k])
      ensures b in d.masks.remove <==> RemovesFlag(RolePerms(perms), b, signs[k])
    {
      assert forall j :: 0 <= j < Width(cols, signs) && cols[j] == b ==> j == k;
    }
  }

  /**
   * Applying an overwrite row's masks: '+' allows the flag, '-' denies it,
   * '/' clears both sides, and a '+' leaves a denial in place as it was.
   */
  lemma OverwriteRowApplied(ow: Overwrite, cols: seq<nat>, names: seq<string>, signs: seq<string>, k: nat)
    requires |names| == |cols| && DistinctFlags(cols) && k < Width(cols, signs)
    ensures var d := RowDeltaOf(OverwriteOf(ow), cols, names, signs);
      var r := TweakOverwrite(ow, d.masks.add, d.masks.remove, d.masks.reset);
      var b := cols[k];
      (signs[k] == "+" ==> b in r.allow && (b in r.deny <==> b in ow.deny))
      && (signs[k] == "-" ==> b in r.deny && (b in r.allow <==> b in ow.allow))
      && (signs[k] == "/" ==> b !in r.allow && b !in r.deny)
      && (signs[k] !in {"+", "-", "/"} ==> (b in r.allow <==> b in ow.allow) && (b in r.deny <==> b in ow.deny))
  {
    var d := RowDeltaOf(OverwriteOf(ow), cols, names, signs);
    RowDeltaMeaning(OverwriteOf(ow), cols, names, signs, Width(cols, signs));
    var b := cols[k];
    assert forall j :: 0 <= j < Width(cols, signs) && cols[j] == b ==> j == k;
    assert b in d.masks.add <==> AddsFlag(OverwriteOf(ow), b, signs[k]);
    assert b in d.masks.remove <==> RemovesFlag(OverwriteOf(ow), b, signs[k]);
    assert b in d.masks.reset <==> ResetsFlag(OverwriteOf(ow), b, signs[k]);
  }

  /* ---------------- Lookups ---------------- */

  /** roles[name] in {role.name: role for role in guild.roles}: the last role with that name. */
  function RoleNamed(roles: seq<Role>, name: string): (r: Option<Role>)
    ensures r.Some? ==> r.value in roles && r.value.name == name
    ensures r.None? <==> forall x :: x in roles ==> x.name != name
  {
    if roles == [] then None
    else if roles[|roles| - 1].name == name then Some(roles[|roles| - 1])
    else
      var r := RoleNamed(roles[..|roles| - 1], name);
      assert roles == roles[..|roles| - 1] + [roles[|roles| - 1]];
      r
  }

  /** channels[name] in {disambiguated_name(c): c for c in guild.channels}: the last channel with that label. */
  function ChannelLabelled(g: Guild, chs: seq<Channel>, lbl: string): (r: Option<Channel>)
    ensures r.Some? ==> r.value in chs && DisambiguatedName(g, r.value) == lbl
    ensures r.None? <==> forall c :: c in chs ==> DisambiguatedName(g, c) != lbl
  {
    if chs == [] then None
    else if DisambiguatedName(g, chs[|chs| - 1]) == lbl then Some(chs[|chs| - 1])
    else
      var r := ChannelLabelled(g, chs[..|chs| - 1], lbl);
      assert chs == chs[..|chs| - 1] + [chs[|chs| - 1]];
      r
  }

  function LookupChannel(g: Guild, lbl: string): Option<Channel>
  {
    ChannelLabelled(g, g.channels, lbl)
  }

  /** The characters of t up to its first white space. */
  function Word(t: string): (w: string)
    ensures w <= t && forall i :: 0 <= i < |w| ==> !IsSpace(w[i])
    ensures |w| < |t| ==> IsSpace(t[|w|])
  {
    if t == [] || IsSpace(t[0]) then [] else [t[0]] + Word(t[1..])
  }

  /** s.split(maxsplit=1)[0]; None where split() gives an empty list. */
  function FirstWord(s: string): (r: Option<string>)
    ensures r.Some? ==> r.value != [] && forall i :: 0 <= i < |r.value| ==> !IsSpace(r.value[i])
    ensures r.None? <==> forall i :: 0 <= i < |s| ==> IsSpace(s[i])
  {
    var t := LStrip(s);
    if t == [] then None else Some(Word(t))
  }

  /** The Role/User cell of an overwrite row. */
  function ParseTarget(g: Guild, cell: string, line: nat): (r: Result<Target, ImportError>)
    ensures r.Ok? && r.value.RoleTarget? ==>
      exists role :: role in g.roles && role.id == r.value.id && cell == "Role " + role.name
    ensures r.Ok? && r.value.MemberTarget? ==>
      "User " <= cell && FirstWord(cell[5..]).Some? && ParseInt(FirstWord(cell[5..]).value).Some?
      && ParseInt(FirstWord(cell[5..]).value).value == r.value.id
      && exists m :: m in g.members && m.id == r.value.id
    ensures r.Err? && r.error.UnknownRole? ==>
      "Role " <= cell && r.error.name == cell[5..] && forall x :: x in g.roles ==> x.name != cell[5..]
    ensures r == Err(MissingUserId(line)) <==> "User " <= cell && FirstWord(cell[5..]).None?
    ensures r == Err(ExpectedUserId(line)) <==>
      "User " <= cell && FirstWord(cell[5..]).Some? && ParseInt(FirstWord(cell[5..]).value).None?
    ensures r.Err? && r.error.NoSuchMember? ==>
      "User " <= cell && FirstWord(cell[5..]).Some? && ParseInt(FirstWord(cell[5..]).value) == Some(r.error.id)
      && forall m :: m in g.members ==> m.id != r.error.id
    ensures r == Err(ExpectedRoleOrUser(line)) <==> !("Role " <= cell) && !("User " <= cell)
  {
    if "Role " <= cell then
      assert !("User " <= cell) by { assert cell[0] == 'R'; }
      match RoleNamed(g.roles, cell[5..])
      case None => Err(UnknownRole(line, cell[5..]))
      case Some(role) =>
        assert cell == "Role " + role.name;
        Ok(RoleTarget(role.id))
    else if "User " <= cell then
      match FirstWord(cell[5..])
      case None => Err(MissingUserId(line))
      case Some(w) =>
        match ParseInt(w)
        case None => Err(ExpectedUserId(line))
        case Some(id) =>
          match FindMember(g.members, id)
          case None => Err(NoSuchMember(line, id))
          case Some(m) => Ok(MemberTarget(m.id))
    else Err(ExpectedRoleOrUser(line))
  }

  /* ---------------- Notes ---------------- */

  function TargetMention(t: Target): string
  {
    match t
    case RoleTarget(id) => RoleMention(id)
    case MemberTarget(id) => UserMention(id)
  }

  /** "{!M}: {}" */
  function RoleNote(roleId: nat, changes: seq<string>): string
  {
    RoleMention(roleId) + ": " + Join(", ", changes)
  }

  /** "{!c} {!M}: {}" or "{!c} {!m}: {}" */
  function OverwriteNote(c: Channel, t: Target, changes: seq<string>): string
  {
    ChannelLink(c.id) + " " + TargetMention(t) + ": " + Join(", ", changes)
  }

  /** "{!c} remove {!M}" or "{!c} remove {!m}" */
  function RemoveNote(c: Channel, t: Target): string
  {
    ChannelLink(c.id) + " remove " + TargetMention(t)
  }

  /** "Sync {!c} with {!c}" */
  function SyncNote(c: Channel, categoryId: nat): string
  {
    "Sync " + ChannelLink(c.id) + " with " + ChannelLink(categoryId)
  }

  /**
   * "Move {!c} to {!c}": the category None is not a channel, so the
   * conversion fails and there is no note.
   */
  function MoveNote(c: Channel, category: Option<Channel>): (r: Option<string>)
    ensures r.Some? <==> category.Some?
    ensures category.Some? ==> r == Some("Move " + ChannelLink(c.id) + " to " + ChannelLink(category.value.id))
  {
    var to := match category case Some(k) => ChannelValue(k.id, k.name) case None => TextValue("None");
    match ConvertField(to, 'c')
    case Some(Plain(s)) => Some("Move " + ChannelLink(c.id) + " to " + s)
    case _ => None
  }

  /* ---------------- The row loop ---------------- */

  /**
   * The variables of the row loop: output, actions, new_overwrites (keys and
   * inner keys in insertion order), want_sync (in insertion order),
   * seen_moved, and the last value of `channel`.
   */
  datatype ImportState = ImportState(
    notes: seq<string>,
    actions: seq<Action>,
    newOverwrites: seq<(Channel, seq<(Target, Masks)>)>,
    wantSync: seq<Channel>,
    seenMoved: map<Channel, Option<nat>>,
    lastChannel: Option<Channel>)

  const Start := ImportState([], [], [], [], map[], None)

  /** new_overwrites[channel] on the defaultdict: adds an empty entry when absent. */
  function Touch(no: seq<(Channel, seq<(Target, Masks)>)>, c: Channel): seq<(Channel, seq<(Target, Masks)>)>
  {
    if HasKey(no, c) then no else no + [(c, [])]
  }

  /** new_overwrites[channel][target] = masks */
  function SetOverwrite(no: seq<(Channel, seq<(Target, Masks)>)>, c: Channel, t: Target, m: Masks)
    : seq<(Channel, seq<(Target, Masks)>)>
  {
    var inner := match Get(no, c) case Some(es) => es case None => [];
    Put(no, c, Put(inner, t, m))
  }

  function AddOnce(xs: seq<Channel>, c: Channel): (r: seq<Channel>)
    ensures c in r && forall x :: x in xs ==> x in r
  {
    if c in xs then xs else xs + [c]
  }

  /** A role row: look the role up and record its note and edit. */
  function RoleRowStep(g: Guild, cols: seq<nat>, names: seq<string>, s: ImportState, row: seq<string>, line: nat)
    : (r: Result<ImportState, ImportError>)
    requires |names| == |cols| && |row| >= 3
  {
    if !("Role " <= row[2]) then Err(ExpectedRole(line))
    else
      match RoleNamed(g.roles, row[2][5..])
      case None => Err(UnknownRole(line, row[2][5..]))
      case Some(role) =>
        var d := RowDeltaOf(RolePerms(role.perms), cols, names, row[3..]);
        Ok(s.(notes := s.notes + (if d.changes != [] then [RoleNote(role.id, d.changes)] else []),
              actions := s.actions + (if d.masks.add != {} || d.masks.remove != {}
                                      then [EditRole(role.id, d.masks.add, d.masks.remove)] else [])))
  }

  /** The category cell of a channel row: empty, or the label of a category. */
  function CategoryCell(g: Guild, cell: string, line: nat): (r: Result<Option<Channel>, ImportError>)
    ensures r.Ok? && r.value.Some? ==> r.value.value in g.channels && r.value.value.kind == CategoryKind
  {
    if cell == "" then Ok(None)
    else match LookupChannel(g, cell)
      case None => Err(UnknownChannel(line, cell))
      case Some(k) => if k.kind != CategoryKind then Err(NotACategory(line, cell)) else Ok(Some(k))
  }

  /**
   * The first two cells of a channel row: [category, ""] names a category;
   * [category or "", channel] names a channel that is not a category.
   */
  function ResolveChannelRow(g: Guild, row: seq<string>, line: nat): (r: Result<(Option<Channel>, Channel), ImportError>)
    requires |row| >= 3
    ensures r.Ok? ==> r.value.1 in g.channels && (r.value.1.kind == CategoryKind <==> row[1] == "")
    ensures r.Ok? && r.value.0.Some? ==> r.value.0.value in g.channels && r.value.0.value.kind == CategoryKind
  {
    if row[1] == "" then
      match LookupChannel(g, row[0])
      case None => Err(UnknownChannel(line, row[0]))
      case Some(c) => if c.kind != CategoryKind then Err(NotACategory(line, row[0])) else Ok((None, c))
    else
      match CategoryCell(g, row[0], line)
      case Err(e) => Err(e)
      case Ok(cat) =>
        match LookupChannel(g, row[1])
        case None => Err(UnknownChannel(line, row[1]))
        case Some(c) => if c.kind == CategoryKind then Err(IsACategory(line, row[1])) else Ok((cat, c))
  }

  function CategoryId(category: Option<Channel>): Option<nat>
  {
    match category case Some(k) => Some(k.id) case None => None
  }

  /** A channel listed under another category is moved there, once per channel. */
  function MoveStep(s: ImportState, channel: Channel, category: Option<Channel>, line: nat)
    : (r: Result<ImportState, ImportError>)
  {
    if channel.kind != CategoryKind && channel.category != CategoryId(category) && channel !in s.seenMoved then
      match MoveNote(channel, category)
      case None => Err(FormatFailure(line))
      case Some(note) =>
        Ok(s.(seenMoved := s.seenMoved[channel := CategoryId(category)],
              notes := s.notes + [note],
              actions := s.actions + [MoveChannel(channel.id, category.value.id)]))
    else Ok(s)
  }

  /** The Role/User cell of a channel row: "(synced)", an overwrite, or nothing. */
  function TargetStep(g: Guild, cols: seq<nat>, names: seq<string>, s: ImportState, channel: Channel,
                      row: seq<string>, line: nat): (r: Result<ImportState, ImportError>)
    requires |names| == |cols| && |row| >= 3
  {
    if row[2] == "(synced)" && channel.kind != CategoryKind then
      Ok(s.(wantSync := AddOnce(s.wantSync, channel)))
    else if row[2] != "" then
      match ParseTarget(g, row[2], line)
      case Err(e) => Err(e)
      case Ok(t) =>
        var d := RowDeltaOf(OverwriteOf(OverwritesFor(channel, t)), cols, names, row[3..]);
        Ok(s.(notes := s.notes + (if d.changes != [] then [OverwriteNote(channel, t, d.changes)] else []),
              newOverwrites := SetOverwrite(s.newOverwrites, channel, t, d.masks)))
    else Ok(s.(newOverwrites := Touch(s.newOverwrites, channel)))
  }

  function ChannelRowStep(g: Guild, cols: seq<nat>, names: seq<string>, s: ImportState, row: seq<string>, line: nat)
    : (r: Result<ImportState, ImportError>)
    requires |names| == |cols| && |row| >= 3
  {
    match ResolveChannelRow(g, row, line)
    case Err(e) => Err(e)
    case Ok((category, channel)) =>
      match MoveStep(s.(lastChannel := Some(channel)), channel, category, line)
      case Err(e) => Err(e)
      case Ok(s') => TargetStep(g, cols, names, s', channel, row, line)
  }

  /** One data row, read from line `line` of the file. */
  function RowStep(g: Guild, cols: seq<nat>, names: seq<string>, s: ImportState, row: seq<string>, line: nat)
    : (r: Result<ImportState, ImportError>)
    requires |names| == |cols|
  {
    if |row| < 3 then Err(InvalidRow(line))
    else if row[0] == "" && row[1] == "" then RoleRowStep(g, cols, names, s, row, line)
    else ChannelRowStep(g, cols, names, s, row, line)
  }

  /** The row loop over `rows`, the first of which is on line `line`; it stops at the first error. */
  function FoldRows(g: Guild, cols: seq<nat>, names: seq<string>, s: ImportState, rows: seq<seq<string>>, line: nat)
    : (r: Result<ImportState, ImportError>)
    requires |names| == |cols|
    decreases |rows|
  {
    if rows == [] then Ok(s)
    else
      match FoldRows(g, cols, names, s, rows[..|rows| - 1], line)
      case Err(e) => Err(e)
      case Ok(t) => RowStep(g, cols, names, t, rows[|rows| - 1], line + |rows| - 1)
  }

  /* ---------------- The overwrite pass ---------------- */

  /** output, actions and overwrites_changed (as channel ids) during the passes after the row loop. */
  datatype PassState = PassState(notes: seq<string>, actions: seq<Action>, changed: set<nat>)

  /** t has an overwrite in the channel. */
  predicate IsLive(live: seq<(Target, Overwrite)>, t: Target)
  {
    exists i :: 0 <= i < |live| && live[i].0 == t
  }

  /** The remove notes for the live targets of a channel that the file does not list, in the channel's order. */
  function Removals(c: Channel, live: seq<(Target, Overwrite)>, entries: seq<(Target, Masks)>): seq<string>
    decreases |live|
  {
    if live == [] then []
    else
      var t := live[|live| - 1].0;
      Removals(c, live[..|live| - 1], entries) + (if HasKey(entries, t) then [] else [RemoveNote(c, t)])
  }

  /** Removals holds a remove note for exactly the live targets that have no entry. */
  lemma {:induction false} RemovalsMeaning(c: Channel, live: seq<(Target, Overwrite)>, entries: seq<(Target, Masks)>)
    ensures forall x :: x in Removals(c, live, entries) <==>
      exists t :: IsLive(live, t) && !HasKey(entries, t) && x == RemoveNote(c, t)
    decreases |live|
  {
    if live != [] {
      var init := live[..|live| - 1];
      var t0 := live[|live| - 1].0;
      RemovalsMeaning(c, init, entries);
      forall t
        ensures IsLive(live, t) <==> t == t0 || IsLive(init, t)
      {
        if IsLive(init, t) {
          var i :| 0 <= i < |init| && init[i].0 == t;
          assert live[i].0 == t;
        }
        if IsLive(live, t) && t != t0 {
          var i :| 0 <= i < |live| && live[i].0 == t;
          assert init[i].0 == t;
        }
      }
    }
  }

  predicate AnyChange(entries: seq<(Target, Masks)>)
  {
    exists i :: 0 <= i < |entries| && !IsZero(entries[i].1)
  }

  /** overwrites_changed.add(channel) when b holds. */
  function Mark(changed: set<nat>, id: nat, b: bool): set<nat>
  {
    if b then changed + {id} else changed
  }

  /**
   * One touched channel: it is marked changed when one of its masks is not
   * empty; each live target the file does not list gets a remove note and
   * marks it changed; and an overwrite replacement is queued whether or not
   * anything changes.
   */
  function ChannelDiff(chan: Channel, entries: seq<(Target, Masks)>, p: PassState): (r: PassState)
  {
    var gone := Removals(chan, chan.overwrites, entries);
    PassState(p.notes + gone,
      p.actions + [ReplaceOverwrites(chan, entries)],
      Mark(Mark(p.changed, chan.id, AnyChange(entries)), chan.id, gone != []))
  }

  /**
   * The loop over new_overwrites, skipping channels that are to be synced
   * and channels of other kinds (the check on the loop variable).
   */
  function OverwritePass(wantSync: seq<Channel>, entries: seq<(Channel, seq<(Target, Masks)>)>, p: PassState)
    : (r: PassState)
    decreases |entries|
  {
    if entries == [] then p
    else
      var q := OverwritePass(wantSync, entries[..|entries| - 1], p);
      var (chan, es) := entries[|entries| - 1];
      if chan in wantSync || chan.kind == OtherKind then q else ChannelDiff(chan, es, q)
  }

  /**
   * The same loop as written: the skip test reads `channel`, which still
   * holds the last channel of the row loop until the first channel is
   * processed, and then the previously processed one.
   */
  function OverwritePassAsWritten(wantSync: seq<Channel>, entries: seq<(Channel, seq<(Target, Masks)>)>,
                                  p: PassState, channel: Channel): (r: (PassState, Channel))
    decreases |entries|
  {
    if entries == [] then (p, channel)
    else
      var (q, cur) := OverwritePassAsWritten(wantSync, entries[..|entries| - 1], p, channel);
      var (chan, es) := entries[|entries| - 1];
      if cur in wantSync || chan.kind == OtherKind then (q, cur) else (ChannelDiff(chan, es, q), chan)
  }

  /* ---------------- The sync pass ---------------- */

  predicate IsSyncKind(c: Channel)
  {
    c.kind == TextKind || c.kind == StoreKind || c.kind == VoiceKind || c.kind == StageKind
  }

  /** seen_moved.get(channel, channel.category) */
  function NewCategory(seenMoved: map<Channel, Option<nat>>, c: Channel): Option<nat>
  {
    if c in seenMoved then seenMoved[c] else c.category
  }

  /**
   * The loop over want_sync: a channel without a category cannot be synced;
   * otherwise it is synced when it is not synced now, was moved, or its
   * category's overwrites change.
   */
  function SyncPass(wantSync: seq<Channel>, seenMoved: map<Channel, Option<nat>>, changed: set<nat>,
                    p: PassState): (r: Result<PassState, ImportError>)
    decreases |wantSync|
  {
    if wantSync == [] then Ok(p)
    else
      match SyncPass(wantSync[..|wantSync| - 1], seenMoved, changed, p)
      case Err(e) => Err(e)
      case Ok(q) =>
        var chan := wantSync[|wantSync| - 1];
        if !IsSyncKind(chan) then Ok(q)
        else
          match NewCategory(seenMoved, chan)
          case None => Err(CannotSync(chan.id))
          case Some(k) =>
            if !chan.synced || chan in seenMoved || k in changed then
              Ok(q.(notes := q.notes + [SyncNote(chan, k)], actions := q.actions + [SyncChannel(chan.id)]))
            else Ok(q)
  }

  /* ---------------- Packing notes into messages ---------------- */

  const MessageLimit := 2000

  /**
   * The packing loop after `n` notes: the messages sent so far, the text
   * being built, and (to state what was packed) the notes of each sent
   * message and of the text.
   */
  datatype Packing = Packing(sent: seq<string>, text: string, groups: seq<seq<string>>, group: seq<string>)

  function PackFold(notes: seq<string>): (r: Packing)
    decreases |notes|
  {
    if notes == [] then Packing([], "", [], [])
    else
      var p := PackFold(notes[..|notes| - 1]);
      var out := notes[|notes| - 1];
      if |p.text| + 1 + |out| > MessageLimit then Packing(p.sent + [p.text], out, p.groups + [p.group], [out])
      else Packing(p.sent, p.text + "\n" + out, p.groups, p.group + [out])
  }

  /** The messages that carry the notes. */
  function Messages(notes: seq<string>): seq<string>
  {
    var p := PackFold(notes);
    p.sent + [p.text]
  }

  /** The notes carried by each message. */
  function Groups(notes: seq<string>): seq<seq<string>>
  {
    var p := PackFold(notes);
    p.groups + [p.group]
  }

  /* ---------------- The whole import ---------------- */

  /**
   * importperms on the rows of the attached file, after the guild and
   * attachment checks: the header, the row loop, the overwrite pass, the
   * sync pass, then either "No changes." or the packed notes with the
   * actions to confirm.
   */
  function Import(g: Guild, flags: seq<string>, rows: seq<seq<string>>): (r: Result<Outcome, ImportError>)
  {
    if rows == [] then Err(MissingHeader)
    else
      match ParseHeader(flags, rows[0])
      case Err(e) => Err(e)
      case Ok(cols) =>
        match FoldRows(g, cols, rows[0][3..], Start, rows[1..], 2)
        case Err(e) => Err(e)
        case Ok(s) =>
          var p := OverwritePass(s.wantSync, s.newOverwrites, PassState(s.notes, s.actions, {}));
          match SyncPass(s.wantSync, s.seenMoved, p.changed, p)
          case Err(e) => Err(e)
          case Ok(q) => if q.notes == [] then Ok(NoChanges) else Ok(Confirm(Messages(q.notes), q.actions))
  }

  /**
   * The same import with the overwrite pass as written, which starts from
   * the row loop's last `channel`. Without a channel row new_overwrites is
   * empty and the loop never reads it.
   */
  function ImportAsWritten(g: Guild, flags: seq<string>, rows: seq<seq<string>>): (r: Result<Outcome, ImportError>)
    ensures rows == [] ==> r == Err(MissingHeader)
  {
    if rows == [] then Err(MissingHeader)
    else
      match ParseHeader(flags, rows[0])
      case Err(e) => Err(e)
      case Ok(cols) =>
        match FoldRows(g, cols, rows[0][3..], Start, rows[1..], 2)
        case Err(e) => Err(e)
        case Ok(s) =>
          var start := PassState(s.notes, s.actions, {});
          var p := match s.lastChannel
            case None => OverwritePass(s.wantSync, s.newOverwrites, start)
            case Some(c) => OverwritePassAsWritten(s.wantSync, s.newOverwrites, start, c).0;
          match SyncPass(s.wantSync, s.seenMoved, p.changed, p)
          case Err(e) => Err(e)
          case Ok(q) => if q.notes == [] then Ok(NoChanges) else Ok(Confirm(Messages(q.notes), q.actions))
  }

  /* ---------------- The loops, run imperatively ---------------- */

  /** The loop over header[3:] that looks up each flag name. */
  method ReadHeader(flags: seq<string>, header: seq<string>) returns (r: Result<seq<nat>, ImportError>)
    ensures r == ParseHeader(flags, header)
  {
    if |header| < 3 || header[0] != "Category" || header[1] != "Channel" || header[2] != "Role/User" {
      return Err(InvalidHeader);
    }
    var names := header[3..];
    var cols: seq<nat> := [];
    for k := 0 to |names|
      invariant |cols| == k && forall j :: 0 <= j < k ==> FlagIndex(flags, names[j]) == Some(cols[j])
    {
      var f := FlagIndex(flags, names[k]);
      if f.None? {
        FlagColumnsUnknown(flags, names, k);
        return Err(UnknownPermission(names[k]));
      }
      cols := cols + [f.value];
    }
    FlagColumnsAt(flags, names, cols);
    return Ok(cols);
  }

  /** The header loop stops at the first unknown name. */
  lemma {:induction false} FlagColumnsUnknown(flags: seq<string>, names: seq<string>, k: nat)
    requires k < |names| && FlagIndex(flags, names[k]).None?
    requires forall j :: 0 <= j < k ==> FlagIndex(flags, names[j]).Some?
    ensures FlagColumns(flags, names) == Err(UnknownPermission(names[k]))
    decreases k
  {
    if k > 0 {
      assert FlagIndex(flags, names[0]).Some?;
      FlagColumnsUnknown(flags, names[1..], k - 1);
    }
  }

  /** The zip loop over flags and signs that accumulates the masks with |=. */
  method ScanRow(s: Subject, cols: seq<nat>, names: seq<string>, signs: seq<string>) returns (d: Delta)
    requires |names| == |cols|
    ensures d == RowDeltaOf(s, cols, names, signs)
  {
    var changes: seq<string> := [];
    var add: Mask, remove: Mask, reset: Mask := {}, {}, {};
    for k := 0 to Width(cols, signs)
      invariant Delta(changes, Masks(add, remove, reset)) == RowDelta(s, cols, names, signs, k)
    {
      RowDeltaStep(s, cols, names, signs, k);
      changes, add, remove, reset := ScanColumn(s, cols[k], names[k], signs[k], changes, add, remove, reset);
    }
    d := Delta(changes, Masks(add, remove, reset));
  }

  /** One iteration of the zip loop: the three conditional updates for one flag. */
  method ScanColumn(s: Subject, flag: nat, name: string, sign: string,
                    changes: seq<string>, add: Mask, remove: Mask, reset: Mask)
    returns (changes': seq<string>, add': Mask, remove': Mask, reset': Mask)
    ensures var c := ColumnDelta(s, flag, name, sign);
      changes' == changes + c.changes && add' == add + c.masks.add
      && remove' == remove + c.masks.remove && reset' == reset + c.masks.reset
  {
    ghost var a1: seq<string> := if AddsFlag(s, flag, sign) then [[Check] + name] else [];
    ghost var a2: seq<string> := if RemovesFlag(s, flag, sign) then [[Cross] + name] else [];
    ghost var a3: seq<string> := if ResetsFlag(s, flag, sign) then [[Square] + name] else [];
    changes', add', remove', reset' := changes, add, remove, reset;
    if AddsFlag(s, flag, sign) {
      changes' := changes' + [[Check] + name];
      add' := add' + {flag};
    }
    assert changes' == changes + a1;
    if RemovesFlag(s, flag, sign) {
      changes' := changes' + [[Cross] + name];
      remove' := remove' + {flag};
    }
    AppendAssoc(changes, a1, a2);
    assert changes' == changes + (a1 + a2);
    if ResetsFlag(s, flag, sign) {
      changes' := changes' + [[Square] + name];
      reset' := reset' + {flag};
    }
    AppendAssoc(changes, a1 + a2, a3);
  }

  lemma RowDeltaStep(s: Subject, cols: seq<nat>, names: seq<string>, signs: seq<string>, k: nat)
    requires k < |cols| && k < |names| && k < |signs|
    ensures var d, c := RowDelta(s, cols, names, signs, k), ColumnDelta(s, cols[k], names[k], signs[k]);
      RowDelta(s, cols, names, signs, k + 1) == Delta(d.changes + c.changes,
        Masks(d.masks.add + c.masks.add, d.masks.remove + c.masks.remove, d.masks.reset + c.masks.reset))
  {
  }

  /** The body of the row loop. */
  method ProcessRow(g: Guild, cols: seq<nat>, names: seq<string>, s: ImportState, row: seq<string>, line: nat)
    returns (r: Result<ImportState, ImportError>)
    requires |names| == |cols|
    ensures r == RowStep(g, cols, names, s, row, line)
  {
    if |row| < 3 {
      return Err(InvalidRow(line));
    }
    if row[0] == "" && row[1] == "" {
      if !("Role " <= row[2]) {
        return Err(ExpectedRole(line));
      }
      var role := RoleNamed(g.roles, row[2][5..]);
      if role.None? {
        return Err(UnknownRole(line, row[2][5..]));
      }
      var d := ScanRow(RolePerms(role.value.perms), cols, names, row[3..]);
      var notes, actions := s.notes, s.actions;
      assert s.notes + [] == s.notes && s.actions + [] == s.actions;
      if d.changes != [] {
        notes := notes + [RoleNote(role.value.id, d.changes)];
      }
      if d.masks.add != {} || d.masks.remove != {} {
        actions := actions + [EditRole(role.value.id, d.masks.add, d.masks.remove)];
      }
      return Ok(s.(notes := notes, actions := actions));
    }
    var resolved := ResolveChannelRow(g, row, line);
    if resolved.Err? {
      return Err(resolved.error);
    }
    var category, channel := resolved.value.0, resolved.value.1;
    var moved := MoveStep(s.(lastChannel := Some(channel)), channel, category, line);
    if moved.Err? {
      return Err(moved.error);
    }
    var st := moved.value;
    if row[2] == "(synced)" && channel.kind != CategoryKind {
      r := Ok(st.(wantSync := AddOnce(st.wantSync, channel)));
    } else if row[2] != "" {
      var target := ParseTarget(g, row[2], line);
      if target.Err? {
        return Err(target.error);
      }
      var d := ScanRow(OverwriteOf(OverwritesFor(channel, target.value)), cols, names, row[3..]);
      var notes := st.notes;
      assert st.notes + [] == st.notes;
      if d.changes != [] {
        notes := notes + [OverwriteNote(channel, target.value, d.changes)];
      }
      r := Ok(st.(notes := notes, newOverwrites := SetOverwrite(st.newOverwrites, channel, target.value, d.masks)));
    } else {
      r := Ok(st.(newOverwrites := Touch(st.newOverwrites, channel)));
    }
  }

  /** Once a prefix of the rows fails, the whole file fails with the same error. */
  lemma {:induction false} FoldRowsAbort(g: Guild, cols: seq<nat>, names: seq<string>, s: ImportState,
                                         rows: seq<seq<string>>, line: nat, k: nat)
    requires |names| == |cols| && k <= |rows|
    requires FoldRows(g, cols, names, s, rows[..k], line).Err?
    ensures FoldRows(g, cols, names, s, rows, line) == FoldRows(g, cols, names, s, rows[..k], line)
    decreases |rows|
  {
    if k < |rows| {
      var init := rows[..|rows| - 1];
      assert init[..k] == rows[..k];
      FoldRowsAbort(g, cols, names, s, init, line, k);
    } else {
      assert rows[..k] == rows;
    }
  }

  /** The row loop: `for row in reader`, stopping at the first error. */
  method ImportRows(g: Guild, cols: seq<nat>, names: seq<string>, rows: seq<seq<string>>)
    returns (r: Result<ImportState, ImportError>)
    requires |names| == |cols|
    ensures r == FoldRows(g, cols, names, Start, rows, 2)
  {
    var s := Start;
    for i := 0 to |rows|
      invariant FoldRows(g, cols, names, Start, rows[..i], 2) == Ok(s)
    {
      assert rows[..i + 1][..i] == rows[..i];
      var next := ProcessRow(g, cols, names, s, rows[i], 2 + i);
      if next.Err? {
        FoldRowsAbort(g, cols, names, Start, rows, 2, i + 1);
        return next;
      }
      s := next.value;
    }
    assert rows[..|rows|] == rows;
    return Ok(s);
  }

  /** The body of the overwrite pass for one channel. */
  method DiffChannel(chan: Channel, entries: seq<(Target, Masks)>, p: PassState) returns (r: PassState)
    ensures r == ChannelDiff(chan, entries, p)
  {
    var changed := MarkIfChanged(chan.id, entries, p.changed);
    var notes;
    notes, changed := RemoveUnlisted(chan, entries, p.notes, changed);
    r := PassState(notes, p.actions + [ReplaceOverwrites(chan, entries)], changed);
  }

  lemma AppendAssoc<T>(a: seq<T>, b: seq<T>, c: seq<T>)
    ensures (a + b) + c == a + (b + c)
  {
  }

  lemma RemovalsStep(c: Channel, live: seq<(Target, Overwrite)>, entries: seq<(Target, Masks)>, i: nat)
    requires i < |live|
    ensures Removals(c, live[..i + 1], entries)
      == Removals(c, live[..i], entries) + (if HasKey(entries, live[i].0) then [] else [RemoveNote(c, live[i].0)])
  {
    assert live[..i + 1][..i] == live[..i];
  }

  /** The loop that marks the channel changed at the first non-zero mask. */
  method MarkIfChanged(id: nat, entries: seq<(Target, Masks)>, changed: set<nat>) returns (r: set<nat>)
    ensures r == Mark(changed, id, AnyChange(entries))
  {
    r := changed;
    var j := 0;
    while j < |entries|
      invariant 0 <= j <= |entries| && r == changed
      invariant forall k :: 0 <= k < j ==> IsZero(entries[k].1)
    {
      if !IsZero(entries[j].1) {
        r := r + {id};
        break;
      }
      j := j + 1;
    }
  }

  /** The loop over the channel's overwrites: a remove note for each target the file does not list. */
  method RemoveUnlisted(chan: Channel, entries: seq<(Target, Masks)>, notes: seq<string>, changed: set<nat>)
    returns (notes': seq<string>, changed': set<nat>)
    ensures notes' == notes + Removals(chan, chan.overwrites, entries)
    ensures changed' == Mark(changed, chan.id, Removals(chan, chan.overwrites, entries) != [])
  {
    notes', changed' := notes, changed;
    var live := chan.overwrites;
    for i := 0 to |live|
      invariant notes' == notes + Removals(chan, live[..i], entries)
      invariant changed' == Mark(changed, chan.id, Removals(chan, live[..i], entries) != [])
    {
      var t := live[i].0;
      RemovalsStep(chan, live, entries, i);
      if !HasKey(entries, t) {
        AppendAssoc(notes, Removals(chan, live[..i], entries), [RemoveNote(chan, t)]);
        notes' := notes' + [RemoveNote(chan, t)];
        changed' := changed' + {chan.id};
      } else {
        assert Removals(chan, live[..i], entries) + [] == Removals(chan, live[..i], entries);
      }
    }
    assert live[..|live|] == live;
  }

  /** The loop over new_overwrites. */
  method RunOverwritePass(wantSync: seq<Channel>, entries: seq<(Channel, seq<(Target, Masks)>)>, p: PassState)
    returns (r: PassState)
    ensures r == OverwritePass(wantSync, entries, p)
  {
    r := p;
    for i := 0 to |entries|
      invariant r == OverwritePass(wantSync, entries[..i], p)
    {
      assert entries[..i + 1][..i] == entries[..i];
      var chan := entries[i].0;
      if !(chan in wantSync || chan.kind == OtherKind) {
        r := DiffChannel(chan, entries[i].1, r);
      }
    }
    assert entries[..|entries|] == entries;
  }

  lemma {:induction false} SyncPassAbort(wantSync: seq<Channel>, seenMoved: map<Channel, Option<nat>>,
                                         changed: set<nat>, p: PassState, k: nat)
    requires k <= |wantSync| && SyncPass(wantSync[..k], seenMoved, changed, p).Err?
    ensures SyncPass(wantSync, seenMoved, changed, p) == SyncPass(wantSync[..k], seenMoved, changed, p)
    decreases |wantSync|
  {
    if k < |wantSync| {
      var init := wantSync[..|wantSync| - 1];
      assert init[..k] == wantSync[..k];
      SyncPassAbort(init, seenMoved, changed, p, k);
    } else {
      assert wantSync[..k] == wantSync;
    }
  }

  /** The loop over want_sync. */
  method RunSyncPass(wantSync: seq<Channel>, seenMoved: map<Channel, Option<nat>>, changed: set<nat>, p: PassState)
    returns (r: Result<PassState, ImportError>)
    ensures r == SyncPass(wantSync, seenMoved, changed, p)
  {
    var q := p;
    for i := 0 to |wantSync|
      invariant SyncPass(wantSync[..i], seenMoved, changed, p) == Ok(q)
    {
      assert wantSync[..i + 1][..i] == wantSync[..i];
      var chan := wantSync[i];
      if IsSyncKind(chan) {
        var newCategory := NewCategory(seenMoved, chan);
        if newCategory.None? {
          SyncPassAbort(wantSync, seenMoved, changed, p, i + 1);
          return Err(CannotSync(chan.id));
        }
        if !chan.synced || chan in seenMoved || newCategory.value in changed {
          q := q.(notes := q.notes + [SyncNote(chan, newCategory.value)], actions := q.actions + [SyncChannel(chan.id)]);
        }
      }
    }
    assert wantSync[..|wantSync|] == wantSync;
    return Ok(q);
  }

  /** The loop that sends the notes in messages of at most 2000 characters. */
  method PackNotes(notes: seq<string>) returns (messages: seq<string>)
    ensures messages == Messages(notes)
  {
    var sent: seq<string> := [];
    var text := "";
    for i := 0 to |notes|
      invariant PackFold(notes[..i]).sent == sent && PackFold(notes[..i]).text == text
    {
      assert notes[..i + 1][..i] == notes[..i];
      var out := notes[i];
      if |text| + 1 + |out| > MessageLimit {
        sent := sent + [text];
        text := out;
      } else {
        text := text + "\n" + out;
      }
    }
    assert notes[..|notes|] == notes;
    messages := sent + [text];
  }

  /** importperms from the header to the messages and actions. */
  method ImportPerms(g: Guild, flags: seq<string>, rows: seq<seq<string>>) returns (r: Result<Outcome, ImportError>)
    ensures r == Import(g, flags, rows)
  {
    if rows == [] {
      return Err(MissingHeader);
    }
    var header := ReadHeader(flags, rows[0]);
    if header.Err? {
      return Err(header.error);
    }
    var state := ImportRows(g, header.value, rows[0][3..], rows[1..]);
    if state.Err? {
      return Err(state.error);
    }
    var s := state.value;
    var p := RunOverwritePass(s.wantSync, s.newOverwrites, PassState(s.notes, s.actions, {}));
    var q := RunSyncPass(s.wantSync, s.seenMoved, p.changed, p);
    if q.Err? {
      return Err(q.error);
    }
    if q.value.notes == [] {
      return Ok(NoChanges);
    }
    var messages := PackNotes(q.value.notes);
    return Ok(Confirm(messages, q.value.actions));
  }

  /* ---------------- What the passes promise ---------------- */

  /** The overwrites the queued edit installs: one per listed target, each tweaked by its masks. */
  function Replaced(chan: Channel, entries: seq<(Target, Masks)>): (r: seq<(Target, Overwrite)>)
    ensures |r| == |entries|
  {
    if entries == [] then []
    else
      var (t, m) := entries[0];
      [(t, TweakOverwrite(OverwritesFor(chan, t), m.add, m.remove, m.reset))] + Replaced(chan, entries[1..])
  }

  /**
   * The queued edit leaves the channel with exactly the listed targets, and
   * a target listed with empty masks keeps the overwrite it had.
   */
  lemma {:induction false} ReplacedMeaning(chan: Channel, entries: seq<(Target, Masks)>)
    ensures forall t :: IsLive(Replaced(chan, entries), t) <==> HasKey(entries, t)
    ensures forall i :: 0 <= i < |entries| && IsZero(entries[i].1) ==>
      Replaced(chan, entries)[i] == (entries[i].0, OverwritesFor(chan, entries[i].0))
  {
    if entries != [] {
      ReplacedMeaning(chan, entries[1..]);
      var r := Replaced(chan, entries);
      var ow := OverwritesFor(chan, entries[0].0);
      var m := entries[0].1;
      assert IsZero(m) ==> TweakOverwrite(ow, m.add, m.remove, m.reset) == ow by {
        if IsZero(m) {
          assert (ow.allow - {}) + {} == ow.allow;
          assert (ow.deny - {}) + {} == ow.deny;
        }
      }
      assert r[1..] == Replaced(chan, entries[1..]);
      assert r[0].0 == entries[0].0;
      forall t
        ensures IsLive(r, t) <==> HasKey(entries, t)
      {
        var tail := Replaced(chan, entries[1..]);
        if IsLive(r, t) && t != entries[0].0 {
          var i :| 0 <= i < |r| && r[i].0 == t;
          assert tail[i - 1].0 == t;
          assert IsLive(tail, t);
          var k := KeyIndex(entries[1..], t).value;
          assert entries[k + 1].0 == t;
        }
        if HasKey(entries, t) && t != entries[0].0 {
          var i := KeyIndex(entries, t).value;
          assert entries[1..][i - 1].0 == t;
          assert HasKey(entries[1..], t);
          assert IsLive(tail, t);
          var j :| 0 <= j < |tail| && tail[j].0 == t;
          assert r[j + 1].0 == t;
        }
      }
      forall i | 0 <= i < |entries| && IsZero(entries[i].1)
        ensures r[i] == (entries[i].0, OverwritesFor(chan, entries[i].0))
      {
        if i > 0 { assert r[i] == Replaced(chan, entries[1..])[i - 1]; }
      }
    }
  }

  /**
   * For one channel: the replacement is queued, every live target the file
   * does not list gets a remove note, and the channel is marked changed
   * exactly when a mask is set or a live target is not listed.
   */
  lemma ChannelDiffMeaning(chan: Channel, entries: seq<(Target, Masks)>, p: PassState)
    ensures ChannelDiff(chan, entries, p).actions == p.actions + [ReplaceOverwrites(chan, entries)]
    ensures forall t :: IsLive(chan.overwrites, t) && !HasKey(entries, t) ==>
      RemoveNote(chan, t) in ChannelDiff(chan, entries, p).notes
    ensures ChannelDiff(chan, entries, p).changed ==
      Mark(p.changed, chan.id, AnyChange(entries) || exists t :: IsLive(chan.overwrites, t) && !HasKey(entries, t))
  {
    var gone := Removals(chan, chan.overwrites, entries);
    RemovalsMeaning(chan, chan.overwrites, entries);
    assert (gone != []) == exists t :: IsLive(chan.overwrites, t) && !HasKey(entries, t) by {
      if gone != [] {
        assert gone[0] in gone;
      }
      if exists t :: IsLive(chan.overwrites, t) && !HasKey(entries, t) {
        var t :| IsLive(chan.overwrites, t) && !HasKey(entries, t);
        assert RemoveNote(chan, t) in gone;
      }
    }
  }

  /** The overwrite pass edits the channel: it is not to be synced and is of a channel kind. */
  predicate Edited(wantSync: seq<Channel>, c: Channel)
  {
    c !in wantSync && c.kind != OtherKind
  }

  /** The action replaces an edited channel's overwrites with that channel's entries. */
  ghost predicate QueuedFor(wantSync: seq<Channel>, entries: seq<(Channel, seq<(Target, Masks)>)>, a: Action)
  {
    exists i :: 0 <= i < |entries| && Edited(wantSync, entries[i].0)
      && a == ReplaceOverwrites(entries[i].0, entries[i].1)
  }

  /**
   * The overwrite pass keeps what was queued before, queues the replacement
   * of every touched channel that it edits, and queues nothing else: each
   * action it adds replaces the overwrites of an edited channel with that
   * channel's entries, so a channel to be synced or of another kind gets no
   * replacement.
   */
  lemma {:induction false} OverwritePassQueues(wantSync: seq<Channel>, entries: seq<(Channel, seq<(Target, Masks)>)>,
                                              p: PassState)
    ensures p.actions <= OverwritePass(wantSync, entries, p).actions
    ensures forall i :: 0 <= i < |entries| && Edited(wantSync, entries[i].0) ==>
      ReplaceOverwrites(entries[i].0, entries[i].1) in OverwritePass(wantSync, entries, p).actions
    ensures forall k :: |p.actions| <= k < |OverwritePass(wantSync, entries, p).actions| ==>
      QueuedFor(wantSync, entries, OverwritePass(wantSync, entries, p).actions[k])
    decreases |entries|
  {
    if entries != [] {
      var n := |entries| - 1;
      var init := entries[..n];
      var (chan, es) := entries[n];
      OverwritePassQueues(wantSync, init, p);
      var q := OverwritePass(wantSync, init, p);
      var r := OverwritePass(wantSync, entries, p);
      assert forall i :: 0 <= i < n ==> init[i] == entries[i];
      if Edited(wantSync, chan) {
        assert r.actions == q.actions + [ReplaceOverwrites(chan, es)];
      } else {
        assert r == q;
      }
      forall k | |p.actions| <= k < |r.actions|
        ensures QueuedFor(wantSync, entries, r.actions[k])
      {
        if k < |q.actions| {
          assert r.actions[k] == q.actions[k];
          assert QueuedFor(wantSync, init, q.actions[k]);
          var i :| 0 <= i < |init| && Edited(wantSync, init[i].0)
            && q.actions[k] == ReplaceOverwrites(init[i].0, init[i].1);
          assert entries[i] == init[i];
        } else {
          assert Edited(wantSync, entries[n].0);
          assert r.actions[k] == ReplaceOverwrites(entries[n].0, entries[n].1);
        }
      }
    } else {
      assert OverwritePass(wantSync, entries, p) == p;
    }
  }

  lemma {:induction false} OverwritePassGrows(wantSync: seq<Channel>, entries: seq<(Channel, seq<(Target, Masks)>)>,
                                             p: PassState)
    ensures p.actions <= OverwritePass(wantSync, entries, p).actions
    ensures p.notes <= OverwritePass(wantSync, entries, p).notes
    decreases |entries|
  {
    if entries != [] {
      OverwritePassGrows(wantSync, entries[..|entries| - 1], p);
    }
  }

  /** Whether a channel that is to be synced needs the sync action. */
  predicate NeedsSync(seenMoved: map<Channel, Option<nat>>, changed: set<nat>, c: Channel)
  {
    !c.synced || c in seenMoved || (NewCategory(seenMoved, c).Some? && NewCategory(seenMoved, c).value in changed)
  }

  /**
   * The sync pass fails exactly when a channel of a syncable kind has no
   * category to sync with, and then names such a channel; when it succeeds,
   * every such channel that is not synced now, was moved, or whose category
   * changes gets a sync action after the earlier ones.
   */
  lemma {:induction false} SyncPassMeaning(wantSync: seq<Channel>, seenMoved: map<Channel, Option<nat>>,
                                           changed: set<nat>, p: PassState)
    ensures SyncPass(wantSync, seenMoved, changed, p).Ok? <==>
      forall c :: c in wantSync && IsSyncKind(c) ==> NewCategory(seenMoved, c).Some?
    ensures SyncPass(wantSync, seenMoved, changed, p).Err? ==>
      exists c :: c in wantSync && IsSyncKind(c) && NewCategory(seenMoved, c).None?
        && SyncPass(wantSync, seenMoved, changed, p).error == CannotSync(c.id)
    ensures SyncPass(wantSync, seenMoved, changed, p).Ok? ==>
      var q := SyncPass(wantSync, seenMoved, changed, p).value;
      p.actions <= q.actions && p.notes <= q.notes && q.changed == p.changed
      && forall c :: c in wantSync && IsSyncKind(c) && NeedsSync(seenMoved, changed, c) ==> SyncChannel(c.id) in q.actions
    decreases |wantSync|
  {
    if wantSync != [] {
      var init := wantSync[..|wantSync| - 1];
      var chan := wantSync[|wantSync| - 1];
      assert wantSync == init + [chan];
      SyncPassMeaning(init, seenMoved, changed, p);
      var r := SyncPass(wantSync, seenMoved, changed, p);
      if SyncPass(init, seenMoved, changed, p).Err? {
        assert r == SyncPass(init, seenMoved, changed, p);
        assert exists c :: c in wantSync && IsSyncKind(c) && NewCategory(seenMoved, c).None?;
      } else if r.Err? {
        assert chan in wantSync;
      } else {
        var q := SyncPass(init, seenMoved, changed, p).value;
        assert forall c :: c in wantSync ==> c in init || c == chan;
        assert q.actions <= r.value.actions;
      }
    }
  }

  /** The action syncs a channel of `wantSync` that the sync pass must sync. */
  ghost predicate SyncedFor(wantSync: seq<Channel>, seenMoved: map<Channel, Option<nat>>, changed: set<nat>, a: Action)
  {
    exists c :: c in wantSync && IsSyncKind(c) && NeedsSync(seenMoved, changed, c) && a == SyncChannel(c.id)
  }

  /** Every action the sync pass adds syncs a syncable channel that needs it, and nothing else. */
  lemma {:induction false} SyncPassOnlyNeeded(wantSync: seq<Channel>, seenMoved: map<Channel, Option<nat>>,
                                              changed: set<nat>, p: PassState)
    requires SyncPass(wantSync, seenMoved, changed, p).Ok?
    ensures |p.actions| <= |SyncPass(wantSync, seenMoved, changed, p).value.actions|
    ensures forall k :: |p.actions| <= k < |SyncPass(wantSync, seenMoved, changed, p).value.actions| ==>
      SyncedFor(wantSync, seenMoved, changed, SyncPass(wantSync, seenMoved, changed, p).value.actions[k])
    decreases |wantSync|
  {
    if wantSync != [] {
      var n := |wantSync| - 1;
      var init := wantSync[..n];
      SyncPassOnlyNeeded(init, seenMoved, changed, p);
      var q := SyncPass(init, seenMoved, changed, p).value;
      var r := SyncPass(wantSync, seenMoved, changed, p).value;
      forall k | |p.actions| <= k < |r.actions|
        ensures SyncedFor(wantSync, seenMoved, changed, r.actions[k])
      {
        if k < |q.actions| {
          assert r.actions[k] == q.actions[k];
          assert SyncedFor(init, seenMoved, changed, q.actions[k]);
          var c :| c in init && IsSyncKind(c) && NeedsSync(seenMoved, changed, c) && q.actions[k] == SyncChannel(c.id);
          assert c in wantSync;
        } else {
          assert wantSync[n] in wantSync;
          assert r.actions[k] == SyncChannel(wantSync[n].id);
        }
      }
    }
  }

  /** The text built up from an empty message: every note on a line of its own after a line break. */
  function Lines(group: seq<string>): (r: string)
    ensures |group| == 0 <==> r == ""
    ensures |group| > 0 ==> |r| > |group[0]|
  {
    if group == [] then "" else Lines(group[..|group| - 1]) + "\n" + group[|group| - 1]
  }

  /** The notes of consecutive messages, put back together. */
  function Flatten(groups: seq<seq<string>>): seq<string>
  {
    if groups == [] then [] else Flatten(groups[..|groups| - 1]) + groups[|groups| - 1]
  }

  /**
   * How message k carries its notes: a later message is its notes joined by
   * line breaks; it fits in 2000 characters unless it is a later message
   * holding one note; and it was closed only because the first note of the
   * next message would not fit after it.
   */
  ghost predicate MessageOk(ms: seq<string>, gs: seq<seq<string>>, k: nat)
    requires k < |ms| == |gs|
  {
    (k > 0 ==> gs[k] != [] && ms[k] == Join("\n", gs[k]))
    && (|ms[k]| <= MessageLimit || (k > 0 && |gs[k]| == 1))
    && (k + 1 < |ms| && gs[k + 1] != [] ==> |ms[k]| + 1 + |gs[k + 1][0]| > MessageLimit)
  }

  /** The first message is its notes each after a line break, and every message is as above. */
  ghost predicate Packed(ms: seq<string>, gs: seq<seq<string>>)
  {
    |ms| == |gs| && |ms| > 0
    && ms[0] == Lines(gs[0])
    && forall k :: 0 <= k < |ms| ==> MessageOk(ms, gs, k)
  }

  lemma PackNew(ms: seq<string>, gs: seq<seq<string>>, out: string)
    requires Packed(ms, gs) && |ms[|ms| - 1]| + 1 + |out| > MessageLimit
    ensures Packed(ms + [out], gs + [[out]])
  {
    var n := |ms|;
    var ms', gs' := ms + [out], gs + [[out]];
    assert ms'[0] == ms[0] && gs'[0] == gs[0];
    forall k | 0 <= k < n + 1
      ensures MessageOk(ms', gs', k)
    {
      if k < n {
        assert MessageOk(ms, gs, k);
        assert ms'[k] == ms[k] && gs'[k] == gs[k];
        if k + 1 < n {
          assert gs'[k + 1] == gs[k + 1];
        }
      }
    }
  }

  lemma PackExtend(ms: seq<string>, gs: seq<seq<string>>, out: string)
    requires Packed(ms, gs) && |ms[|ms| - 1]| + 1 + |out| <= MessageLimit
    ensures Packed(ms[..|ms| - 1] + [ms[|ms| - 1] + "\n" + out], gs[..|gs| - 1] + [gs[|gs| - 1] + [out]])
  {
    var n := |ms|;
    var ms', gs' := ms[..n - 1] + [ms[n - 1] + "\n" + out], gs[..n - 1] + [gs[n - 1] + [out]];
    if n == 1 {
      assert gs'[0][..|gs'[0]| - 1] == gs[0];
    } else {
      assert ms'[0] == ms[0] && gs'[0] == gs[0];
    }
    forall k | 0 <= k < n
      ensures MessageOk(ms', gs', k)
    {
      assert MessageOk(ms, gs, k);
      if k < n - 1 {
        assert ms'[k] == ms[k] && gs'[k] == gs[k];
        if k + 1 < n - 1 {
          assert gs'[k + 1] == gs[k + 1];
        } else {
          assert MessageOk(ms, gs, k + 1);
          assert gs'[k + 1][0] == gs[k + 1][0];
        }
      } else if k > 0 {
        JoinAppend("\n", gs[n - 1], out);
      }
    }
  }

  /**
   * The packing loop sends every note exactly once and in order, never
   * splits one, and packs greedily within the 2000-character limit.
   */
  lemma {:induction false} PackingMeaning(notes: seq<string>)
    ensures Packed(Messages(notes), Groups(notes))
    ensures Flatten(Groups(notes)) == notes
    decreases |notes|
  {
    if notes != [] {
      var init := notes[..|notes| - 1];
      var out := notes[|notes| - 1];
      PackingMeaning(init);
      var ms, gs := Messages(init), Groups(init);
      var opens := PackStep(notes);
      if opens {
        PackNew(ms, gs, out);
      } else {
        PackExtend(ms, gs, out);
        assert gs == gs[..|gs| - 1] + [gs[|gs| - 1]];
      }
    }
  }

  /**
   * One more note either starts a new message or extends the last one;
   * returns which.
   */
  lemma PackStep(notes: seq<string>) returns (opens: bool)
    requires notes != []
    ensures var init, out := notes[..|notes| - 1], notes[|notes| - 1];
      var ms, gs := Messages(init), Groups(init);
      notes == init + [out]
      && (opens ==> |ms[|ms| - 1]| + 1 + |out| > MessageLimit
                    && Messages(notes) == ms + [out] && Groups(notes) == gs + [[out]]
                    && Flatten(Groups(notes)) == Flatten(gs) + [out])
      && (!opens ==> |ms[|ms| - 1]| + 1 + |out| <= MessageLimit
                     && Messages(notes) == ms[..|ms| - 1] + [ms[|ms| - 1] + "\n" + out]
                     && Groups(notes) == gs[..|gs| - 1] + [gs[|gs| - 1] + [out]]
                     && Flatten(Groups(notes)) == Flatten(gs[..|gs| - 1]) + gs[|gs| - 1] + [out])
  {
    var init, out := notes[..|notes| - 1], notes[|notes| - 1];
    var p := PackFold(init);
    opens := |p.text| + 1 + |out| > MessageLimit;
    var gs := Groups(init);
    if opens {
      assert (gs + [[out]])[..|gs|] == gs;
    } else {
      var gs' := Groups(notes);
      assert gs'[..|gs'| - 1] == gs[..|gs| - 1];
    }
  }

  /**
   * When the first note alone reaches the limit, the loop sends the empty
   * text it started with before anything else.
   */
  lemma FirstMessageEmpty(notes: seq<string>)
    requires notes != [] && |notes[0]| >= MessageLimit
    ensures Messages(notes)[0] == ""
  {
    PackingMeaning(notes);
    FlattenFirst(Groups(notes));
    assert MessageOk(Messages(notes), Groups(notes), 0);
  }

  lemma {:induction false} FlattenFirst(gs: seq<seq<string>>)
    requires gs != []
    ensures gs[0] != [] ==> Flatten(gs) != [] && Flatten(gs)[0] == gs[0][0]
    decreases |gs|
  {
    if |gs| > 1 {
      FlattenFirst(gs[..|gs| - 1]);
    }
  }

  /* ---------------- Re-importing an export ---------------- */

  /** An exported header, for a table of distinct flag names, reads back as the flag columns in order. */
  lemma ExportedHeaderParses(flags: seq<string>)
    requires forall i, j :: 0 <= i < j < |flags| ==> flags[i] != flags[j]
    ensures ParseHeader(flags, HeaderRow(flags)) == Ok(Range(|flags|))
  {
    var header := HeaderRow(flags);
    assert header[..3] == ["Category", "Channel", "Role/User"];
    assert header[3..] == flags;
    FlagColumnsOfTable(flags);
  }

  lemma FlagColumnsOfTable(flags: seq<string>)
    requires forall i, j :: 0 <= i < j < |flags| ==> flags[i] != flags[j]
    ensures FlagColumns(flags, flags) == Ok(Range(|flags|))
  {
    forall k | 0 <= k < |flags|
      ensures FlagIndex(flags, flags[k]) == Some(Range(|flags|)[k])
    {
      var r := FlagIndex(flags, flags[k]);
      assert r.Some?;
      SameName(flags, r.value, k);
    }
    FlagColumnsAt(flags, flags, Range(|flags|));
  }

  lemma {:induction false} FlagColumnsAt(flags: seq<string>, names: seq<string>, cols: seq<nat>)
    requires |cols| == |names| && forall k :: 0 <= k < |names| ==> FlagIndex(flags, names[k]) == Some(cols[k])
    ensures FlagColumns(flags, names) == Ok(cols)
    decreases |names|
  {
    if names != [] {
      assert FlagIndex(flags, names[0]) == Some(cols[0]);
      FlagColumnsAt(flags, names[1..], cols[1..]);
      assert cols == [cols[0]] + cols[1..];
    }
  }

  lemma SameName(flags: seq<string>, i: nat, j: nat)
    requires forall i, j :: 0 <= i < j < |flags| ==> flags[i] != flags[j]
    requires i < |flags| && j < |flags| && flags[i] == flags[j]
    ensures i == j
  {
  }

  /** The cells of an exported role row: the role label, then its signs. */
  lemma RoleRowCells(flags: seq<string>, role: Role)
    ensures var row := RoleRow(flags, role);
      |row| == 3 + |flags| && "Role " <= row[2] && row[2][5..] == role.name
      && row[3..] == RoleSigns(|flags|, role.perms)
  {
    var row := RoleRow(flags, role);
    assert row[2] == "Role " + role.name;
    assert row[2][..5] == "Role " && row[2][5..] == role.name;
  }

  /**
   * Re-importing an exported role row, for a role whose name no other role
   * shares, leaves the notes and the actions as they were.
   */
  lemma ExportedRoleRowStep(g: Guild, flags: seq<string>, role: Role, s: ImportState, line: nat)
    requires role in g.roles && forall x :: x in g.roles && x.name == role.name ==> x == role
    ensures RoleRowStep(g, Range(|flags|), flags, s, RoleRow(flags, role), line) == Ok(s)
  {
    var row := RoleRow(flags, role);
    RoleRowCells(flags, role);
    assert RoleNamed(g.roles, row[2][5..]) == Some(role);
    ExportedRoleRowIsNoop(role.perms, flags);
    QuietRoleRowStep(g, Range(|flags|), flags, s, row, line, role);
  }

  /** A role row whose signs change nothing leaves the notes and the actions as they were. */
  lemma QuietRoleRowStep(g: Guild, cols: seq<nat>, names: seq<string>, s: ImportState, row: seq<string>, line: nat,
                         role: Role)
    requires |names| == |cols| && |row| >= 3 && "Role " <= row[2]
    requires RoleNamed(g.roles, row[2][5..]) == Some(role)
    requires RowDeltaOf(RolePerms(role.perms), cols, names, row[3..]) == Delta([], NoMasks)
    ensures RoleRowStep(g, cols, names, s, row, line) == Ok(s)
  {
    assert s.notes + [] == s.notes && s.actions + [] == s.actions;
  }

  /* ---------------- The stale channel test of the overwrite pass ---------------- */

  /**
   * A guild where the test goes wrong: a category "k", a text channel "a"
   * outside any category, a text channel "z" in "k" that is not synced, a
   * role "r", and a file with one flag column ("send") that allows it for
   * the role on "a" and then asks for "z" to be synced.
   */
  const StaleK := Channel(3, "k", CategoryKind, 0, None, false, [])
  const StaleA := Channel(1, "a", TextKind, 0, None, false, [])
  const StaleZ := Channel(2, "z", TextKind, 1, Some(3), false, [])
  const StaleGuild := Guild([Role(5, "r", {})], [StaleK, StaleA, StaleZ], [])
  const StaleHeader := ["Category", "Channel", "Role/User", "send"]
  const StaleRow1 := ["", "a", "Role r", "+"]
  const StaleRow2 := ["k", "z", "(synced)", ""]
  const StaleFile := [StaleHeader, StaleRow1, StaleRow2]
  const StaleEntries := [(StaleA, [(RoleTarget(5), Masks({0}, {}, {}))])]

  lemma StaleLabels()
    ensures LookupChannel(StaleGuild, "k") == Some(StaleK)
    ensures LookupChannel(StaleGuild, "a") == Some(StaleA)
    ensures LookupChannel(StaleGuild, "z") == Some(StaleZ)
  {
    var g, k, a, z := StaleGuild, StaleK, StaleA, StaleZ;
    assert g.channels[1..] == [a, z] && [a, z][1..] == [z] && [z][1..] == [];
    assert a.name[0] != z.name[0] && k.name[0] != z.name[0] && k.name[0] != a.name[0];
    assert NameCount([], "k") == 0 && NameCount([], "a") == 0 && NameCount([], "z") == 0;
    assert NameCount([z], "k") == 0 && NameCount([z], "a") == 0 && NameCount([z], "z") == 1;
    assert NameCount([a, z], "k") == 0 && NameCount([a, z], "a") == 1 && NameCount([a, z], "z") == 1;
    assert NameCount(g.channels, "k") == 1 && NameCount(g.channels, "a") == 1 && NameCount(g.channels, "z") == 1;
    assert DisambiguatedName(g, k) == "k" && DisambiguatedName(g, a) == "a" && DisambiguatedName(g, z) == "z";
    assert g.channels[..2] == [k, a] && [k, a][..1] == [k];
  }

  /** The state after the first row: its note, and "a" with the new overwrite. */
  function StaleState1(): ImportState
  {
    Start.(notes := [OverwriteNote(StaleA, RoleTarget(5), [[Check] + "send"])],
           newOverwrites := StaleEntries, lastChannel := Some(StaleA))
  }

  lemma StaleTarget()
    ensures ParseTarget(StaleGuild, StaleRow1[2], 2) == Ok(RoleTarget(5))
    ensures RowDeltaOf(OverwriteOf(OverwritesFor(StaleA, RoleTarget(5))), [0], ["send"], StaleRow1[3..])
      == Delta([[Check] + "send"], Masks({0}, {}, {}))
  {
    var row1 := StaleRow1;
    assert "Role " <= row1[2] && row1[2][5..] == "r";
    assert row1[3..] == ["+"] && Width([0], ["+"]) == 1;
    assert OverwritesFor(StaleA, RoleTarget(5)) == Overwrite({}, {});
    assert ColumnDelta(OverwriteOf(Overwrite({}, {})), 0, "send", "+") == Delta([[Check] + "send"], Masks({0}, {}, {}));
  }

  lemma StaleFirstRow()
    ensures RowStep(StaleGuild, [0], ["send"], Start, StaleRow1, 2) == Ok(StaleState1())
  {
    var g, a, row1 := StaleGuild, StaleA, StaleRow1;
    var m := Masks({0}, {}, {});
    StaleLabels();
    StaleTarget();
    var d := RowDeltaOf(OverwriteOf(OverwritesFor(a, RoleTarget(5))), [0], ["send"], row1[3..]);
    assert Get<Channel, seq<(Target, Masks)>>([], a) == None;
    assert Put<Target, Masks>([], RoleTarget(5), m) == [(RoleTarget(5), m)];
    assert SetOverwrite([], a, RoleTarget(5), m) == StaleEntries;
    assert ResolveChannelRow(g, row1, 2) == Ok((None, a));
    var s0 := Start.(lastChannel := Some(a));
    assert MoveStep(s0, a, None, 2) == Ok(s0);
    assert row1[2] != "(synced)" by { assert |row1[2]| != |"(synced)"|; }
    assert [] + [OverwriteNote(a, RoleTarget(5), d.changes)] == StaleState1().notes;
    assert TargetStep(g, [0], ["send"], s0, a, row1, 2) == Ok(StaleState1());
  }

  lemma StaleSecondRow()
    ensures RowStep(StaleGuild, [0], ["send"], StaleState1(), StaleRow2, 3)
      == Ok(StaleState1().(wantSync := [StaleZ], lastChannel := Some(StaleZ)))
  {
    var g, k, z, row2 := StaleGuild, StaleK, StaleZ, StaleRow2;
    StaleLabels();
    assert CategoryCell(g, row2[0], 3) == Ok(Some(k));
    assert ResolveChannelRow(g, row2, 3) == Ok((Some(k), z));
    var s1 := StaleState1().(lastChannel := Some(z));
    assert MoveStep(s1, z, Some(k), 3) == Ok(s1);
    assert row2[2] == "(synced)" && AddOnce([], z) == [z];
  }

  /**
   * Reading the file leaves "a" alone in new_overwrites, "z" alone in
   * want_sync, and "z" as the last channel.
   */
  lemma StaleChannelRows()
    ensures FoldRows(StaleGuild, [0], ["send"], Start, StaleFile[1..], 2) == Ok(StaleRead())
  {
    var rows := StaleFile[1..];
    assert rows == [StaleRow1, StaleRow2];
    StaleFirstRow();
    StaleSecondRow();
    assert rows[..1] == [StaleRow1] && rows[..1][..0] == [];
    assert FoldRows(StaleGuild, [0], ["send"], Start, rows[..1], 2) == Ok(StaleState1());
  }

  /**
   * From that state the loop as written tests `channel`, still "z", and
   * skips "a": the overwrite edit of "a" is never queued. The test on the
   * loop variable queues it.
   */
  lemma StaleChannelSkipsEdit()
    ensures OverwritePassAsWritten([StaleZ], StaleEntries, PassState([], [], {}), StaleZ).0.actions == []
    ensures OverwritePass([StaleZ], StaleEntries, PassState([], [], {})).actions
      == [ReplaceOverwrites(StaleA, StaleEntries[0].1)]
  {
    assert StaleEntries[..0] == [];
    assert StaleA !in [StaleZ];
  }

  /** The header of the file names the one flag column. */
  lemma StaleHeaderColumns()
    ensures ParseHeader(["send"], StaleFile[0]) == Ok([0])
  {
    var h := StaleFile[0];
    assert h[0] == "Category" && h[1] == "Channel" && h[2] == "Role/User";
    var flags: seq<string> := ["send"];
    assert h[3..] == flags && flags[0] == "send" && FlagIndex(flags, flags[0]) == Some(0);
    assert flags[1..] == [] && FlagColumns(flags, flags[1..]) == Ok([]);
    assert [0] + [] == [0];
    assert FlagColumns(flags, flags) == Ok([0]);
  }

  /** The notes of the import: the allowed flag on "a", then the sync of "z" with "k". */
  function StaleNotes(): seq<string>
  {
    StaleState1().notes + [SyncNote(StaleZ, 3)]
  }

  /** An import whose rows are read and whose passes succeed asks to confirm the sync pass's notes and actions. */
  lemma ImportConfirms(g: Guild, flags: seq<string>, rows: seq<seq<string>>, cols: seq<nat>, s: ImportState,
                       p: PassState, q: PassState, asWritten: bool)
    requires rows != [] && ParseHeader(flags, rows[0]) == Ok(cols)
    requires FoldRows(g, cols, rows[0][3..], Start, rows[1..], 2) == Ok(s)
    requires !asWritten ==> p == OverwritePass(s.wantSync, s.newOverwrites, PassState(s.notes, s.actions, {}))
    requires asWritten ==> (s.lastChannel.Some?
      && p == OverwritePassAsWritten(s.wantSync, s.newOverwrites, PassState(s.notes, s.actions, {}), s.lastChannel.value).0)
    requires SyncPass(s.wantSync, s.seenMoved, p.changed, p) == Ok(q) && q.notes != []
    ensures !asWritten ==> Import(g, flags, rows) == Ok(Confirm(Messages(q.notes), q.actions))
    ensures asWritten ==> ImportAsWritten(g, flags, rows) == Ok(Confirm(Messages(q.notes), q.actions))
  {
  }

  /** The overwrite pass from the state after the rows queues the replacement of "a", which changes it. */
  lemma StaleOverwritePass()
    ensures OverwritePass([StaleZ], StaleEntries, PassState(StaleState1().notes, [], {}))
      == PassState(StaleState1().notes, [ReplaceOverwrites(StaleA, StaleEntries[0].1)], {1})
  {
    assert StaleEntries[..0] == [] && StaleA !in [StaleZ];
    assert Removals(StaleA, [], StaleEntries[0].1) == [];
    var es := StaleEntries[0].1;
    assert 0 in es[0].1.add && !IsZero(es[0].1);
    assert AnyChange(es);
  }

  /** The sync pass syncs "z" with "k", since "z" is not synced. */
  lemma StaleSyncPass(p: PassState)
    ensures SyncPass([StaleZ], map[], p.changed, p)
      == Ok(p.(notes := p.notes + [SyncNote(StaleZ, 3)], actions := p.actions + [SyncChannel(2)]))
  {
    assert [StaleZ][..0] == [];
    assert NewCategory(map[], StaleZ) == Some(3);
  }

  /** The state after the rows of the file. */
  function StaleRead(): ImportState
  {
    StaleState1().(wantSync := [StaleZ], lastChannel := Some(StaleZ))
  }

  /** The file's header and rows read without error. */
  lemma StaleFileRead()
    ensures StaleFile != [] && ParseHeader(["send"], StaleFile[0]) == Ok([0])
    ensures FoldRows(StaleGuild, [0], StaleFile[0][3..], Start, StaleFile[1..], 2) == Ok(StaleRead())
  {
    StaleHeaderColumns();
    StaleChannelRows();
    assert StaleFile[0][3..] == ["send"];
  }

  /** The two passes after the rows: the replacement of "a", then the sync of "z". */
  lemma StalePasses()
    ensures var s := StaleRead();
      var p := OverwritePass(s.wantSync, s.newOverwrites, PassState(s.notes, s.actions, {}));
      SyncPass(s.wantSync, s.seenMoved, p.changed, p)
        == Ok(PassState(StaleNotes(), [ReplaceOverwrites(StaleA, StaleEntries[0].1), SyncChannel(2)], {1}))
  {
    var s := StaleRead();
    var p := PassState(s.notes, [ReplaceOverwrites(StaleA, StaleEntries[0].1)], {1});
    StaleOverwritePass();
    assert OverwritePass(s.wantSync, s.newOverwrites, PassState(s.notes, s.actions, {})) == p;
    StaleSyncPass(p);
    assert p.notes + [SyncNote(StaleZ, 3)] == StaleNotes();
    assert p.actions + [SyncChannel(2)] == [ReplaceOverwrites(StaleA, StaleEntries[0].1), SyncChannel(2)];
  }

  /** The same passes as written: the overwrite pass queues nothing, then "z" is synced. */
  lemma StalePassesAsWritten()
    ensures var s := StaleRead();
      var p := OverwritePassAsWritten(s.wantSync, s.newOverwrites, PassState(s.notes, s.actions, {}), StaleZ).0;
      SyncPass(s.wantSync, s.seenMoved, p.changed, p) == Ok(PassState(StaleNotes(), [SyncChannel(2)], {}))
  {
    var s := StaleRead();
    var p := PassState(s.notes, [], {});
    assert s.actions == [] && s.seenMoved == map[] && s.wantSync == [StaleZ] && StaleEntries[..0] == [];
    assert OverwritePassAsWritten(s.wantSync, s.newOverwrites, p, StaleZ).0 == p;
    StaleSyncPass(p);
    assert p.notes + [SyncNote(StaleZ, 3)] == StaleNotes() && p.actions + [SyncChannel(2)] == [SyncChannel(2)];
  }

  /**
   * The whole import of the file: it succeeds, and the actions to confirm
   * replace the overwrites of "a" and then sync "z".
   */
  lemma StaleImport()
    ensures Import(StaleGuild, ["send"], StaleFile)
      == Ok(Confirm(Messages(StaleNotes()), [ReplaceOverwrites(StaleA, StaleEntries[0].1), SyncChannel(2)]))
  {
    StaleFileRead();
    var s := StaleRead();
    var p := OverwritePass(s.wantSync, s.newOverwrites, PassState(s.notes, s.actions, {}));
    StalePasses();
    var q := PassState(StaleNotes(), [ReplaceOverwrites(StaleA, StaleEntries[0].1), SyncChannel(2)], {1});
    ImportConfirms(StaleGuild, ["send"], StaleFile, [0], s, p, q, false);
  }

  /**
   * The import as written accepts the same file and shows the same notes,
   * but the only action it queues is the sync of "z": the allowed flag on
   * "a" is announced and never applied.
   */
  lemma StaleImportAsWritten()
    ensures ImportAsWritten(StaleGuild, ["send"], StaleFile) == Ok(Confirm(Messages(StaleNotes()), [SyncChannel(2)]))
    ensures Import(StaleGuild, ["send"], StaleFile) != ImportAsWritten(StaleGuild, ["send"], StaleFile)
  {
    StaleFileRead();
    var s := StaleRead();
    var p := OverwritePassAsWritten(s.wantSync, s.newOverwrites, PassState(s.notes, s.actions, {}), StaleZ).0;
    StalePassesAsWritten();
    ImportConfirms(StaleGuild, ["send"], StaleFile, [0], s, p, PassState(StaleNotes(), [SyncChannel(2)], {}), true);
    StaleImport();
  }
}
