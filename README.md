# A verified model of the bot's core logic

This project models the self-contained logic of a Discord bot, written in Python on top of discord.py and
asyncpg. It covers these parts:

- **Permission snapshots** (`plugins/bulk_perms.py`): exporting a guild's role permissions and channel
  overwrites as CSV rows, and importing an edited file. An import produces change notes and a list of
  deferred actions: role edits, channel moves, overwrite replacements and permission syncs.
- **Dependency graph** (`util/digraph.py`): mirrored forward and backward adjacency maps. It supports
  reachability subgraphs and depth-first topological orders.
- **Discord helpers** (`util/discord.py`): inline-code and code-block escaping, the formatter's mention
  conversions, and the name/id lookup and ranking rules.
- **Commands** (`plugins/commands.py`): the command-line tokenizer (`ArgParser`), the command table, and the
  prefix dispatch of messages.
- **Reminders** (`plugins/reminders.py`): the duration parser, the per-user reminder list sorted by due time,
  and 1-based removal.
- **Key-value configuration** (`util/db/kv/__init__.py`): key encoding, freezing of JSON values, and the
  in-memory `Config` object. The object tracks dirty keys and flushes them.
- **Database helpers** (`util/db/log.py`, `util/db/dsn.py`):
  - redaction of query arguments in logs;
  - conversion of a libpq keyword/value connection string into a URI.
- **Configuration editors** (`plugins/privileges.py`, `plugins/locations.py`, `plugins/rolereactions.py`,
  `plugins/roleoverride.py`): id lists and maps kept per name, and the membership tests built on them.
- **Message packing**:
  - `plugins/db_manager.py` cuts SQL results down to 2000 characters;
  - `plugins/modmail.py` cuts a relayed direct message into 2000-character messages.

Modelling conventions:
- There is one Dafny module per source file. `Wrappers` (Option/Result), `Text` (decimal conversion, joins,
  escaping, ASCII character classes) and `Dicts` (Python dicts as association lists) are shared helpers.
- Permission bit-masks are sets of flag indices, so `a & ~b | c` is `(a - b) + c`.
- Discord objects are plain records.
- Every send, edit or reaction becomes an output value: a reply, a note, or an `Action`.
- State that the source updates in place is a class: `Digraph`, `ArgParser`, the command table, the reminder
  store, `Config`, the privilege/location/role-reaction stores.
- Each method is proved against a specification function, and the properties are lemmas about those
  functions.

## Model

| member | source | states |
|---|---|---|
| BulkPerms.ChannelKeyOrder | plugins/bulk_perms.py:11-17 | A category sorts before its channels, text-like channels before voice/stage ones in the same category, and uncategorised channels before every category |
| BulkPerms.KeyLeTotal | plugins/bulk_perms.py:11-17 | The tuple order used for sort keys is total |
| BulkPerms.OverwriteKeyOrder | plugins/bulk_perms.py:19-26 | Members, and roles missing from the guild's role list, get key -1 and sort before every listed role; listed roles keep guild order |
| BulkPerms.SortBySorted | plugins/bulk_perms.py:49 | The stable sort by key returns an ordered list whenever the key order is total |
| BulkPerms.SortByStable | plugins/bulk_perms.py:49 | The sort is stable: elements with equal keys keep their relative order |
| BulkPerms.SortByFacts | plugins/bulk_perms.py:49 | Under a total, transitive key order the sort is a permutation of its input, ordered, and stable |
| BulkPerms.DisambiguatedNamesDiffer | plugins/bulk_perms.py:28-33 | Two distinct channels with the same name get different labels |
| BulkPerms.DisambiguatedRank | plugins/bulk_perms.py:28-33 | A shared name gets a 1-based rank between 1 and the number of channels with that name, ordered by id; a unique name stays bare |
| BulkPerms.TweakPermissions | plugins/bulk_perms.py:67-68 | Added bits are set, removed (and not added) bits are cleared, and every other bit keeps its value |
| BulkPerms.TweakIdentity | plugins/bulk_perms.py:67-68 | Adding bits already set and removing bits already clear leaves the value unchanged |
| BulkPerms.TweakOverwrite | plugins/bulk_perms.py:70-75 | add goes to allow, remove to deny, reset clears both sides, and bits outside all three masks keep their allow/deny state |
| BulkPerms.TweakKeepsOppositeSide | plugins/bulk_perms.py:70-75 | Adding a bit leaves an existing deny of it in place, and removing one leaves an existing allow |
| BulkPerms.OverwritesFor | plugins/bulk_perms.py:77-82 | A non-empty result comes from an overwrite entry whose target has the same id |
| BulkPerms.FirstOverwriteOfDistinct | plugins/bulk_perms.py:77-82 | With distinct target ids, the overwrite found for the i-th target is the i-th overwrite |
| BulkPerms.RoleSigns | plugins/bulk_perms.py:47 | Each flag column of a role row is "+" when the role has the flag, else "-" |
| BulkPerms.OverwriteSigns | plugins/bulk_perms.py:62-63 | Each flag column of an overwrite row is "+" when allowed, else "-" when denied, else "/" |
| BulkPerms.OverwriteRows | plugins/bulk_perms.py:57-63 | One row per overwrite: the channel cells, the target label, then the signs |
| BulkPerms.RoleRows | plugins/bulk_perms.py:46-47 | One row per role, in guild order |
| BulkPerms.ExportRows | plugins/bulk_perms.py:44-63 | The export starts with the header row, followed by one row per role in order, then at least one row per channel |
| BulkPerms.ExportChannelOrder | plugins/bulk_perms.py:49 | The channels are exported in channel_sort_key order: a permutation of the guild's channels, ordered, and stable among equal keys |
| BulkPerms.ExportChannelBlock | plugins/bulk_perms.py:49-63 | After the header and role rows come the blocks of the sorted channels, the k-th channel's block in k-th place |
| BulkPerms.ChannelBlockMeaning | plugins/bulk_perms.py:50-63 | A channel's block is its header row ending in "(synced)" or ""; a synced channel has no other row; otherwise one row per overwrite follows, in overwrite_sort_key order, each with the target label and the signs |
| BulkPerms.ChannelBlocksWidth | plugins/bulk_perms.py:51-63 | Every channel row is either a header row of 3 cells or an overwrite row of 3 cells plus one per flag |
| BulkPermsImport.FlagColumns | plugins/bulk_perms.py:98-107 | Every column from the fourth on is a known flag, or the first unknown name is reported |
| BulkPermsImport.ReadHeader | plugins/bulk_perms.py:98-107 | The header loop returns the flag columns, or stops at the first unknown flag name |
| BulkPermsImport.FlagColumnsUnknown | plugins/bulk_perms.py:104-107 | An unknown flag name makes the header fail, naming that column |
| BulkPermsImport.ExportedHeaderParses | plugins/bulk_perms.py:44 | An exported header reads back as the flag columns in order |
| BulkPermsImport.RowDeltaMeaning | plugins/bulk_perms.py:127-136 | A mask bit is set exactly when some column of that flag asks for the change; there are notes exactly when a mask is non-empty; role rows never reset |
| BulkPermsImport.RowDeltaBit | plugins/bulk_perms.py:198-211 | For each flag, '+' adds only when not allowed, '-' removes only when not denied (or set, for roles), '/' resets only when allowed or denied |
| BulkPermsImport.RowDeltaNotes | plugins/bulk_perms.py:127-136 | Notes appear exactly when a mask bit does |
| BulkPermsImport.ScanRow | plugins/bulk_perms.py:198-211 | The zip loop over flags and signs accumulates the same notes and masks as the row delta |
| BulkPermsImport.ScanColumn | plugins/bulk_perms.py:204-212 | One pass of the zip loop appends the column's notes and sets its mask bits, exactly as the column delta says |
| BulkPermsImport.ExportedRoleRowIsNoop | plugins/bulk_perms.py:130-136 | Re-importing an exported role row asks for no change |
| BulkPermsImport.ExportedOverwriteRowIsNoop | plugins/bulk_perms.py:202-211 | Re-importing an exported overwrite row gives all-empty masks and no notes |
| BulkPermsImport.RoleRowApplied | plugins/bulk_perms.py:127-142 | After applying a role row, '+' flags are set, '-' flags are clear, and others are unchanged |
| BulkPermsImport.OverwriteRowApplied | plugins/bulk_perms.py:197-216 | After applying an overwrite row, '+' allows, '-' denies, '/' clears, and a '+' leaves an existing deny |
| BulkPermsImport.RoleNamed | plugins/bulk_perms.py:96 | The role dict by name yields the last role with that name |
| BulkPermsImport.ChannelLabelled | plugins/bulk_perms.py:95 | The channel dict by label yields the last channel with that label |
| BulkPermsImport.FirstWord | plugins/bulk_perms.py:189 | split(maxsplit=1)[0]: the text up to the first white space, and none for a blank cell |
| BulkPermsImport.ParseTarget | plugins/bulk_perms.py:181-196 | "Role name" resolves to a role of that name, else unknown role; "User id ..." resolves to the member with the first word's id; no word gives a missing-id error, a non-integer word an expected-id error, an unknown id a no-such-member error; any other cell fails |
| BulkPermsImport.MoveNote | plugins/bulk_perms.py:173 | A move to no category has no note, because the channel conversion fails |
| BulkPermsImport.CategoryCell | plugins/bulk_perms.py:155-163 | The category cell is empty or names a category, else a kind error |
| BulkPermsImport.ResolveChannelRow | plugins/bulk_perms.py:144-168 | The first two cells name a category or a non-category channel, or the row fails with the source's error |
| BulkPermsImport.AddOnce | plugins/bulk_perms.py:179 | A channel joins want_sync once, in first-request order |
| BulkPermsImport.ProcessRow | plugins/bulk_perms.py:117-218 | The body of the row loop computes the row step: short rows, unknown names and kind mismatches fail |
| BulkPermsImport.ImportRows | plugins/bulk_perms.py:117-218 | The row loop computes the fold of the row step and stops at the first error |
| BulkPermsImport.FoldRowsAbort | plugins/bulk_perms.py:117-218 | A failing row fails the whole file with that error, before any action is queued |
| BulkPermsImport.RemovalsMeaning | plugins/bulk_perms.py:228-233 | A remove note is produced for exactly the live targets the file does not list |
| BulkPermsImport.RemoveUnlisted | plugins/bulk_perms.py:228-233 | The loop over the channel's overwrites produces those remove notes |
| BulkPermsImport.MarkIfChanged | plugins/bulk_perms.py:224-227 | The channel is marked changed exactly when one of its masks is non-empty |
| BulkPermsImport.DiffChannel | plugins/bulk_perms.py:224-238 | The overwrite-pass body for one channel equals the channel diff |
| BulkPermsImport.ChannelDiffMeaning | plugins/bulk_perms.py:224-238 | The replacement is queued even for an unchanged channel; unlisted live targets get remove notes; "changed" means a mask is set or a target is dropped |
| BulkPermsImport.ReplacedMeaning | plugins/bulk_perms.py:234-238 | The queued edit leaves the channel with exactly the listed targets; a target with empty masks keeps its overwrite |
| BulkPermsImport.RunOverwritePass | plugins/bulk_perms.py:219-238 | The loop over new_overwrites computes the corrected overwrite pass |
| BulkPermsImport.OverwritePassQueues | plugins/bulk_perms.py:219-238 | The pass keeps the earlier actions, queues the replacement of every touched channel not to be synced and of a channel kind, and every action it adds is such a replacement, so skipped channels get none |
| BulkPermsImport.OverwritePassGrows | plugins/bulk_perms.py:219-238 | The pass only appends to the notes and actions it is given |
| BulkPermsImport.SyncPassMeaning | plugins/bulk_perms.py:239-250 | The sync pass fails exactly when a syncable channel has no category, naming one; otherwise it syncs every syncable channel not synced, moved, or whose category changes |
| BulkPermsImport.SyncPassOnlyNeeded | plugins/bulk_perms.py:239-250 | Every action the sync pass adds syncs a syncable channel of want_sync that needs it, and nothing else |
| BulkPermsImport.RunSyncPass | plugins/bulk_perms.py:239-250 | The loop over want_sync computes the sync pass |
| BulkPermsImport.SyncPassAbort | plugins/bulk_perms.py:241-243 | A channel without a category stops the pass with an error |
| BulkPermsImport.PackNotes | plugins/bulk_perms.py:256-263 | The packing loop computes the specified messages |
| BulkPermsImport.PackingMeaning | plugins/bulk_perms.py:256-263 | Every note is sent exactly once, in order, and never split; messages fit in 2000 characters unless one note alone is longer; packing is greedy |
| BulkPermsImport.FirstMessageEmpty | plugins/bulk_perms.py:256-263 | When the first note alone reaches the limit, an empty first message is sent |
| BulkPermsImport.ImportPerms | plugins/bulk_perms.py:98-263 | The whole import equals Import: the header, the row loop, both passes, then "No changes." or the packed notes with the actions |
| BulkPermsImport.ExportedRoleRowStep | plugins/bulk_perms.py:120-142 | Re-importing an exported row of a uniquely named role leaves the notes and actions as they were |
| BulkPermsImport.StaleLabels | plugins/bulk_perms.py:28-33 | In the example guild the labels "k", "a" and "z" name the category and the two channels |
| BulkPermsImport.StaleChannelRows | plugins/bulk_perms.py:117-218 | In the example file, "a" ends alone in new_overwrites, "z" in want_sync, and "z" is the last channel read |
| BulkPermsImport.StaleFileRead | plugins/bulk_perms.py:98-218 | The example file's header and rows are read without error |
| BulkPermsImport.StaleChannelSkipsEdit | plugins/bulk_perms.py:219-220 | The loop as written skips the edit of "a", which the loop-variable test queues |
| BulkPermsImport.ImportAsWritten | plugins/bulk_perms.py:98-263 | The import with the overwrite pass as written; an empty file is still a missing header |
| BulkPermsImport.StalePasses | plugins/bulk_perms.py:219-250 | From the example's rows the corrected passes replace the overwrites of "a" and sync "z" with "k" |
| BulkPermsImport.StalePassesAsWritten | plugins/bulk_perms.py:219-250 | The passes as written queue only the sync of "z" |
| BulkPermsImport.StaleImport | plugins/bulk_perms.py:98-263 | The corrected import of the example file succeeds and asks to confirm the replacement of "a"'s overwrites and the sync of "z" |
| BulkPermsImport.StaleImportAsWritten | plugins/bulk_perms.py:98-263 | The import as written accepts the same file with the same notes, but its only action is the sync of "z" |
| Digraphs.Insert | util/digraph.py:20-25 | setdefault-then-add adds exactly one pair and leaves no empty set |
| Digraphs.Discard | util/digraph.py:116-119 | discard-then-delete-if-empty removes exactly one pair and leaves no empty set |
| Digraphs.ReachesMirror | util/digraph.py:6-11 | Reaching along the backward map is being reached along the forward map |
| Digraphs.AcyclicMirror | util/digraph.py:6-11 | The mirror of an acyclic graph is acyclic |
| Digraphs.PostOrderedAcyclic | util/digraph.py:75-82 | On an acyclic graph, a depth-first post-order lists every successor before the vertex |
| Digraphs.NoWayBack | util/digraph.py:69-88 | On an acyclic graph, the target of an edge never reaches its source |
| Digraphs.Digraph.constructor | util/digraph.py:13-16 | The empty graph is valid and has no edges |
| Digraphs.Digraph.AddEdge | util/digraph.py:18-25 | Adds exactly x -> y to both maps, keeps the mirror invariant, and changes no other edge |
| Digraphs.Digraph.EdgesTo | util/digraph.py:27-29 | Returns exactly the sources of edges into x; empty for a vertex without them |
| Digraphs.Digraph.EdgesFrom | util/digraph.py:31-33 | Returns exactly the targets of edges out of x; empty for a vertex without them |
| Digraphs.Digraph.Collect | util/digraph.py:41-48 | The DFS visits only vertices reachable from x, closes over their successors, and adds exactly their edges |
| Digraphs.Digraph.SubgraphPathsFrom | util/digraph.py:35-50 | The subgraph holds exactly the edges whose source is reachable from x |
| Digraphs.Digraph.SubgraphPathsTo | util/digraph.py:52-67 | The subgraph holds exactly the edges whose target reaches x |
| Digraphs.Digraph.PostOrder | util/digraph.py:75-82 | The DFS keeps the order free of duplicates and post-ordered, and lists x and what it reaches |
| Digraphs.Digraph.VisitAll | util/digraph.py:83-88 | Visiting every root keeps the post-order and covers all roots |
| Digraphs.Digraph.MirrorKeys | util/digraph.py:6-11 | Every target of either map is a key of the other |
| Digraphs.Digraph.TopoSortFwd | util/digraph.py:69-88 | Lists every vertex with an edge and every source exactly once; on an acyclic graph the source of each edge comes first |
| Digraphs.Digraph.TopoSortBck | util/digraph.py:90-109 | The same coverage; on an acyclic graph the target of each edge comes first |
| Digraphs.Digraph.DelEdgesFrom | util/digraph.py:111-120 | x loses its outgoing edges and leaves every backward set; every other edge stays, and the invariant holds |
| Digraphs.Digraph.DelEdgesTo | util/digraph.py:122-131 | x loses its incoming edges and leaves every forward set; every other edge stays, and the invariant holds |
| DiscordUtil.InlineStr | util/discord.py:85-95 | Text without a backtick is wrapped in single backticks; otherwise the escaped, padded body is wrapped in double backticks |
| DiscordUtil.EscapeEveryBacktick | util/discord.py:88-89 | After the replacement, every backtick is followed by a zero-width joiner |
| DiscordUtil.NoDoubleWithoutInfix | util/discord.py:88 | Text in which "``" does not occur has no two consecutive backticks |
| DiscordUtil.EscapeInlineNoDouble | util/discord.py:88-89 | The escaped text has no "``", and when the text held "``" every backtick is escaped |
| DiscordUtil.PadInlineDelimited | util/discord.py:90-93 | Padding leaves no backtick at either edge and keeps the other properties |
| DiscordUtil.InlineBodyDelimited | util/discord.py:86-94 | The body between "``" delimiters never contains "``" and never starts or ends with a backtick, so the delimiters are the only ones |
| DiscordUtil.CodeBlockStr | util/discord.py:59-61 | A code block starts and ends with "```" |
| DiscordUtil.EscapeKeepsHead | util/discord.py:60 | Escaping keeps the first character and never produces a leading "``" |
| DiscordUtil.CodeBlockEscaped | util/discord.py:59-61 | The escaped text contains no "```", so it cannot close the block early |
| DiscordUtil.ConvertField | util/discord.py:124-146 | "m" applies to roles, users and ints; "M" to roles and ints; "c" to channels and ints; "i", "b", "s" always apply |
| DiscordUtil.MentionFormsDistinct | util/discord.py:129-145 | Role mentions, user mentions and channel links never coincide |
| DiscordUtil.NamedPriorityRanked | util/discord.py:299-310 | A name is ranked exactly when the query is a case-insensitive substring, and ranked 3 exactly when equal |
| DiscordUtil.NicknamedIsBestOfBoth | util/discord.py:277-297 | The tier-by-tier check of name then nickname gives the better of the two separate ranks |
| DiscordUtil.Best | util/discord.py:225-237 | The largest finite rank, attained by some item, or none when no item is ranked |
| DiscordUtil.FirstInfinite | util/discord.py:229-230 | The first item ranked infinite, if any |
| DiscordUtil.PriorityFind | util/discord.py:218-238 | The first infinitely ranked item alone, else all items of the best finite rank in input order |
| DiscordUtil.PriorityStep | util/discord.py:225-237 | One loop iteration keeps the invariant in each branch: skip, new best, tie, lower |
| DiscordUtil.WithRankMembers | util/discord.py:218-238 | The returned items are exactly those whose rank is finite and maximal |
| DiscordUtil.FirstWithId | util/discord.py:191-193 | The first item whose id equals the parsed query, or none |
| DiscordUtil.SmartFind | util/discord.py:177-214 | An exact id match first; otherwise the name rules of ByName |
| DiscordUtil.SmartFindScan | util/discord.py:183-214 | The loop returns the id match or what ByName gives for the whole list |
| DiscordUtil.FirstShortest | util/discord.py:195-196 | The first string of the smallest length |
| DiscordUtil.KeptMatchesStep | util/discord.py:194-205 | The prefix-match list is reset only by a strictly shorter match, else extended |
| DiscordUtil.KeptMatchesUnique | util/discord.py:210-211 | The list has one entry exactly when the last match is strictly shorter than all before it |
| DiscordUtil.SmartFindStep | util/discord.py:191-209 | One iteration of the loop keeps its invariant |
| DiscordUtil.ByNameOfLoopState | util/discord.py:210-214 | The state gathered by the loop decides the result as ByName says |
| DiscordUtil.ByNameIsElement | util/discord.py:194-214 | Whatever the name rules return is one of the searched items |
| DiscordUtil.InfixItemsAreElements | util/discord.py:206-209 | Infix matches are searched items whose name or nickname contains the query |
| Commands.TokenAt | plugins/commands.py:104-131 | Some token matches at every position that holds a non-space character |
| Commands.LexBlank | plugins/commands.py:104-146 | A match exists exactly when a non-space character is left |
| Commands.LexAdvances | plugins/commands.py:142-146 | A match consumes a non-empty source and moves the cursor forward |
| Commands.NoEmojiUnlessChunked | plugins/commands.py:132-133 | Without emoji chunking no emoji argument is produced |
| Commands.ArgParser.constructor | plugins/commands.py:100-102 | The command line loses its leading white space, and the cursor is 0 |
| Commands.ArgParser.GetRest | plugins/commands.py:139-140 | The unconsumed text from its first non-space character, without moving the cursor |
| Commands.ArgParser.NextArg | plugins/commands.py:142-171 | With no match, nothing changes and None is returned; otherwise the cursor moves to the match end and the argument carries its source and rest |
| Commands.ArgParser.Args | plugins/commands.py:135-137 | Iteration yields exactly the argument sequence of the rest of the command line (Tokens), leaving an empty rest |
| Commands.Tokens | plugins/commands.py:135-137 | The arguments left on a line: none exactly when only white space remains; the last one has an empty rest; no emoji arguments unless asked for |
| Commands.RestEmptyIffNoArg | plugins/commands.py:139-146 | get_rest is empty exactly when next_arg would find nothing |
| Commands.TagLexes | plugins/commands.py:106-110 | A tag is taken before every other alternative |
| Commands.QuotedLexes | plugins/commands.py:161-162 | A closed quoted string gives a StringArg of its unescaped contents |
| Commands.WordLexes | plugins/commands.py:128-129 | A position that can start only a word starts one |
| Commands.UserMentionReadsBack | plugins/commands.py:153-154 | "<@id>" reads back as a user mention without nickname |
| Commands.NickMentionReadsBack | plugins/commands.py:155-156 | "<@!id>" reads back as a user mention with nickname |
| Commands.RoleMentionReadsBack | plugins/commands.py:157-158 | "<@&id>" reads back as a role mention |
| Commands.ChannelLinkReadsBack | plugins/commands.py:159-160 | "<#id>" reads back as a channel |
| Commands.QuotedReadsBack | plugins/commands.py:111-114 | A quoted argument with escaped quotes and backslashes reads back as its text |
| Commands.WordStopsBeforeMention | plugins/commands.py:128-129 | A bare word stops before a mention written right after it, and the mention is the next argument |
| Commands.EmojiOnlyWhenChunked | plugins/commands.py:132-133 | Without emoji chunking, an emoji tag is one bare word |
| Commands.EmojiChunked | plugins/commands.py:147-149 | With emoji chunking, "<:name:id>" and "<a:name:id>" are emoji arguments |
| Commands.WordReadsWhole | plugins/commands.py:128-129 | A run of word characters is one bare word |
| Commands.CommandTable.Hook | plugins/commands.py:231-236 | A non-coroutine handler or a taken name is an error that leaves the table alone; otherwise the name is added |
| Commands.CommandTable.Unhook | plugins/commands.py:238-241 | An unknown name is an error; otherwise exactly that name is removed |
| Commands.HookUnhookRestores | plugins/commands.py:231-241 | Hooking a fresh name, then unhooking it, restores the table |
| Commands.FindCommand | plugins/commands.py:210-218 | A command runs only with a non-empty prefix that starts the message, and only for a registered name |
| Commands.FindCommandByName | plugins/commands.py:212-218 | The prefix followed by a registered name, in any letter case, runs that command |
| Commands.NoPrefixNoCommand | plugins/commands.py:212 | Without the prefix, or with an empty one, no command runs |
| Reminders.ChunkSecondsIsFactor | plugins/reminders.py:46-54 | A chunk is worth the amount times the unit's seconds |
| Reminders.Alternative | plugins/reminders.py:35-41 | An alternative ends strictly after it starts, within the text |
| Reminders.UnitAt | plugins/reminders.py:34-41 | The unit group, when it matches, ends within the text |
| Reminders.NumberAt | plugins/reminders.py:34 | The signed number, when present, ends within the text |
| Reminders.DigitsAtValue | plugins/reminders.py:65 | The digits read in place have the decimal value of their slice |
| Reminders.ChunkAt | plugins/reminders.py:32-44 | A match at the start of the text is non-empty |
| Reminders.Scan | plugins/reminders.py:62-65 | The consecutive matches cover a prefix of the text |
| Reminders.ScanStep | plugins/reminders.py:62-65 | A match followed by matches covering the rest covers the whole text, and the totals add up |
| Reminders.ScanLoop | plugins/reminders.py:60-65 | The while loop computes the scan: total and covered length |
| Reminders.ParseDuration | plugins/reminders.py:60-67 | Returns the duration, which is positive when present |
| Reminders.GetTime | plugins/reminders.py:56-67 | Requires a string argument next, and its text to be a duration |
| Reminders.DurationOfOneChunk | plugins/reminders.py:66 | A single chunk covering the text is the duration when positive |
| Reminders.DurationOfTwoChunks | plugins/reminders.py:62-66 | Two chunks covering the text give their sum when positive |
| Reminders.MinutesAndMonths | plugins/reminders.py:36-40 | "1m" is 60 seconds and "1M" is 2592000 |
| Reminders.BareWeekRejected | plugins/reminders.py:39 | "2wk" is two weeks and "2w" is rejected |
| Reminders.RejectedDurations | plugins/reminders.py:66 | "", "0s", "1h -2h" and "1h!" are rejected |
| Reminders.Spelling | plugins/reminders.py:35-41 | A unit's shortest spelling is non-empty and starts with neither a digit nor a space |
| Reminders.DurationOfRender | plugins/reminders.py:32-67 | A written duration parses back to the sum of amount times factor, when that is positive |
| Reminders.ScanOfRender | plugins/reminders.py:62-65 | A matcher that reads written chunks covers a written duration and adds up its seconds |
| Reminders.ChunkAtReadsWritten | plugins/reminders.py:32-44 | time_re reads each written chunk as one match worth its seconds |
| Reminders.ChunkOfWritten | plugins/reminders.py:34-41 | One written chunk followed by the end or a space is one match |
| Reminders.UnitOfSpelling | plugins/reminders.py:35-41 | The shortest spelling is read as its unit and stops where it ends |
| ReminderList.FormatOmitsEmptyContents | plugins/reminders.py:72-75 | The contents part is left out exactly when the contents are empty |
| ReminderList.FormatEndsWithDueTag | plugins/reminders.py:74-75 | Both forms end with the due-time tag |
| ReminderList.Insert | plugins/reminders.py:165-166 | Insertion adds exactly one entry |
| ReminderList.InsertMultiset | plugins/reminders.py:165-166 | Insertion adds the entry and loses nothing |
| ReminderList.InsertSorted | plugins/reminders.py:166 | Insertion into a sorted list keeps it sorted |
| ReminderList.SortSorts | plugins/reminders.py:166 | The sort by time returns a sorted list |
| ReminderList.SortPermutes | plugins/reminders.py:166 | The sort returns a permutation of its input |
| ReminderList.SortIsStable | plugins/reminders.py:166 | Entries due at the same time keep their relative order |
| ReminderList.SortAfterAppend | plugins/reminders.py:165-166 | Appending to a sorted list and sorting puts the new reminder after every entry due no later than it |
| ReminderList.RemoveAt | plugins/reminders.py:202 | del drops entry i and shifts the later ones down |
| ReminderList.RemoveAtSorted | plugins/reminders.py:202 | Deleting an entry keeps the list sorted |
| ReminderList.RemoveAtMultiset | plugins/reminders.py:202 | Deleting loses exactly that entry |
| ReminderList.FirstIndex | plugins/reminders.py:105 | The first position of an equal entry, or none when absent |
| ReminderList.RemoveFirst | plugins/reminders.py:105 | list.remove fails exactly when the entry is absent |
| ReminderList.RemoveFirstOnlyFirst | plugins/reminders.py:104-106 | Only the first equal entry goes, and the rest keep their order |
| ReminderList.RemoveFirstSorted | plugins/reminders.py:104-106 | Removing the fired reminder keeps the list sorted |
| ReminderList.ListReply | plugins/reminders.py:183-191 | The list is sent as a message only when it fits in 2000 characters, else as a file |
| ReminderList.RemoveOutOfRange | plugins/reminders.py:196-200 | A non-number changes nothing and gets no reply; a number outside 1..len gets the "does not exist" reply and changes nothing |
| ReminderList.RemoveInRange | plugins/reminders.py:201-206 | Entry n-1 goes, the rest keep their order and stay sorted, other users are untouched, and the reply names the entry |
| ReminderList.Store.ListOf | plugins/reminders.py:179-180 | A user without a list has the empty list; stored lists are sorted |
| ReminderList.Store.RemindMe | plugins/reminders.py:154-171 | Outside a guild nothing changes; in a guild the cursor ends after the duration argument, and for a bad duration nothing else changes; otherwise the new reminder, holding the rest of the command line after that argument, is inserted by due time and the reply names it |
| ReminderList.Store.Schedule | plugins/reminders.py:160-167 | The user's list (or [] for none) gains the reminder by a stable sort on due time, and stays sorted |
| ReminderList.Store.Remove | plugins/reminders.py:196-206 | The new configuration and reply are those of RemoveResult |
| ReminderList.Store.RemoveCommand | plugins/reminders.py:193-206 | The entry number is the next string argument |
| ReminderList.Store.Command | plugins/reminders.py:175-206 | Dispatches "list" and "remove" on the lower-cased subcommand |
| ReminderList.Store.Fired | plugins/reminders.py:99-106 | A user without a list is left alone; otherwise the first equal entry is removed, or the ValueError of list.remove is raised |
| Kv.EncodeKey | util/db/kv/__init__.py:146-149 | A lone string or int becomes a 1-tuple of its text; a sequence becomes the tuple of its elements' texts |
| Kv.OneIsSingleton | util/db/kv/__init__.py:147-148 | A lone part and the 1-sequence holding it name the same row |
| Kv.StringKeysInjective | util/db/kv/__init__.py:149 | Distinct string keys stay distinct |
| Kv.IntAndItsTextCollide | util/db/kv/__init__.py:149 | An int and its decimal text are the same key |
| Kv.Freeze | util/db/kv/__init__.py:35-43 | Lists and dicts become frozen with the same length; scalars are unchanged |
| Kv.FreezeIsFrozen | util/db/kv/__init__.py:35-43 | A frozen result holds no mutable container |
| Kv.FreezeIdempotent | util/db/kv/__init__.py:35-43 | Freezing twice is freezing once |
| Kv.FrozenIsWellFrozen | util/db/kv/__init__.py:35-43 | A value already frozen is a fixed point |
| Kv.ThawOfFreeze | util/db/kv/__init__.py:45-53 | The thawing encoder writes a frozen value as its original |
| Kv.FreezeOfThaw | util/db/kv/__init__.py:45-59 | Freezing what the encoder sees equals freezing the value |
| Kv.Encode | util/db/kv/__init__.py:55-56 | None has no text; every other value is encoded |
| Kv.Decode | util/db/kv/__init__.py:58-59 | No text decodes to None |
| Kv.DecodeOfEncode | util/db/kv/__init__.py:55-59 | If the codec reads back what it writes, decoding an encoded value gives it back frozen |
| Kv.Removals | util/db/kv/__init__.py:117 | Exactly the keys whose value is None are deleted |
| Kv.Updates | util/db/kv/__init__.py:118 | Exactly the keys with text are upserted |
| Kv.PartitionIsExact | util/db/kv/__init__.py:116-118 | No key lands in both statements, and every key lands in one |
| Kv.SetRawValuesEffect | util/db/kv/__init__.py:116-131 | Every key of the batch holds the batch's value afterwards; other keys are untouched |
| Kv.ConfigStore.constructor | util/db/kv/__init__.py:137-139 | The store holds the rows it was given |
| Kv.Database.SetRaw | util/db/kv/__init__.py:119-131 | A failing transaction leaves the table unchanged; otherwise the namespace's rows are updated by the batch |
| Kv.Config.constructor | util/db/kv/__init__.py:165-169 | A new Config has no dirty keys |
| Kv.Config.Get | util/db/kv/__init__.py:174-175 | An absent key reads as None; a present key reads as the frozen decoding of its text |
| Kv.Config.Set | util/db/kv/__init__.py:177-184 | None removes the key (absent is fine), anything else stores its encoding, and either way the key becomes dirty |
| Kv.Config.Pending | util/db/kv/__init__.py:191 | The batch holds exactly the dirty keys |
| Kv.Config.Flush | util/db/kv/__init__.py:186-194 | On success, writes exactly the dirty keys (None for absent ones) and clears them; on failure the keys stay dirty and the table is unchanged |
| Kv.Config.GetAttr | util/db/kv/__init__.py:196-199 | Names starting with "_" read as None; other names read the key |
| Kv.Config.SetAttr | util/db/kv/__init__.py:201-204 | Names starting with "_" bypass the store; other names set the key |
| Kv.FlushSyncsDirtyKeys | util/db/kv/__init__.py:186-194 | After a successful flush, the table agrees with the store on every dirty key |
| DbLog.Fields | util/db/log.py:27 | One field per argument |
| DbLog.FieldShown | util/db/log.py:19-27 | The argument at 0-based i is shown exactly when i+1 is allowed; True shows all, and False shows none |
| DbLog.HiddenArgumentsInvisible | util/db/log.py:19-27 | Rows that agree on the shown positions are logged identically |
| DbLog.FilterMultiRows | util/db/log.py:29-39 | One row is filtered as filter_single filters it; no rows give the empty text |
| DbLog.HiddenBatchInvisible | util/db/log.py:29-39 | Redaction carries over to batches, row by row |
| DbLog.FmtQueryShape | util/db/log.py:41-51 | A falsy log_data gives the bare query; otherwise the query, " % " and the filtered arguments |
| DbLog.EmptyPositionsLogBareQuery | util/db/log.py:42-45 | An empty position collection is falsy, so only the query is logged |
| DbLog.FmtTable | util/db/log.py:53-54 | "schema.name" with a schema, else the name |
| DbLog.SeverityLevels | util/db/log.py:9-17 | The eight PostgreSQL severities map as listed, and anything else maps to INFO |
| Dsn.BareEnd | util/db/dsn.py:4 | An unquoted value runs over characters that are not white space, quote or backslash |
| Dsn.QuoteClose | util/db/dsn.py:4 | A quoted value ends at an unescaped closing quote |
| Dsn.MatchAt | util/db/dsn.py:4 | A match is non-empty and within the text |
| Dsn.FindAllLoop | util/db/dsn.py:15-19 | The findall loop computes the pairs in order |
| Dsn.DsnToUri | util/db/dsn.py:7-20 | Computes DsnUri |
| Dsn.DsnUriIsUri | util/db/dsn.py:11-20 | The result starts with "postgres://" or "postgresql://"; it starts with "postgres://" unless the input already was a URI |
| Dsn.DsnUriIdempotent | util/db/dsn.py:11-20 | Converting twice is converting once |
| Dsn.UriToAsyncpg | util/db/dsn.py:22-23 | "postgresql+asyncpg://?dsn=" followed by the percent-encoded URI |
| Dsn.PairsOfRender | util/db/dsn.py:15-19 | Pairs with word-character keys, written in quoted form, read back as themselves in order |
| Dsn.FindAllOfRender | util/db/dsn.py:16-19 | findall with a matcher that reads written pairs returns exactly those pairs |
| Dsn.MatchOfWritten | util/db/dsn.py:4-5 | One written pair is matched exactly, with the backslash escapes removed |
| Dsn.QuoteCloseOfEscape | util/db/dsn.py:4 | Escaped text followed by a quote is read up to that quote |
| Dsn.BareValue | util/db/dsn.py:4 | An unquoted value is read as written and holds no white space, quote or backslash |
| IdLists.Without | plugins/privileges.py:152 | Filtering never lengthens the list |
| IdLists.WithoutCount | plugins/privileges.py:152 | Filtering drops every occurrence of the id and keeps every other element as often |
| IdLists.WithoutAppend | plugins/privileges.py:152 | Filtering keeps the order |
| IdLists.WithoutAbsent | plugins/privileges.py:145-149 | Filtering out an absent id changes nothing |
| IdLists.NewEffect | plugins/privileges.py:79-84 | A new record lists nothing; an existing record is left alone, with the "already exists" reply |
| IdLists.DeleteEffect | plugins/privileges.py:86-91 | After delete the name is gone and nothing else changed; a missing name gets the "does not exist" reply |
| IdLists.NewThenDelete | plugins/privileges.py:79-91 | Creating a record, then deleting it, restores the configuration |
| IdLists.AddEffect | plugins/privileges.py:118-141 | After add the id is listed, appended at the end exactly when it was absent; other fields and records are unchanged |
| IdLists.RemoveEffect | plugins/privileges.py:143-170 | After remove the id is gone from the field, every other id keeps its count, and the rest is unchanged |
| IdLists.AddThenRemove | plugins/privileges.py:118-170 | Adding an absent id, then removing it, gives back the list |
| IdLists.Registry.New | plugins/privileges.py:79-84 | The new state and reply are those of NewResult |
| IdLists.Registry.Delete | plugins/privileges.py:86-91 | The new state and reply are those of DeleteResult |
| IdLists.Registry.Add | plugins/privileges.py:118-141 | The new state and reply are those of AddResult |
| IdLists.Registry.Remove | plugins/privileges.py:143-170 | The new state and reply are those of RemoveResult |
| Privileges.HasPrivilege | plugins/privileges.py:20-32 | True exactly when the user id is listed, or a role of a member is listed; a missing privilege gives false |
| Privileges.Check | plugins/privileges.py:42-46 | The command runs exactly when the author holds the privilege; otherwise the denial is logged |
| Privileges.NoRolesOutsideGuild | plugins/privileges.py:25-31 | A user outside a guild holds a privilege only through the users list |
| Privileges.NewAndDeletedGrantNothing | plugins/privileges.py:79-91 | A just-created or just-deleted privilege is held by nobody |
| Privileges.AddUserGrants | plugins/privileges.py:118-129 | The added user holds the privilege |
| Privileges.AddRoleGrants | plugins/privileges.py:131-141 | Every member with the added role holds the privilege |
| Privileges.RemoveUserRevokes | plugins/privileges.py:143-156 | After removal the user holds it only through a role |
| Privileges.RemoveRoleRevokes | plugins/privileges.py:158-170 | After removal that role no longer counts |
| Locations.Runs | plugins/locations.py:40-43 | A command runs exactly when it is in a guild channel and the location exists and lists the channel's id, or its category's id, never elsewhere |
| Locations.UncategorisedNeedsListing | plugins/locations.py:21-30 | A channel outside any category is inside only when listed itself |
| Locations.NewAndDeletedHoldNothing | plugins/locations.py:71-83 | A just-created or just-deleted location holds no channel |
| Locations.AddChannelIncludes | plugins/locations.py:109-118 | The added channel is inside |
| Locations.AddCategoryIncludes | plugins/locations.py:120-128 | Every channel of the added category is inside |
| Locations.RemoveChannelExcludes | plugins/locations.py:130-139 | After removal the channel is inside only through its category |
| Locations.RemoveCategoryExcludes | plugins/locations.py:141-150 | After removal a channel of that category is inside only when listed itself |
| RoleReactions.RetrieveMsgLink | plugins/rolereactions.py:70-73 | The link is built from the stored guild and channel |
| RoleReactions.LinkMatchOfPrefix | plugins/rolereactions.py:29 | After the link prefix, the ids are what is matched |
| RoleReactions.LinkOfFormatMsg | plugins/rolereactions.py:29 | A link built by format_msg is read back by msg_id_re as the same three ids |
| RoleReactions.LinkOfIds | plugins/rolereactions.py:66-67 | A link to numeric ids reads back as those ids |
| RoleReactions.RefOfReply | plugins/rolereactions.py:94-98 | A reply is accepted exactly with a guild id, a message id and the same channel, and gives those ids |
| RoleReactions.GetMsgRef | plugins/rolereactions.py:93-103 | A reply reference is used when present; otherwise the next argument, when it is a string (plain, code or inline code), is read as a message link |
| RoleReactions.NewEffect | plugins/rolereactions.py:165-174 | new stores the guild, channel and an empty emoji map; a configured message is left alone |
| RoleReactions.DeleteEffect | plugins/rolereactions.py:176-184 | delete drops exactly that entry, and only when there is one |
| RoleReactions.AddEffect | plugins/rolereactions.py:202-221 | add maps the emoji to the role and leaves every other mapping and entry unchanged |
| RoleReactions.AddNeverOverwrites | plugins/rolereactions.py:212-218 | A mapped emoji or an unresolved role changes nothing |
| RoleReactions.RemoveEffect | plugins/rolereactions.py:229-248 | remove deletes only that emoji's mapping and refuses an unmapped one |
| RoleReactions.AddThenRemove | plugins/rolereactions.py:202-248 | Adding a mapping, then removing it, restores the configuration |
| RoleReactions.Store.New | plugins/rolereactions.py:165-174 | The new state and reply are those of NewResult |
| RoleReactions.Store.Delete | plugins/rolereactions.py:176-184 | The new state and reply are those of DeleteResult |
| RoleReactions.Store.Add | plugins/rolereactions.py:202-227 | The new state and reply are those of AddResult |
| RoleReactions.Store.Remove | plugins/rolereactions.py:229-251 | The new state and reply are those of RemoveResult |
| RoleReactions.FindRole | plugins/rolereactions.py:136 | The first guild role whose id text matches, or none when no role matches |
| RoleReactions.PayloadRoleMapped | plugins/rolereactions.py:127-136 | A role is granted only on a configured message for a mapped emoji, and it is the mapped guild role |
| RoleReactions.AddThenReact | plugins/rolereactions.py:127-136 | After add, reacting with that custom emoji grants that role |
| RoleOverride.RemovedRoles | plugins/roleoverride.py:20-26 | The nested loop computes the set of removed roles |
| RoleOverride.OnMemberUpdate | plugins/roleoverride.py:19-28 | remove_roles is called with the removed roles exactly when there are any |
| RoleOverride.RemovedAreHeld | plugins/roleoverride.py:20-26 | Every removed role is held and masked by a configured role the member holds |
| RoleOverride.RemovedExactly | plugins/roleoverride.py:20-26 | A held role masked by a held configured role is removed |
| RoleOverride.NoMaskingRoleRemovesNothing | plugins/roleoverride.py:20-27 | A member without a masking role loses nothing |
| DbManager.TableOf | plugins/db_manager.py:66-76 | A table keeps at most 1000 rows after the column names, and "..." is appended when 1000 were kept |
| DbManager.Collect | plugins/db_manager.py:62-77 | The statement loop collects the tables and outputs in order; a failed statement's output is its error as a code block (format("{!b}", e)) |
| DbManager.CollectedTables | plugins/db_manager.py:62-77 | Each table has one placeholder in the outputs and holds 2 to 1002 rows |
| DbManager.OutputLen | plugins/db_manager.py:79-80 | A non-empty table has a positive length |
| DbManager.TotalLenUpdate | plugins/db_manager.py:82-94 | Changing one table changes total_len by the change in its length |
| DbManager.FirstMax | plugins/db_manager.py:87 | The first table of the greatest length |
| DbManager.Shrink | plugins/db_manager.py:88-93 | The step fails exactly on a table that is only "...", and otherwise leaves the table ending in "..." |
| DbManager.ShrinkLen | plugins/db_manager.py:88-94 | The step changes the length as the running total assumes |
| DbManager.ShrinkWeight | plugins/db_manager.py:86-93 | Every step shrinks the table's measure, so the loop ends |
| DbManager.FirstMaxHasRows | plugins/db_manager.py:86-87 | The longest table has rows while any table has |
| DbManager.ShrinkFailsOnLongLines | plugins/db_manager.py:86-94 | With a 2001-character status line beside a two-row table, the loop as written raises IndexError |
| DbManager.ShrinkTruncates | plugins/db_manager.py:88-93 | A shrunk table is always a prefix of its rows followed by "..." |
| DbManager.ShrinkAll | plugins/db_manager.py:86-94 | The loop's tables are exactly ShrinkAllFixed of the collected tables: each step shrinks the first longest table and the loop stops at the first fit; the estimate stays equal to total_len; on exit the reply fits, no table has rows, or the longest is only "..."; every table is a truncation of its original |
| DbManager.ShrinkStep | plugins/db_manager.py:86-94 | One step on the first longest table keeps the estimate equal to total_len and lowers the measure |
| DbManager.ShrinkAllFixedFacts | plugins/db_manager.py:86-94 | The intended loop keeps every table a truncation of its original and exits only when the reply fits, no table has rows, or the longest table is only "..." |
| DbManager.AsWrittenAgrees | plugins/db_manager.py:86-94 | Whenever the loop as written does not raise, its tables equal the intended loop's |
| DbManager.Rendered | plugins/db_manager.py:96-97 | One text per output |
| DbManager.SqlReply | plugins/db_manager.py:57-97 | The reply is at most 2000 characters and is exactly the first 2000 characters of the outputs rendered from ShrinkAllFixed of the collected tables, joined by line breaks |
| ModMail.Header | plugins/modmail.py:118-119 | The header starts with "**From " |
| ModMail.AttachmentLines | plugins/modmail.py:120 | Empty exactly when there are no attachments |
| ModMail.AttachmentLinesAppend | plugins/modmail.py:120 | The lines of two lists of attachments are the lines of each, in order |
| ModMail.FooterShape | plugins/modmail.py:120-124 | The footer is empty exactly with no attachments and an active thread; otherwise a line break, the attachment lines, and the role mention exactly without a thread |
| ModMail.Chunks | plugins/modmail.py:134-135 | Every part holds 1 to 2000 characters, and every part but the last holds 2000 |
| ModMail.ChunksConcat | plugins/modmail.py:134-135 | The parts put back together are header+text |
| ModMail.ChunkCount | plugins/modmail.py:134 | There are as many parts as steps of the range |
| ModMail.ChunkAt | plugins/modmail.py:135 | Part k is the slice starting at 2000*k |
| ModMail.Copy | plugins/modmail.py:136-140 | A copy starts with its part, stays within 2000 characters, and only the first replies to the thread |
| ModMail.FooterOnce | plugins/modmail.py:136-147 | A non-empty footer fits at most on the last part, so it is sent exactly once |
| ModMail.EmptyFooter | plugins/modmail.py:136-138 | With an empty footer every part takes it and nothing is added |
| ModMail.Relay | plugins/modmail.py:132-149 | The j-th copy carries the j-th part, the footer is sent alone unless a part took it, and a thread is recorded when none was active and a part was sent |
| ModMail.OnMessage | plugins/modmail.py:117-149 | The j-th copy is exactly Copy(j), the j-th slice with the footer appended when it fits; the copies hold header+text in order within 2000 characters each; only the first replies to the thread; the footer follows unless taken; a thread is recorded exactly when none was active |

## Left out

- Network I/O is not modelled: sends, edits, reactions, fetches and confirmation prompts. Each becomes a
  returned value (reply, note, `Action`, `Sent`), and discord.py converters are replaced by lookups over plain
  records.
- Two discord.py behaviours are not modelled:
  - the concrete permission flag table, which is a parameter (a list of distinct flag names);
  - how `PermissionOverwrite.from_pair` resolves a flag both allowed and denied. The model gives the pair
    before that resolution.
- Python's `csv` quoting is not modelled: rows are lists of cells.
- `repr`, the `json` codec and urllib's `quote`/`urlencode` are function parameters.
- Unicode case folding and character classes are not modelled. `str.lower`, `\d`, `\s`, `\w` and `isdigit` are
  ASCII only.
- Dict and set iteration order is insertion order. The `want_sync` set of `importperms` is kept in first-insertion
  order.
- The reminder expiry loop, its semaphore, `send_reminder`, `datetime.now` and `strftime` are not modelled. The
  current time and the UTC formatter are parameters.
- Argument resolution is not modelled. That covers `user_id_from_arg`, `role_id_from_arg`, `chan_id_from_arg`,
  `cat_id_from_arg`, `find_role_id`, `find_emoji_id`, `get_emoji` and `get_role`; the resolved id is a parameter.
- The show and list subcommands are not modelled. That covers `priv_show`, `loc_show`, `rolereact list`/`show`
  and the command dispatchers `priv_command`/`location_command`.
- The `priv_ext`/`location_ext` checks of discord.ext commands are not modelled.
- Reaction events (`rolereact_add`, `rolereact_remove`, `react_initial`) are not modelled. Only their role lookup
  `get_payload_role` is.
- Not modelled in db_manager: statement execution, the transaction and the reactions; each statement's outcome
  is an input.
- Not modelled in modmail:
  - the thread bookkeeping in SQL (`update_thread`, `create_thread`, `add_modmail`);
  - the configuration checks before line 117;
  - `modmail_reply`.
  The active thread is a parameter, and `msg.created_at` is passed as its text.
- `util/frozen_list.py` and `util/frozen_dict.py` are not part of this model. Frozen values are a separate
  `Json` constructor.
- The database side of `Config` is not modelled: `load`, the shared-store registry and its `ready` event. The
  database is a map from namespace to rows.
- `Dsn.DsnUriIsUri`: this differs from the plain reading of the docstring. A connection string that already
  starts with "postgresql://" is returned unchanged, as the code does, so not every result starts with
  "postgres://".
- `BulkPermsImport.ImportPerms`: the full export-then-import round trip is not proved. What is proved is the
  header round trip, the no-op of exported role and overwrite rows, and the role-row step.
- Text.ParseInt: accepts optional surrounding white space, a sign and ASCII digits only; the underscores
  between digits that Python's `int()` also accepts are rejected.
- DiscordUtil.FormatField: the format spec is ignored for plain values. The conversions `i`, `b`, `m`, `M`, `c`
  and `s` are modelled, but width, alignment and precision specs are not applied; only a code block reads the
  spec, as its language.
- Kv.Json: numbers are `Num(n: int)`; JSON floats (and `NaN`/`Infinity`) are not modelled.
- Digraphs.Digraph.Collect, Digraphs.Digraph.PostOrder: the recursive traversals do not model Python's recursion
  limit, so a very deep graph that would raise `RecursionError` is traversed completely.
- `Reminders.DurationOfRender`: the round trip is proved for the shortest spelling of each unit, written after a
  space. Other spellings are covered by the concrete lemmas only.

## Findings

| source | as written | input that shows it | evidently intended | confidence | as-written member | corrected member |
|---|---|---|---|---|---|---|
| plugins/bulk_perms.py:220 | The overwrite pass skips a channel when `channel` (left over from the row loop) is in `want_sync`, instead of testing the loop variable `chan`. | A category "k" (id 3), a text channel "a" (id 1) outside any category, and a text channel "z" (id 2) in "k" that is not synced; a role "r" (id 5); flags ["send"]. The file is the header `Category,Channel,Role/User,send`, then `,a,Role r,+`, then `k,z,(synced),`. The import as written announces the new allow on "a" and syncs "z", but queues only the sync: the edit of "a" is never applied. | Test `chan`, so every touched channel that is not to be synced gets its edit. | not executed | BulkPermsImport.ImportAsWritten, BulkPermsImport.StaleImportAsWritten | BulkPermsImport.Import, BulkPermsImport.StaleImport, BulkPermsImport.OverwritePassQueues |
| plugins/db_manager.py:88-89 | A table that ends in "..." loses the row before the marker via `pop(-2)`. Once only "..." is left, `pop(-2)` raises IndexError. | A status line of 2001 characters, then a two-row table ["a", "b"] (total_len 2014). The table becomes ["a", "..."], then ["..."], and the next step fails. | Stop shrinking a table that holds only the marker. | not executed | DbManager.ShrinkAllAsWritten, DbManager.ShrinkFailsOnLongLines | DbManager.ShrinkAll, DbManager.ShrinkAllFixedFacts, DbManager.AsWrittenAgrees |
