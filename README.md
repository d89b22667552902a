# Scoreboard plugin: a verified model of its commands

The project models the decision logic of a chat-bot plugin that keeps a score
leaderboard for each guild (chat group). The plugin has two database tables.
`scoreboard` holds `{guildId, playerId, name, score}` rows, at most one per
(guild, player). `scoreboardAdmins` holds at most one admin list per guild. A
guild with no row has no list, which is not the same as an empty list. The
mutating commands are these:

- `添加玩家` adds a player.
- `增减积分` adjusts scores, in a batch.
- `设定积分` sets scores, in a batch.
- `删除玩家` removes a player.
- `清空计分板` clears the board after a confirmation prompt.
- `添加计分管理员` adds an admin.
- `移除计分管理员` removes an admin.

Each command becomes a method of the class `Plugin.Scoreboard` whose fields are
the two tables. `Plugin.Scoreboard.Valid` is the invariant every method keeps:
at most one row per key, and no duplicate ids in any admin list.

The database calls are pure functions on the table, kept as a sequence of rows
in storage order (module `ScoreTable`):

- `get` is `Select`.
- `remove` is `Filter`, through `RemovePlayer` and `ClearGuild`.
- `set` is `SetScore`.
- `create` appends a row.

The admin list after a permitted add or remove is given by module `AdminList`.
The permission conditions are predicates in module `Permission`. The loop shared
by the two batch commands is specified by functions in module `Batch`. Each
batch method is proved against those functions. The facts the plugin promises
are lemmas about the same functions.

Modelling choices that follow the code:

- Adding, adjusting, setting, removing and clearing all test only membership in
  `超级管理员`. The guild admin lists are never consulted for them. The usage
  text at src/index.ts:50 says guild admins may run these commands too. The
  model follows the code.
- There is no group partition and no pagination.
- The adjust and set loops read the one mention at `session.elements[1]` on
  every pass. The target id is therefore one parameter of the whole batch. Each
  argument only says whether its text contains "at" (`Batch.Arg`). The
  command's own example `增减积分 -10 @koishi @shigma` (src/index.ts:120)
  therefore adjusts koishi twice and shigma not at all. The usage text
  promises batch changes, and the model follows the code.
- In the admin commands the membership test, the append and the removal all use
  `qqnum[0]`, the first character of the mentioned id. The first add for a
  guild stores the id itself. The methods take the key as a separate parameter,
  and `AdminList.AdminKey` is what the source passes. See "## Findings".
- `score || 0` is `score.GetOr(0)`.
- Scores are unbounded integers.

Inputs the chat layer supplies become parameters:

- the actor's id and the guild id;
- the resolved mention id;
- the display name stored on creation;
- the confirmation answer, as `Option<string>`, where `None` means the prompt
  timed out.

## Model

| member | source | states |
|---|---|---|
| `ScoreTable.SelectMembers` | src/index.ts:88-91 | A row is in the result of a `get` iff it is in the table and has that guild and player |
| `ScoreTable.FilterMembers` | src/index.ts:261-263 | A row survives a `remove` iff it was in the table and does not match the filter; no rows are added |
| `ScoreTable.SetScore` | src/index.ts:144-146 | A `set` by key rewrites rows in place; the table length does not change |
| `ScoreTable.SelectSetScoreOther` | src/index.ts:183-185 | A `set` on one key leaves every other key's rows exactly as they were |
| `ScoreTable.SelectSetScoreSame` | src/index.ts:144-146 | A `set` on a key changes only the score of that key's rows |
| `ScoreTable.SetScoreUnique` | src/index.ts:183-185 | A `set` keeps the at-most-one-row-per-key invariant |
| `ScoreTable.FilterUnique` | src/index.ts:244-247 | A `remove` keeps the at-most-one-row-per-key invariant |
| `ScoreTable.CreateFresh` | src/index.ts:92-100 | Creating a row for a key with none keeps the invariant, makes that row the only one a `get` finds, and changes no other key |
| `ScoreTable.RemovePlayerEffect` | src/index.ts:244-247 | After removing a player, that key has no rows and every other key keeps exactly its rows |
| `ScoreTable.ClearGuildEffect` | src/index.ts:261-263 | After clearing, the guild has no rows, every other guild keeps exactly its rows, and clearing twice equals clearing once |
| `AdminList.AdminKey` | src/index.ts:291 | `qqnum[0]` is the one-character string of the id's first character; it equals the id only for one-character ids |
| `AdminList.IndexOf` | src/index.ts:313 | `indexOf` gives a position holding the key with no earlier occurrence |
| `AdminList.RemoveFirst` | src/index.ts:314 | `splice(pos, 1)` removes exactly one occurrence of the key: the length drops by one and the multiset loses one copy |
| `AdminList.RemoveFirstSplices` | src/index.ts:313-318 | The removal keeps everything before and after the first occurrence, in order; in a list without duplicates the key is gone afterwards, every other id stays, and no duplicates appear |
| `AdminList.AddedListDistinct` | src/index.ts:285-298 | An add creates a missing list as `[id]` and otherwise leaves the key in the list; it never introduces a duplicate |
| `AdminList.DistinctOnce` | src/index.ts:291-294 | In a list without duplicates a member occurs exactly once |
| `AdminList.AddAdminIdempotent` | src/index.ts:291-298 | With the whole id as key, a second add of the same user changes nothing, and the user occurs exactly once |
| `AdminList.RemoveAfterAdd` | src/index.ts:310-318 | With the whole id as key, removing a user just added restores the previous list; a list the add created becomes empty |
| `AdminList.RemoveLastKeepsList` | src/index.ts:310-318 | Removing a guild's only admin leaves an empty list, not a missing one, so the next add appends its key where a guild without a list would get the whole id |
| `AdminList.AsWrittenReAddDuplicates` | src/index.ts:285-294 | As written, for any id of two or more characters, the first admin is not found under its key, and adding them again appends a second entry |
| `AdminList.AsWrittenExample` | src/index.ts:285-294 | As written, with the first add's id read back as the one-element list, adding "10001" twice to a guild with no list leaves `["10001", "1"]` |
| `AdminList.AsWrittenRemoveMissesFirst` | src/index.ts:310-314 | As written, after one add of "10001" the remove's key "1" is not in the list; after two adds the remove takes out the appended "1" and leaves `["10001"]` |
| `Permission.AddAdminPermission` | src/index.ts:281 | For a non-super-admin, adding admins is allowed iff `自我繁殖` is on and the actor is on the guild's list; a missing list allows nothing |
| `Permission.RemoveAdminPermission` | src/index.ts:306 | For a non-super-admin, removing admins is allowed iff `自相残杀` is on and the actor is on the guild's list; a missing list allows nothing |
| `Permission.DefaultsSuperAdminOnly` | src/index.ts:20-25 | With both flags at their default (off), every permission is exactly membership in `超级管理员` |
| `Batch.ReverseSnoc` | src/index.ts:147 | Reversing a list extended by a line puts that line first |
| `Batch.ReportSnoc` | src/index.ts:125-151 | The reply order is the successes newest first, then the failures oldest first; one more line is prepended if it is a success (`unshift`) and appended if it is a failure (`push`) |
| `Batch.StepExisting` | src/index.ts:143-147 | One pass on a player with a row rewrites its score when the argument is a mention, and leaves it otherwise |
| `Batch.RunBatch` | src/index.ts:125-149 | A batch produces one reply line per argument |
| `Batch.RunBatchUnique` | src/index.ts:144-146 | A batch keeps the at-most-one-row-per-key invariant |
| `Batch.RunBatchOtherKeys` | src/index.ts:137-146 | A batch leaves every other (guild, player) key's rows unchanged |
| `Batch.RunBatchLines` | src/index.ts:126-129 | Line i is the "no mention" failure iff argument i is not a mention |
| `Batch.RunBatchMissing` | src/index.ts:141-142 | For a player with no row, a batch changes nothing and every line is a failure; the reply is in processing order |
| `Batch.AdjustBatchTotal` | src/index.ts:143-147 | For a player with a row, an adjust batch leaves the initial score plus the delta once per mention |
| `Batch.AdjustBatchLines` | src/index.ts:141-147 | For a player with a row, every mention is reported as a success (never as "ignored"), from the initial score plus the deltas of the earlier mentions to that plus one more delta |
| `Batch.AssignBatchLines` | src/index.ts:180-186 | For a player with a row, every mention is reported as a success from the score it overwrote (the initial one for the first mention, the value afterwards) to the value |
| `Batch.AssignBatchFinal` | src/index.ts:182-186 | For a player with a row, a set batch leaves the given value if there is at least one mention, and the old score if there is none |
| `Plugin.ClearDecision` | src/index.ts:259-271 | The answer "确定" confirms, "取消" cancels, no answer times out, and anything else is refused; each case in both directions |
| `Plugin.Scoreboard.constructor` | src/index.ts:334-348 | A new board has empty tables and satisfies the invariant |
| `Plugin.Scoreboard.AddPlayer` | src/index.ts:82-117 | Non-super-admin: "denied" and no change. Not a mention: no change. Player exists: the existing score is reported and nothing changes. Otherwise exactly one row with score `score` or 0 is created; it is the key's only row and other keys are untouched. The admin table is untouched |
| `Plugin.Scoreboard.ApplyBatch` | src/index.ts:123-151 | The loop yields the table of `RunBatch` and its lines in report order (successes unshifted, failures pushed); it keeps the invariant and leaves the admin table alone |
| `Plugin.Scoreboard.AdjustScores` | src/index.ts:121-155 | Non-super-admin: "denied" and no change. An existing row ends at the old score plus delta times the mention count. A missing row gives only failures, in order, and no change. Other keys are untouched |
| `Plugin.Scoreboard.SetScores` | src/index.ts:160-194 | Non-super-admin: "denied" and no change. An existing row ends at the given value when mentioned. A missing row gives only failures and no change. With no mention the row stays. Other keys are untouched |
| `Plugin.Scoreboard.DeletePlayer` | src/index.ts:225-253 | Non-super-admin: "denied" and no change. Not a mention: no change. No row: "not found" and no change. Otherwise the key's rows are removed, the old score is reported, and every other key is untouched |
| `Plugin.Scoreboard.ClearBoard` | src/index.ts:256-275 | Non-super-admin: "denied". Otherwise the reply is the prompt decision. Only "确定" removes rows, and then exactly the guild's rows; every other guild is untouched |
| `Plugin.Scoreboard.AddAdmin` | src/index.ts:278-300 | "Denied" iff not permitted by the add-admin condition, with no change. Not a mention: no change. A missing list is created as `[id]`. A key already present gives "exists" with no change. Otherwise the key is appended once. The score table is untouched |
| `Plugin.Scoreboard.RemoveAdmin` | src/index.ts:303-321 | "Denied" iff not permitted by the remove-admin condition, with no change. Not a mention: no change. A missing list or missing key gives "not present" with no change. Otherwise the first occurrence is spliced out and the key is no longer in the list. The guild keeps its row, so `getAdmins` returns the shortened list, which may be empty. The score table is untouched |

## Left out

- Command registration, argument parsing, the `Schema` config and the usage text (src/index.ts:17-80, 334-348) are framework glue. Only the flags' defaults (off) are modelled, through `Permission.DefaultConfig`.
- Mention parsing is left out: the `/at/` test, the `/[0-9]+/` extraction and `session.elements[1].attrs.id`. Its results are inputs: an `Arg` per argument and one resolved id. A crash when `/[0-9]+/` finds no digits in `添加玩家` is not modelled.
- `Plugin.Scoreboard.AddAdmin`, `Plugin.Scoreboard.RemoveAdmin`: the source reads `session.elements[1].attrs.id` (src/index.ts:280, 305) before the permission test. A message with no second element therefore throws for every user. The model instead replies "denied" or "no mention", because the mention id is a parameter.
- `Plugin.Scoreboard.AdjustScores`, `Plugin.Scoreboard.SetScores`, `Plugin.Scoreboard.DeletePlayer`, `Plugin.Scoreboard.AddPlayer`: an argument whose text contains "at" but has no mention element makes `session.elements[1].attrs` throw (src/index.ts:98, 130, 169, 230). The model assumes the mention element exists whenever the argument is a `Mention`.
- Name lookups through `session.bot.getGuildMember` and the `red` platform branches are remote I/O. The stored name is a parameter. The model assumes every lookup succeeds. In the source a failed lookup, or a member object with neither name (`userData.user.name` at src/index.ts:142, 147, 248), aborts the command, after any earlier batch passes have already written.
- `查询积分` (src/index.ts:197-221) is not modelled. Its sorting is done by the database's `orderBy`, and the rest is per-row name lookup and formatting.
- `session.send`, the 30-second `session.prompt` and the reply strings are left out. Replies are the kinds in `Plugin.Reply`, and a batch reply is its list of lines before they are joined.
- `async`/`await` and the un-awaited `ctx.model.create`/`set` calls are not modelled. Every command runs atomically, one at a time.
- Scores are `int`, not floating-point `double`. `NaN` and rounding are not modelled.
- The table's auto-increment `id` column is not modelled.
- `Plugin.Scoreboard.AddAdmin`: the source passes the bare id string to the `list`-typed `adminId` column on first creation. The model stores the one-element list `[id]`. It does not model how the store would read back a string in that column.
- `AdminList.AdminKey`: for an empty id, `qqnum[0]` is `undefined` in the source. The model gives the empty string. Mention ids are never empty. `qqnum[0]` is a UTF-16 code unit, while `id[..1]` is a whole character. The two differ when the first character is outside the Basic Multilingual Plane.
- The unused imports at src/index.ts:1-6 are not modelled.

## Findings

| source | as written | input that shows it | evidently intended | confidence | as-written member | corrected member |
|---|---|---|---|---|---|---|
| src/index.ts:291-294 | The admin commands look up and append `qqnum[0]`, the id's first character, but the first admin of a guild is stored as the whole id | Assuming the store reads the bare string stored at src/index.ts:288 back as the list `["10001"]`: adding "10001" twice to a guild without a list reports success both times and leaves `["10001", "1"]`. Straight after the first add, removing "10001" answers "该管理员不存在". After the second add, the remove takes out the appended "1" and leaves `["10001"]`, so the whole-id entry can never be removed. Any later id starting with "1" counts as already present. If the store keeps the string, `includes` at line 291 is a substring test instead, and the outcome differs. Either way, lines 291 and 294 use `qqnum[0]` while line 288 stores `qqnum` and line 281 tests the actor's whole id | Use `qqnum` itself as the key | high (not executed) | `AdminList.AsWrittenReAddDuplicates` | `AdminList.AddAdminIdempotent` |

`Plugin.Scoreboard.AddAdmin` and `Plugin.Scoreboard.RemoveAdmin` take the key
as a parameter. With `AdminKey(id)` they behave as written. With `id` they
behave as intended, and then `AdminList.AddAdminIdempotent` and
`AdminList.RemoveAfterAdd` hold.
