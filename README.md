# Discord activity time tracker, modelled in Dafny

The bot watches Discord presence updates. When a member starts an eligible
activity (a game being played or streamed, not on a ban list), the bot opens a
session `(name, start)` for them in the in-memory `tracking_list`. When the
activity ends, the session is closed and handed to `GameData.store_activity_data`.
That call adds the session's rounded minutes to the game's overall time and to
the member's own entry in the game's record.

The model has six modules:

- `Wrappers` (`wrappers.dfy`): the `Option` type.
- `Activities` (`activities.dfy`): the list helpers of `main.py`.
  - `activity_eligibility_check` is `IsEligible`.
  - `remove_activity_list_duplicates` is the loop `RemoveDuplicates`, specified by the function `Dedup`.
  - `strip_ineligible_activities` is `StripIneligible`, specified by `Strip`.
  - `translate_activity_names_list_to_activity_list` is the nested loop `TranslateNames`, specified by `Translate`.
  - `compare_activity_lists_by_names` is the function `CompareByNames`.
- `DurationFormat` (`duration_format.dfy`): `formatted_str_from_minutes` as `FormatMinutes`.
  - `ParseDuration` reads an `"Xh Ym"` string back. It has no counterpart in the bot and exists so that round-trip lemmas can state what the formatter shows.
- `Games` (`games.dfy`): the game records and `store_activity_data`.
  - The database table is the field `records: map<string, GameData>` of the class `GameStore`.
  - `get_or_create` and `save` are methods on that map.
  - `StoreActivityData` is proved equal to the function `Stored`.
  - Lemmas about `Stored` and its iterate `StoredAll` cover the Spotify exception, the exact minute increments, records left untouched, and the balance between a game's total and its users' minutes.
- `Presence` (`presence.dfy`): `on_presence_update`.
  - The class `Tracker` holds `tracking_list` as `tracking: map<UserId, seq<ActivityData>>`.
  - `OnPresenceUpdate` is proved to produce the state given by the function `PresenceStep`. It also reproduces the store calls, in order, as the `closed` sessions of that step.
  - The removal loop at main.py:190-193 removes from the list it iterates over. `CloseRemoved` models it as an index loop, with the specification function `SweepFrom`. The loop reproduces Python's behaviour of skipping the element after each removed one.
  - The lemmas `SweepSkipsNext` and `SweepSkipExample` show that a session named in `to_remove` can survive. The other lemmas state only what stays true despite the skip.
- `Scenarios` (`scenarios.dfy`): worked examples of whole events, stated as lemmas about the specification functions.

Other modelling choices:

- Time is an integer count of microseconds, and the handler's `now` is a parameter.
- `elapsed.seconds` is the elapsed time modulo one day, in whole seconds.
- `round(seconds / 60)` is stated exactly: round to the nearest minute, and on an exact half minute round to the even one.
- An activity is a record of its name and an optional `ActivityType`. `None` stands for an activity object without a `type` attribute.
- A member snapshot is its activity list: `before.activity` is falsy exactly when that list is empty. `before.bot` is the `isBot` flag and `after.id` is `id`.
- The ban list `config.BANNED_ACTIVITY_NAMES` is the parameter `banned`. `config.py` is not part of this model.

## Model

| member | source | states |
|---|---|---|
| Activities.IsEligible | main.py:65-75 | A banned name is refused, and so is a typed activity that is not playing or streaming. An unbanned activity with no type, or with type playing or streaming, is accepted. |
| Activities.RemoveDuplicates | main.py:78-87 | The loop computes `Dedup` of the input. Its result has pairwise-distinct names and exactly the input's set of names. |
| Activities.DedupKeepsFirstOccurrences | main.py:78-87 | The output is the input restricted to an increasing list of positions. Those positions are exactly the ones where a name occurs for the first time. |
| Activities.DedupNameSet | main.py:78-87 | Every name of the input appears in the output, and no other name does. |
| Activities.DedupUnique | main.py:82-85 | Output names are pairwise distinct. |
| Activities.DedupOfUnique | main.py:78-87 | A list whose names are already distinct is returned unchanged. |
| Activities.StripIneligible | main.py:90-100 | The loop computes the eligible activities of the de-duplicated list, in order. Each element is eligible and the names are distinct. |
| Activities.StripProperties | main.py:90-100 | An activity is in the result exactly when it is in the de-duplicated input and eligible. The names are distinct. |
| Activities.StripIdempotent | main.py:90-100 | Stripping an already stripped list changes nothing. |
| Activities.TranslateNames | main.py:103-112 | The nested loop computes `Translate(nameList, activities)`. |
| Activities.TranslateMembers | main.py:103-112 | An activity is in the output exactly when it is in the list and its name is in `name_list`. |
| Activities.TranslateUnique | main.py:103-112 | Distinct names, looked up in a list with distinct names, give an output with distinct names. |
| Activities.MatchingOfUnique | main.py:107-109 | In a list with distinct names, the inner loop finds exactly one activity when the name occurs in the list, and none otherwise. |
| Activities.CompareByNames | main.py:115-134 | `same` holds exactly when the two name sets are equal, and then both difference sets are empty. Otherwise `to_remove` is X\Y and `to_add` is Y\X. The two sets are always disjoint. |
| Activities.CompareSymmetric | main.py:127-134 | Swapping the arguments keeps `same` and swaps `to_remove` and `to_add`. |
| Activities.CompareReflexive | main.py:130-132 | A list compared with itself gives `(True, {}, {})`. |
| DurationFormat.FormatMinutes | main.py:46-62 | The minimal form is never empty and ends in `h` when there is at least one hour, otherwise in `m`. Any non-empty result ends in a unit letter, never in the separating space. |
| DurationFormat.DecimalRoundTrip | main.py:58-60 | The decimal text an f-string shows for a natural number reads back as that number. |
| DurationFormat.FormatMinutesRoundTrip | main.py:55-62 | The full format reads back as the minute count when it is non-negative. For a negative count no hours are shown, so only the remainder modulo 60 reads back. |
| DurationFormat.FormatMinimalRoundTrip | main.py:57-58 | The minimal format is never empty. It shows whole hours when there is at least one hour, and otherwise the minute remainder. |
| DurationFormat.FormatMinutesShape | main.py:60-62 | The full format never ends in a space. It is empty exactly when there are neither hours nor minutes to show. |
| DurationFormat.FormatExample | main.py:46-58 | 320 minutes is `"5h 20m"` in full and `"5h"` in minimal form. |
| Games.SecondsField | models/activity.py:33 | The `.seconds` field is below 86400. It equals the elapsed whole seconds when the elapsed time is under one day. |
| Games.RoundedMinutes | models/activity.py:36 | The result is within 30 seconds of the seconds value. On an exact half minute it is even (half-to-even). |
| Games.RoundedMinutesUnique | models/activity.py:36 | Any minute count within 30 seconds, and even on a tie, is the rounded value, so the rounding is uniquely determined. |
| Games.SessionMinutes | models/activity.py:33-36 | A session adds between 0 and 1440 minutes, namely the rounded `.seconds` of the elapsed time. |
| Games.AddUsage | models/activity.py:36-40 | The record keeps its name, and its total grows by the minutes. The user gains an entry equal to their old minutes (0 when missing) plus the minutes. Every other user's entry is unchanged. |
| Games.Stored | models/activity.py:24-42 | The table gains the session's game as a key unless the session is Spotify's. Every other game's record is unchanged. |
| Games.StoredUntracked | models/activity.py:28-29 | Storing a `"Spotify"` session changes no record. |
| Games.StoredAddsMinutes | models/activity.py:34-42 | The game's record exists afterwards. Its total and the user's entry (counted as 0 when missing or zero) each grow by exactly the session's minutes. Every other record is unchanged. |
| Games.AddUsageKeepsUnattributed | models/activity.py:36-40 | Overall time minus the sum of the users' minutes is unchanged by the update. |
| Games.StoredKeepsBalance | models/activity.py:11-13 | A fresh record has overall time equal to the sum of its users' minutes, and every store keeps that equality for all records. |
| Games.StoredAllKeepsBalance | models/activity.py:34-40 | Any sequence of stores keeps every record balanced. |
| Games.StoredAllNeverDecreases | models/activity.py:36 | No sequence of stores drops a record or lowers a game's overall time. |
| Games.StoredAllOtherGames | models/activity.py:34-42 | A game that none of the stored sessions names keeps its record, or its absence. |
| Games.GameStore.constructor | models/activity.py:9-13 | The table starts empty. |
| Games.GameStore.GetOrCreate | models/activity.py:34 | Returns the existing record, or inserts and returns `(name, 0, {})`. `created` reports which of the two happened. |
| Games.GameStore.Save | models/activity.py:42 | Writes the record back under its name. |
| Games.GameStore.StoreActivityData | models/activity.py:24-42 | The new table is `Stored(old table, user, session, now)`, and a balanced table stays balanced. |
| Presence.SweepFrom | main.py:190-193 | The loop from position `i` splits the list into kept and closed sessions whose lengths add up to the list's. At most one session is closed per position still ahead of the iterator. |
| Presence.SweepPartition | main.py:190-193 | The removal loop leaves every stored session either kept or closed, and none in both or twice (as multisets). |
| Presence.SweepClosesOnlyRemoved | main.py:191-193 | Every closed session was stored and is named in `to_remove`. |
| Presence.SweepKeeps | main.py:190-192 | Sessions not named in `to_remove`, and sessions before the loop's position, stay in the list. |
| Presence.SweepSkipsNext | main.py:190-192 | The session right after a removed one stays in the list, whatever its name. |
| Presence.SweepSkipExample | main.py:190-193 | With stored `[A, B]` and both names in `to_remove`, A is stored and B is still tracked. |
| Presence.SweepKeepsUnique | main.py:190-192 | Removing from a list with distinct names keeps the names distinct. |
| Presence.StartSessionsFacts | main.py:150 | The new sessions carry exactly the names of the activities, all start now, and have distinct names when the activities do. |
| Presence.UnstoredMembers | main.py:196-201 | An activity gets a new session exactly when it is translated and its name is not already tracked. |
| Presence.PresenceStep | main.py:137-204 | An event only ever adds or replaces the entry of its own user, and leaves every other user's sessions unchanged. It stores something only for a non-bot user who has an entry. |
| Presence.OpenStep | main.py:146-150 | Opening stores nothing and touches only the user's own entry. |
| Presence.CloseStep | main.py:153-163 | Closing adds no user. When it stores anything, the user was tracked and their entry is gone afterwards. Other users are unchanged. |
| Presence.ReconcileStep | main.py:165-204 | Reconciling touches only the user's own entry, and stores something only when the user was tracked. |
| Presence.StepIgnored | main.py:143-176 | The event changes nothing and stores nothing in four cases: a bot; two empty snapshots; two non-empty snapshots without eligible activities; equal eligible name sets. |
| Presence.StepOpens | main.py:146-151 | From no activity to some, nothing is stored. If any activity is eligible, the user gets one session per eligible name, all starting now, with distinct, unbanned names; other users are untouched. Otherwise nothing changes. |
| Presence.StepClosesAll | main.py:153-163 | From some activity to none, every stored session is handed to the store in order. The user's entry is dropped when it was non-empty. |
| Presence.StepReconciles | main.py:165-204 | With sessions stored and eligible names changed: sessions not named in `to_remove` keep their start; a closed session was stored and is named in `to_remove`; a stored session is closed exactly when it is no longer tracked, and at most once; new sessions start now and carry `to_add` names; the user's names afterwards are exactly the kept names plus every `to_add` name; names stay distinct; other users are untouched. |
| Presence.StepStartsUntracked | main.py:178-188 | With nothing stored and eligible names changed, nothing is stored. The user's entry becomes one session per `to_add` name, all starting now; other users are untouched. |
| Presence.StepPreservesConsistency | main.py:137-204 | Every event keeps distinct, unbanned names that started no later than now, for every tracked user. It hands to the store only sessions that the event's user had stored. |
| Presence.IterationOrder | main.py:185-187 | Iterating the set `to_add` visits every name exactly once, in some order. |
| Presence.StoreAll | main.py:161-163 | Handing the sessions to the store one by one gives `StoredAll` of them. |
| Presence.CloseRemoved | main.py:189-193 | The loop leaves the list `SweepFrom(list, 0, to_remove).kept`. It stores exactly the closed sessions of that sweep, in order. |
| Presence.UpdateEntry | main.py:178-202 | Builds the new entry given by `NewEntry` for some enumeration of `to_add`, and stores the sessions given by `ClosedBy`. |
| Presence.Tracker.constructor | main.py:31 | `tracking_list` starts empty. |
| Presence.Tracker.OnPresenceUpdate | main.py:137-204 | The new `tracking_list` is `PresenceStep` of the old one, for the order in which `to_add` was iterated. The table equals the old one after storing that step's closed sessions in order. |
| Presence.Tracker.CloseAll | main.py:153-163 | Drops the entry and stores every stored session, as `CloseStep` says. |
| Presence.Tracker.Reconcile | main.py:165-204 | Performs `ReconcileStep`, both on `tracking_list` and on the table. |
| Scenarios.ChessScenario | main.py:146-163 | User 42 opens Chess at time 0 and closes it 125 seconds later. Chess then has a record of 2 minutes, all attributed to user 42. |
| Scenarios.SwitchAddsSecond | main.py:195-204 | Going from A to A and B at 60 seconds keeps A's start and opens B at 60 seconds. |
| Scenarios.SwitchDropsFirst | main.py:189-204 | Going from A and B to B at 120 seconds keeps B and stores A. User 7 gets 2 minutes on A. |

## Left out

- The slash commands `move_all`, `wake_up`, `playtime_log` and `playtime`, the `game_search` autocomplete, and the error handlers (main.py:24-25, 224-410): Discord I/O and message formatting only.
- `channel_name_loop` (main.py:209-221): a periodic task that renames a channel.
- Startup and shutdown (`main`, the event loop, dotenv, `db_init`): environment and I/O only.
- `models/action_log.py`: a one-line ORM `create` wrapper that neither modelled file calls.
- Tortoise ORM persistence: the table is a map in memory, `get_or_create` inserts `(name, 0, {})`, and `save` writes the record back.
- Concurrency: `async`/`await` scheduling and the interleaving of presence events. One event is modelled at a time, and each `await` of the store is an ordinary call.
  - Presence.CloseRemoved: the list inside `tracking_list` and the loop's list are the same Python object, so an event handled during an `await` in the loop could change it. The model treats the list as a value.
- The wall clock `datetime.utcnow()`: the event's time `now` is a parameter, and `store_activity_data` uses the same `now`.
- Float semantics: `round(seconds / 60)` is stated with exact integer rounding instead.
- The JSON `users` field: it stores user ids as string keys after a database round trip, while the code looks them up as integers. The model keys the map by user id throughout.
- The mutable `{}` default shared between `GameData` instances.
- The strings of `__repr__` and `__str__`.
- Games.GameStore.StoreActivityData: the console output `print("Storing ", game_name)` (models/activity.py:31) is not modelled, since it changes no state.
- `tracking_list[id] = None`: when the user's entry was missing or `None` and `to_add` is empty, the source writes `None` (main.py:178-188, 204). An entry that already held `[]` gets `[]` back. The model writes the empty list in both cases, and every later lookup treats `None` and `[]` the same way.
- Games.GameStore.StoreActivityData: the handler passes an `ActivityData` object (main.py:163, 193), but the function indexes its argument as `activity_data[0]` and `activity_data[1]` (models/activity.py:26-27). The model takes that argument as the `(name, start)` pair the function evidently intends, so the mismatch itself is not modelled.
- Activities.TranslateMembers: states which activities are in the output, not their order. The grouping by `name_list` order, with input order inside each group, is stated only by the definition of `Translate` and the loop invariant of `TranslateNames`.
- Presence.Tracker.OnPresenceUpdate: Python's iteration order of the set `to_add` is not determined. The handler returns it as a ghost enumeration, and every property holds for any such order.
