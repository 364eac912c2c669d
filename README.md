# Alarm bot: the alarm engine, modelled in Dafny

This project models the core of a Discord reminder bot. Users schedule one-time alarms and
daily or weekly alarms in a channel. Every 15 seconds a checker delivers the alarms that are
due. It then deletes one-time alarms and re-arms recurring ones. Administrators can also turn
on a moderation log for deleted messages and voice-channel joins and leaves.

Two source files make up the core:

- `database.py` holds three SQLite tables: `alarms`, `user_timezones` and `log_settings`.
  The model is the class `Database.Store`. It has one map per table, keyed by the table's
  primary key, plus the AUTOINCREMENT counter of `alarms` (`lastId`). A ghost set `Issued`
  records every id ever handed out. Each store method is one atomic step. `add_alarm` (an INSERT
  and then `last_insert_rowid()`) and `toggle_delete_logging` (a SELECT and then an UPDATE) each
  run two statements, which the model treats as one; `init_db` becomes the constructor.
  The state-changing methods state the whole new state. The two alarm queries
  (`get_user_alarms` and `get_due_alarms`) are loops over the id range, proved against what
  the query selects. The timezone and log-settings reads are map lookups.
- `main.py` holds the command handlers and the checker.
  - `Scheduler` models the checker tick `check_alarms` as a loop over the due rows. Its
    postcondition ties the new `alarms` table to `AfterTick`, an all-at-once definition of
    the tick, and lemmas about `AfterTick` state the per-alarm rules. The tick also returns the
    ids of the alarms it posted, proved equal to `Posted`.
  - `Commands` models the past-time rule and the repeat normalisation of `!setalarm`, and
    the ownership check of `!deletealarm`.
  - `ModerationLog` models what the deleted-message and voice-state handlers post.

Conventions:

- Times are whole seconds since the epoch, in UTC (module `Clock`).
- A timezone-aware datetime is a `Commands.Moment`: an instant plus the UTC offset of its
  zone at that instant.
- The outside world of one tick is a `Scheduler.Delivery`. It lists which channel ids the bot
  can find, which alarms' `fetch_user`/`send` raise, and which alarms' `update_alarm_time`
  raises.

Behaviour of the code that the model keeps:

- Alarms cannot be paused: a row is either in the `alarms` table or deleted.
- An alarm whose delivery raises is deleted, whatever its repeat value (main.py:244-246).
- An alarm whose channel cannot be found is left untouched, so it is tried again on every
  tick (main.py:214-216).
- Recurrence works on UTC fields. A fired daily alarm gets the stored UTC hour and minute on
  the current UTC date, plus one day; a weekly alarm gets plus seven days. The stored seconds
  are dropped (main.py:224-236).
- A stored repeat value other than `daily` and `weekly` that is not empty (such as `monthly`)
  is written back with its old time. Such an alarm would fire on every tick
  (`Scheduler.OtherRepeatStaysDue`). The commands never store such a value
  (`Commands.NormalizeRepeat`).

On `!setalarm` the word "tomorrow" only matters when the parsed time is not after now. A
parsed time in the future is stored as it is.

## Model

| member | source | states |
|---|---|---|
| `Database.Store.constructor` | database.py:20-48 | a fresh database has three empty tables and an id counter at 0 |
| `Database.Store.AddAlarm` | database.py:53-63 | the new id is the counter plus one, larger than every id ever issued (deleted ones included) and never reused; the new row holds exactly the given user, channel, time, message, timezone and repeat; no other row or table changes |
| `Database.Store.GetUserAlarms` | database.py:68-77 | returns exactly the caller's rows, each once, with their stored columns, in non-decreasing time order |
| `Database.InsertByTime` | database.py:72-75 | adding one row to a time-sorted result keeps it sorted, adds exactly that row, and keeps ids distinct when the row is new |
| `Database.Store.GetDueAlarms` | database.py:82-89 | returns exactly the rows whose time is not after `now`, each once, of every repeat kind |
| `Database.WithTime` | database.py:97-98 | the time update changes only the `time` column of that one row; an unknown id changes nothing |
| `Database.Store.UpdateAlarmTime` | database.py:94-99 | the `alarms` table becomes `WithTime` of the old one; the counter and the other tables are unchanged |
| `Database.Store.DeleteAlarm` | database.py:104-108 | removes exactly that row if present; nothing else changes |
| `Database.DeleteIdempotent` | database.py:107 | deleting the same id twice leaves the same table as deleting it once |
| `Database.Store.SetUserTimezone` | database.py:113-121 | upserts the user's timezone; no other table changes |
| `Database.TimezoneOf` | database.py:129-132 | the answer is either a name stored in the table or "UTC" |
| `Database.Store.GetUserTimezone` | database.py:126-132 | returns the stored timezone, or "UTC" when the user has none |
| `Database.TimezoneIsLastWrite` | database.py:116-132 | a read returns the name last written for that user, writes for other users do not affect it, and an empty table reads "UTC" |
| `Database.WithLogChannel` | database.py:140-144 | a new guild gets delete logging on; an existing guild keeps its flag and only its channel changes; other guilds are unchanged |
| `Database.Store.SetLogChannel` | database.py:137-145 | the `log_settings` table becomes `WithLogChannel` of the old one; the other tables are unchanged |
| `Database.Store.GetLogSettings` | database.py:150-156 | returns the guild's row exactly when one exists |
| `Database.WithToggledLogging` | database.py:164-171 | only the flag of that guild is negated; a guild without a row is left alone |
| `Database.Store.ToggleDeleteLogging` | database.py:161-173 | returns None and changes nothing when the guild has no row; otherwise stores and returns the negated flag |
| `Database.ToggleTwiceRestores` | database.py:164-173 | two toggles restore the original table |
| `Database.WithoutExpired` | database.py:182-185 | the delete adds no rows, changes no surviving row, and keeps every row whose time is not before the cutoff |
| `Database.Store.CleanupExpiredAlarms` | database.py:178-186 | the `alarms` table keeps exactly the rows that are not both older than `now - days` days and with a NULL repeat (a row with an empty repeat survives, although the tick treats it as one-time) |
| `Database.CleanupRemovesExactlyExpired` | database.py:180-185 | a row is removed exactly when its time is before the cutoff and its repeat is NULL; recurring rows always survive, unchanged |
| `Scheduler.IsRecurring` | main.py:220 | the truthiness test fails for NULL and for the empty string, and holds for `daily`, `weekly` and `monthly` |
| `Scheduler.NextFireTime` | main.py:222-236 | a repeat other than `daily`/`weekly` keeps the stored time; a daily re-arm lies on the day after now's UTC date and a weekly one seven days after it; both are strictly after `now` |
| `Scheduler.NextFireTimeWindow` | main.py:220-236 | a daily re-arm lies in [start of tomorrow, start of the day after) (UTC) and a weekly one seven days later; both are strictly after `now`, at the stored hour and minute, with zero seconds |
| `Scheduler.NextFireTimeIdempotent` | main.py:224-236 | re-arming an already re-armed time at the same instant changes nothing |
| `Scheduler.NextFireTimeIgnoresStoredDate` | main.py:224-236 | the re-arm time depends on the stored time only through its hour and minute (reset to now's date, no drift) |
| `Scheduler.Decide` | main.py:213-246 | a due alarm is kept exactly when its channel is missing or its time update raises after a delivered recurring send; it is deleted exactly when its channel is found and its send raises or it is one-time; otherwise it gets its re-arm time |
| `Scheduler.AfterTick` | main.py:209-246 | a tick adds no rows and changes no column of a surviving row except `time` |
| `Scheduler.ApplyAllIsTickOn` | main.py:211-246 | handling the due rows one at a time, as the loop does, gives the same table as taking every row's transition at once |
| `Scheduler.Posted` | main.py:212-217 | the alarms a tick posts are due rows whose channel is found and whose send does not raise; a row whose channel lookup yields nothing is never posted |
| `Scheduler.CheckAlarms` | main.py:209-246 | one tick posts exactly `Posted` of the old table, turns the `alarms` table into `AfterTick` of the old one, leaves the counter and the other tables unchanged, and keeps the store invariant |
| `Scheduler.DueAlarmOutcome` | main.py:213-246 | for a due alarm: missing channel leaves it untouched; a send that raises deletes it; a delivered one-time alarm is deleted; a delivered recurring alarm gets its re-arm time, or keeps its old time when the update raises |
| `Scheduler.TickTouchesOnlyDue` | main.py:211-212 | a tick adds no rows and leaves every row that was not due unchanged |
| `Scheduler.StillDueAfterTick` | main.py:213-246 | a row still due at the same instant after a tick was left untouched, and only because its channel was missing, its time update raised, or its repeat is neither daily nor weekly |
| `Scheduler.OtherRepeatStaysDue` | main.py:220-239 | a delivered alarm whose repeat is non-empty but neither `daily` nor `weekly` (such as `monthly`) is written back with its old time and is still due |
| `Commands.ContainsIffOccurs` | main.py:104 | the substring scan answers true exactly when the pattern occurs at some index |
| `Commands.Lower` | main.py:104 | lower-casing keeps the length and lower-cases each character in place |
| `Commands.Contains` | main.py:104 | the substring scan answers true only when the pattern fits in the text, and always for the empty pattern |
| `Commands.MentionsTomorrow` | main.py:104 | the text mentions "tomorrow" exactly when the word occurs at some index of its lower-cased form |
| `Commands.MentionsTomorrowAnyCase` | main.py:104 | for every text, the mention test holds exactly when eight consecutive characters spell "tomorrow" in any mix of cases |
| `Commands.HasId` | main.py:152 | the ownership test holds exactly when the id is among the ids of the caller's rows |
| `Commands.AdjustPastTime` | main.py:103-107 | the stored instant is the parsed one or one day later; a parsed time after now is kept; a day is added exactly when the parsed time is not after now and the text says "tomorrow" or its clock time is earlier than now's |
| `Commands.EarlierTodayMovesToTomorrow` | main.py:97-107 | a clock time earlier today, in the same zone, moves to tomorrow and ends up strictly after now and less than a day away |
| `Commands.NormalizeRepeat` | main.py:109 | the stored repeat is only "daily", "weekly" or None, and it is the typed value exactly when that value is one of the two lower-case words |
| `Commands.SetAlarm` | main.py:90-111 | when the time parses, stores one new row with the adjusted time, the caller's timezone (UTC by default) and the normalised repeat; when it does not, the store is unchanged |
| `Commands.DeleteAlarmCommand` | main.py:149-156 | deletes the alarm exactly when it exists and belongs to the caller; otherwise the store is unchanged |
| `ModerationLog.ReplaceChar` | main.py:185 | replacing one character with another keeps the length and changes exactly the matching positions |
| `ModerationLog.LoggedContent` | main.py:185 | the excerpt has no backtick, is at most 900 characters, and is the content's prefix with each backtick turned into `'` |
| `ModerationLog.MessageDeleteLog` | main.py:176-189 | a post happens exactly for a non-bot author in a guild whose settings row exists with delete logging on and whose log channel is found; it carries the sanitised excerpt |
| `ModerationLog.VoiceAction` | main.py:199-204 | "joined" when there was no previous channel, "left" when there is no new one; a move between two channels, or no change, reports nothing |
| `ModerationLog.VoiceStateLog` | main.py:191-206 | a post happens exactly for a join or leave in a guild that has a settings row whose log channel is found |
| `ModerationLog.DeleteFlagSilencesOnlyDeletes` | main.py:178-206 | with delete logging off, deleted messages are not logged but joins still are |

## Left out

- The Discord API is not modelled: the bot connection, intents, embeds, `fetch_user`, the text
  of the posted messages, user mentions, `bot.run` and the `!alarmhelp` text (main.py:19-72,
  249-261). Channel lookup is a set of channel ids the bot can find. A delivery or update
  failure is a set of alarm ids.
- The thin command wrappers are not modelled: `!settimezone`, `!gettimezone`, `!listalarms`,
  `!setlogchannel` and `!toggledeletelog` (main.py:75-87, 122-147, 159-173). They call store
  operations, which are modelled, and format a reply. `!listalarms` calls both
  `get_user_alarms` and `get_user_timezone` and converts each time to the user's zone for
  display. The permission check and the timezone-name check by pytz are left out with them.
- aiosqlite connections and commits are not modelled. Neither is the rule that a read
  swallows an I/O error and returns a default. Storage is assumed not to fail, except for the
  time update inside a tick, where the failure is an input.
- If `delete_alarm` raises inside the tick's exception handler (main.py:246), the exception
  escapes `check_alarms`. That aborts the rest of the tick and, under `tasks.loop`, ends the
  loop, so no later tick runs. The model assumes deletion does not fail.
- Time parsing by dateutil and timezone offsets by pytz are foreign libraries. What they
  produce is an input: `SetAlarm`'s `parsed` and `now` moments, or `None` when parsing raised.
- How the bot splits command arguments is not modelled. For example, the first word of an
  alarm message is taken as the repeat argument when no repeat is given. The default message
  "Alarm!" is not modelled either.
- Times are stored as ISO-8601 text and compared as text. The model uses integer seconds and
  assumes the text order agrees with instant order.
- Sub-second precision is dropped. The source keeps microseconds, and `replace(second=0)`
  keeps now's microseconds in a re-armed time.
- The year range of Python's `datetime` is not modelled. Re-arming past year 9999 would raise
  and delete the alarm. SQLite's 64-bit id limit is not modelled either.
- `Scheduler.CheckAlarms`: the source reads the clock once for the due query and again for
  each recurring alarm. The model uses one instant `now` for the whole tick.
- The 15-second `tasks.loop` schedule is not modelled. The command handlers and the tick run
  as coroutines on one event loop and can interleave at every `await`; the model runs every
  command and every tick alone, as one sequential method call. So it does not capture, for
  example, a `!deletealarm` that lands while the tick awaits `channel.send` for that alarm
  (the alarm is still posted), or two `!toggledeletelog` commands that both read the same flag
  and both write its negation (the flag then flips once, unlike `Database.ToggleTwiceRestores`).
- The `created_at` column is not modelled. It is filled by the database clock and never read.
- `Commands.Lower` lower-cases ASCII letters only. No other character lower-cases to a letter
  of "tomorrow", so the mention test is unaffected.
- `Database.Store.GetDueAlarms` promises no order, and neither does the SQL, which has no
  ORDER BY.
- The unused Flask, Thread and requests imports and the environment loading are not modelled
  (main.py:6-16).
