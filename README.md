# NicheBot daily rotation, modelled in Dafny

NicheBot is a Discord bot that keeps a roster of users, each with a timezone,
and once per calendar day sends one randomly picked user a direct message when
it is 23:xx in that user's timezone. This project models the bot's core in
`main.py`:

- the roster, the module-level `users` dict from user id to `{name, timezone}`;
- the `/add`, `/remove` and `/list` handlers that change or render it;
- `last_selected`, the record of the last selected user and date;
- `hourly_check`, the once-a-minute tick that decides whether to pick, record and message someone.

Files:

- `wrappers.dfy` (`Wrappers`): `Option`, standing for Python's `None`.
- `roster.dfy` (`Roster`): the dict as an insertion-ordered sequence of (id, entry) slots with distinct ids. It defines lookup (`Find`, `Get`), `Keys`, insertion `Put` (`users[id] = e`) and `Pop` (`users.pop(id, None)`).
- `listing.dfy` (`Listing`): the `/list` text. `Split` independently reads the text back into lines.
- `rotation.dfy` (`Rotation`): one tick as a pure function `Tick`. The hour comparison is a parameter: `HourOfDayTest` is the intended check, `SourceTest` is the comparison as written.
- `schedule.dfy` (`Schedule`): runs of interleaved commands and ticks, and the once-per-date guarantee over them.
- `bot.dfy` (`NicheBot`): class `Bot`, whose fields `users`, `lastUserId` and `lastDate` hold the module-level state. Its methods update the fields in place, and each is tied to the pure definitions.

The outside world enters a tick as a `TickInput`:

- `now` is the process clock (`datetime.now()`).
- `choice` is the random index behind `random.choice`. It is taken modulo the roster size, so every pick is a key.
- `clock` is the wall clock of a timezone (`datetime.now(pytz.timezone(tz))`).
- `fetchOk` and `sendOk` say whether `bot.fetch_user` and `user.send` return normally.

Two choices where the code's behaviour may be surprising; the model follows the code:

- The code records `last_selected` before calling `send` (main.py:113-115). A failed send therefore still uses up the day. Recording only after a successful send would differ: there, a failed send would leave the day open for a retry.
- An unknown timezone is not treated as a non-match. The code never handles it, and `/add` only offers four fixed zones.

## Model

| member | source | states |
|---|---|---|
| Roster.Find | main.py:49 | the position found holds the key and is its first occurrence; None exactly when no slot holds the key |
| Roster.Keys | main.py:108 | `list(users.keys())` lists a value exactly when a lookup finds it, and lists no key twice |
| Roster.Put | main.py:49 | after `users[id] = e`, `id` maps to `e` and every other key keeps its entry. Keys stay distinct. An existing key keeps its position; a new key is appended |
| Roster.Pop | main.py:60 | `users.pop(id, None)` returns the old entry or None. Afterwards `id` is absent and every other key keeps its entry. An absent id leaves the roster unchanged; a present one closes its gap and keeps the other slots in order |
| Listing.SplitJoin | main.py:79-82 | splitting a newline-join of newline-free pieces at newlines gives the pieces back |
| Listing.ListTextLines | main.py:74-83 | an empty roster lists as the fixed "no users" message. A non-empty one lists as a text whose lines are exactly the entries' renderings, one per entry, in roster order |
| Rotation.Pick | main.py:108 | the random pick is a key of the roster |
| Rotation.Tick | main.py:96-118 | empty roster: no-op with nothing looked at. Date already recorded: no-op. Minute other than 59: no-op. Any pick is a roster key, made only at minute 59 on an unrecorded date. State changes exactly on a commit, which sets id and date together to the pick and today, and requires the hour check and a successful fetch. A failed fetch records nothing. A failed send keeps the record |
| Schedule.Apply | main.py:48-118 | every handler and tick keeps the keys distinct and `last_selected` either unset or fully set. Commands leave `last_selected` alone; ticks leave the roster alone |
| Schedule.Run | main.py:18-22 | the state invariant holds after any run of commands and ticks |
| Schedule.SelectedDayIsQuiet | main.py:102-104 | once a date is recorded, every further tick on that date records nothing, sends nothing and leaves `last_selected` unchanged, whatever commands run in between |
| Schedule.OncePerDate | main.py:101-114 | over any run whose ticks share date d and run one at a time, at most one tick commits. One does exactly when the recorded date changes, and it records d |
| Schedule.SourceNeverSelects | main.py:110 | with the comparison as written, no run ever commits or sends, and `last_selected` never changes |
| Schedule.SourceKeepsInitial | main.py:19-22 | with the comparison as written, from process start `last_selected` stays `{None, None}` after any run of commands and ticks |
| Schedule.TriggerHourCommits | main.py:107-114 | with the intended comparison, a tick at minute 59 on an unrecorded date commits when the candidate's local hour is 23 and the fetch succeeds. So a new date makes a selection possible again |
| Schedule.FetchFailureRetries | main.py:111-118 | a failed `fetch_user` leaves the date open: the same tick with a successful fetch then commits |
| NicheBot.Bot.constructor | main.py:18-22 | start state: empty roster and `last_selected` all None |
| NicheBot.Bot.Add | main.py:48-49 | updates the roster in place to `Put` of the old roster. The added entry is readable and the other entries are unchanged |
| NicheBot.Bot.Remove | main.py:59-61 | updates the roster in place to `Pop` of the old roster and returns the removed entry, None when absent |
| NicheBot.Bot.ListUsers | main.py:72-83 | the `/list` text, the fixed message for an empty roster |
| NicheBot.Bot.HourlyCheck | main.py:96-118 | the guards run in order with early returns. The new `last_selected` and the outcome are those of `Tick` with the intended hour check; the roster is untouched |

## Findings

| source | as written | input that shows it | evidently intended | confidence | as-written member | corrected member |
|---|---|---|---|---|---|---|
| main.py:110 | `relativeTime == 23` compares a timezone-aware `datetime` with the integer 23, which Python evaluates to False, so the commit branch at main.py:111-116 is dead and nobody is ever messaged | a tick at 23:59 local time for the only user, at minute 59 of the process clock, with no selection yet that day | compare the hour, `relativeTime.hour == 23` | high; not executed | Schedule.SourceNeverSelects | Schedule.TriggerHourCommits |

## Left out

- Discord plumbing is not modelled: client setup, intents, `on_ready`, command registration and sync, and the reply messages of `/add`, `/remove`, `/list` and `/test`. `Bot.Remove` returns the popped entry, which decides which reply is sent.
- `tasks.loop(minutes=1)` scheduling and async/await are not modelled. Ticks and commands are atomic, sequential calls.
- Schedule.OncePerDate: holds only when ticks run one at a time. In the source they need not: `/test` awaits `hourly_check` directly (main.py:91), so it can start while the timer's run is suspended at `await bot.fetch_user` (main.py:112). Both runs pass the date check (main.py:103) before either records the date (main.py:114). For example, with the hour compared as intended, one user at 23:59 in America/Los_Angeles, and `/test` issued during the timer's fetch, both runs commit and two messages go out on the same date. Overlapping runs are not modelled.
- A command running during an awaited `fetch_user` or `send` can also remove the picked user, leaving a recorded id that is no longer in the roster. That dangling id is harmless.
- `/test` is not a separate member. It awaits the same `hourly_check`, so `Bot.HourlyCheck` models it.
- `datetime.now()`, `pytz` and `random.choice` are inputs (`TickInput.now`, `TickInput.clock`, `TickInput.choice`), not computations. So is the second clock read at main.py:109.
- An unknown timezone name (pytz raising outside the `try`) is not modelled. The clock input is total, and `/add` only offers four valid zones.
- `bot.fetch_user` and `user.send` are modelled only as success/failure flags.
- The word-list command `random_generate_word` is file I/O plus a random pick, and is not modelled.
- `print` logging, `load_dotenv` and `bot.run` are not modelled. That includes the lookup `users[userId]` inside the post-send print, whose failure is only logged.
- Listing.ListTextLines: the one-line-per-entry statement assumes that no display name or timezone contains a line break. Discord names cannot, and the timezones come from a fixed list.
