# reina_migrator: play-session reconstruction, modelled in Dafny

`reina_migrator` copies a game library from the old Whitecloud database into
the new Reina database. This project models how that migration works out
play sessions and statistics (`src/migrator.rs`). For every old game, the
migrator:

- inserts a new `games` row and an `other_data` row;
- for a game with a uuid, walks the game's `PlayEvent` rows in order.

Each event's duration in minutes comes from one of three places:

1. the event's context payload (`playtime` in milliseconds, divided by 1000 and
   then by 60, truncating);
2. otherwise, the first row of the game's `history` table, in the order the
   query returns them, that has both ends present and whose end lies within
   300 seconds of the event time (its length in minutes);
3. otherwise, 0.

An event with a positive duration becomes a session. The session ends at the
event's time, starts `duration` minutes earlier, and is bucketed under the
calendar date of its start. The sessions are folded into a total, a count, a
last-played time and a per-date map. A `game_statistics` row is written when at
least one session exists.

Modules, one per concern of the source:

| file | module | what it holds |
|---|---|---|
| `tables.dfy` | `Tables` | the old and new table rows, the decoded context payload, the calendar formatter |
| `arith.dfy` | `Arith` | Rust's truncating `/` and `abs` on `i64` |
| `seqs.dfy` | `Seqs` | two generic facts about sequences with equal multisets |
| `history.dfy` | `History` | `get_duration_from_history`: the first-match search and its loop |
| `sessions.dfy` | `Sessions` | duration resolution, one event's session, and the sessions of an event list |
| `statistics.dfy` | `Statistics` | the fold into total, last-played time, per-date totals, and the statistics row |
| `migrator.dfy` | `Migrator` | `localpath`, the loop of `migrate_game_sessions` and the loop of `migrate_games` |

Inserts into the new database are modelled as rows that the methods return, in
insertion order:

- `FoldPlayEvents` returns a game's sessions and its optional statistics row.
- `MigrateGames` returns, for each old game in order, everything inserted for
  it (`GameRows`).

The spec functions are `SessionsOf`, `GameStats`, `RowsFor` and the fold
functions `TotalTime`, `LastPlayed` and `DailyTotals`. Each method is proved
equal to its spec function. The lemmas then prove the properties the source
promises about those functions.

External inputs are parameters:

- The outcome of decoding the context bytes is `Payload(playtimeMs)`. It is
  `None` for every UTF-8 or JSON failure, for a missing or non-integer
  `playtime`, and for an integer `playtime` outside the `i64` range.
  `playtimeMs` is an unbounded integer, so it also admits values the decoder
  never returns.
- chrono's date formatting is `Calendar.dateOf`. It returns `None` where
  `DateTime::from_timestamp` fails. The fallback `Utc::now()` date is
  `Calendar.today`, one date for the whole run.
- Timestamps are whole seconds.
- The id the database assigns to the `i`-th inserted game is `firstId + i`.

## Model

| member | source | states |
|---|---|---|
| Arith.Abs | src/migrator.rs:357 | the absolute value is non-negative and equals `x` or `-x` |
| Arith.Div | src/migrator.rs:244 | Rust's `/` truncates toward zero: the quotient's magnitude times the divisor is at most the dividend's magnitude and within one divisor of it, and the quotient has the dividend's sign or is 0 |
| Arith.MillisToMinutes | src/migrator.rs:244 | `ms / 1000 / 60`, with two truncating divisions, equals one truncating division by 60000, negative playtimes included |
| History.RowMinutes | src/migrator.rs:359 | a row of non-negative length yields whole minutes `m` with `60m <= end - start < 60m + 60`; a reversed row yields at most 0 |
| History.FirstMatchSpec | src/migrator.rs:351-362 | the search stops at a row with both ends present and its end strictly within 300 s of the target, and every earlier row fails that test; when it runs past the end, no row passes |
| History.HistoryMinutesFirstMatch | src/migrator.rs:351-364 | for a matching row `i`: no earlier row matches iff `i` is the first match, and then the fallback is row `i`'s minutes |
| History.HistoryMinutesNoMatch | src/migrator.rs:364 | when no row matches, the fallback is 0 |
| History.HistoryMinutesIgnoresTail | src/migrator.rs:357-360 | once a row matches, rows after it never change the result (the early return) |
| History.HistoryOfExact | src/migrator.rs:345-348 | the game-filtered query distributes over concatenation, keeps a row iff its game column is the uuid, and keeps every returned row's game equal to the uuid |
| History.GetDurationFromHistory | src/migrator.rs:340-365 | the loop with its early return computes the first-match fallback |
| Sessions.ResolveDurationSpec | src/migrator.rs:242-256 | a decoded playtime `P` gives `P` truncated to whole minutes; an absent or undecodable context gives the history fallback |
| Sessions.EventSessionSpec | src/migrator.rs:237-276 | an event yields a session iff it has a time and a positive resolved duration; the session belongs to the game, ends at the event time, lasts that duration, starts `60 * duration` seconds earlier and is bucketed by its start date |
| Sessions.SessionsWellFormed | src/migrator.rs:237-290 | there are never more sessions than events, and every session has a positive duration, `end - start == 60 * duration` and its start's date bucket |
| Sessions.SessionsOfConcat | src/migrator.rs:237-290 | events contribute independently: the sessions of `a + b` are those of `a` followed by those of `b` |
| Sessions.SessionsOfSnoc | src/migrator.rs:237-290 | one more event appends only its own session, if any |
| Sessions.SessionsOfSkip | src/migrator.rs:238-258 | an event without a time, or with a duration that is not positive, adds nothing |
| Sessions.SessionsOfTake | src/migrator.rs:258-280 | an event with a positive duration appends exactly the session built from it |
| Sessions.SessionsOfSingle | src/migrator.rs:237-290 | a single event yields exactly its own session, if any |
| Sessions.SessionsEndAtEvents | src/migrator.rs:260 | every session's end time is the time of one of the events |
| Sessions.SessionsOfRemove | src/migrator.rs:237-290 | removing one event removes exactly its session from the multiset of sessions |
| Sessions.SessionsOfPermutation | src/migrator.rs:226-230 | reordering the queried events only reorders the sessions, so the order the query returns does not matter |
| Sessions.PlayEventsOfExact | src/migrator.rs:226-230 | the query returns each event with the game's uuid and type `PlayEvent` as often as it occurs, and no other event |
| Statistics.FoldStep | src/migrator.rs:282-287 | adding one session adds its duration to the total, takes the larger of its end and the previous last-played time (missing counts as 0), and adds its minutes to its date's entry |
| Statistics.TotalTimeConcat | src/migrator.rs:282 | the total of a concatenation is the sum of the totals |
| Statistics.TotalTimeRemove | src/migrator.rs:282 | removing one session subtracts its duration from the total |
| Statistics.TotalTimePermutation | src/migrator.rs:282 | the total does not depend on the session order |
| Statistics.TotalAtLeastCount | src/migrator.rs:282-283 | with positive durations, the total is at least the session count, and positive iff there is a session |
| Statistics.LastPlayedIsMax | src/migrator.rs:284 | last-played is absent iff there are no sessions; otherwise it is at least 0, bounds every end time, and is 0 or some session's end time |
| Statistics.LastPlayedLeast | src/migrator.rs:284 | any bound of 0 or more on all end times bounds last-played |
| Statistics.LastPlayedPermutation | src/migrator.rs:284 | last-played does not depend on the session order |
| Statistics.ToDailyStatsJson | src/migrator.rs:295-309 | the `{}` text is chosen exactly for an empty map; otherwise the array carries every entry of the map |
| Statistics.DailyTotalsKeys | src/migrator.rs:287 | the dates with an entry are exactly the sessions' dates |
| Statistics.DailyTotalsAt | src/migrator.rs:287 | each date's entry is the total duration of the sessions on that date |
| Statistics.OnDateCount | src/migrator.rs:287 | the sessions on date `d` are those of the input whose date is `d`, each with its multiplicity |
| Statistics.DailyTotalsPermutation | src/migrator.rs:287 | the per-date map does not depend on the session order |
| Statistics.DailyTotalsSum | src/migrator.rs:287 | the per-date entries add up to the total time |
| Statistics.StatsPermutation | src/migrator.rs:311-317 | the statistics row depends only on the multiset of sessions |
| Statistics.DailyStatsNeverEmptyObject | src/migrator.rs:293-297 | with at least one session the per-date map is not empty, so the `{}` branch never runs |
| Migrator.LocalPathSpec | src/migrator.rs:167-174 | the path is absent iff both parts are; with both present it is the directory, one backslash, then the executable; with one present it is that part unchanged |
| Migrator.GameStatsSpec | src/migrator.rs:293-320 | a statistics row is written iff there is a session; it counts every session, and its `daily_stats` is the array form |
| Migrator.EventDuration | src/migrator.rs:242-256 | the duration computed for an event is its resolved duration |
| Migrator.StatsFromAccumulators | src/migrator.rs:282-317 | accumulators that agree with the folds over the sessions build exactly the statistics row of those sessions |
| Migrator.MigrateGameSessions | src/migrator.rs:219-230 | the inserted sessions are those reconstructed from the game's queried play events and history rows, and the statistics row is the one they determine |
| Migrator.FoldPlayEvents | src/migrator.rs:232-320 | the loop inserts exactly the reconstructed sessions, in event order; its accumulators stay equal to total, count, last-played and per-date totals of the sessions so far; it writes the statistics row iff a session exists |
| Migrator.MigrateOldGame | src/migrator.rs:163-213 | one iteration inserts the `Whitecloud` game row with the built `localpath`, the save path, zero `autosave` and `clear`; then the `other_data` row with the default image and the name; then, for a game with a uuid only, its sessions and statistics |
| Migrator.MigrateGames | src/migrator.rs:157-217 | every old game is migrated in order, and the `i`-th one's rows are those of a single iteration under id `firstId + i` |
| Migrator.OldGameSessionRows | src/migrator.rs:210-213 | only a game with a uuid contributes sessions, and they all carry its new id |
| Migrator.OldGameStatsRow | src/migrator.rs:210-213 | a game contributes at most one statistics row, exactly when it contributes a session; the row carries its id, counts all its sessions and holds the array form |
| Migrator.StatsIndependentOfEventOrder | src/migrator.rs:226-320 | the statistics row is the same whatever order the play-event query returns the events in |

## Left out

- `run_migration`, `check_and_close_reina_manager` and `backup_database` are not modelled. They spawn processes, sleep, prompt on stdin, copy files and read the clock.
- `src/config.rs`, `src/db/connection.rs`, `src/main.rs` and the entity declarations are not part of this model. They hold no logic beyond the columns mirrored in `Tables`.
- JSON and UTF-8 decoding of the context (`parse_playtime_from_context`) is abstract. `Payload.playtimeMs` is the decode's outcome.
- The JSON serialisation of `daily_stats` is kept as the map it serialises, and `HashMap` iteration order is not modelled. A failure of that serialisation is not modelled either.
- Date formatting and the `Utc::now()` fallback date are abstract, through `Calendar`.
- The float-to-integer conversion of millisecond timestamps (`time_ms / 1000.0 as i64`) is not modelled. Events and history rows carry whole seconds.
- The `as i32` narrowing of start, end, duration, total and last-played is not modelled, and neither is `i64` or `i32` overflow: integers are unbounded.
- `created_at` and `updated_at`, which come from the clock, are not modelled.
- The `games` columns set to `None` are omitted from `NewGame`: `bgm_id`, `vndb_id`, `date`, `custom_name` and `custom_cover`. So are the `None` columns of `other_data`.
- Database errors are not modelled: a failed insert or query aborting the run, and a failed history query becoming 0 through `unwrap_or(0)`.
- History.HistoryOf: the model takes the rows of the history query in the order of the input sequence. The query has no `ORDER BY`, so the database may return them in any order. When several rows match, the first one wins, so the fallback duration can change with that order.
- Payload: `playtimeMs` is an unbounded integer. The decoder only ever yields values in the `i64` range, so the model admits playtimes the source never sees.
- DateBucket: the fallback date is one `Calendar.today` for the whole run. The source reads the clock again for each session that needs it, so a run that crosses midnight UTC can file such sessions under two different dates.
- History rows are queried once per game. The source re-queries them for each event, and nothing writes that table in between.
- MigrateGames: the ids the database assigns are taken as consecutive from `firstId`, not read back from the inserts.
- MigrateGames: inserts are grouped per old game, and flattening the groups in order gives the database's insertion order.
- Running the migration twice inserts everything again. The model describes a single run.
