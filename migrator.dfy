/** The migration of the old game table: one new game row per old game, and
    for games with a uuid the reconstruction of their play sessions and
    statistics. Inserts into the new database are modelled as the rows the
    methods return, in insertion order. */
module Migrator {
  import opened Tables
  import opened Arith
  import opened History
  import opened Sessions
  import opened Statistics

  /** The new game's `localpath`: directory and executable joined with a
      backslash when both are known, otherwise whichever is known. */
  function LocalPath(gameDir: Option<string>, exePath: Option<string>): Option<string> {
    if gameDir.Some? && exePath.Some? then Some(gameDir.value + "\\" + exePath.value)
    else if gameDir.Some? then gameDir
    else exePath
  }

  /** The path is missing only when both parts are; a known directory is
      its prefix and a known executable its suffix, separated by exactly
      one backslash when both are known; a missing part leaves the other
      unchanged. */
  lemma LocalPathSpec(gameDir: Option<string>, exePath: Option<string>)
    ensures var r := LocalPath(gameDir, exePath);
      && (r.None? <==> gameDir.None? && exePath.None?)
      && (gameDir.Some? ==> r.Some? && gameDir.value <= r.value)
      && (exePath.Some? ==>
          r.Some? && |exePath.value| <= |r.value| && r.value[|r.value| - |exePath.value|..] == exePath.value)
      && (gameDir.Some? && exePath.Some? ==>
          |r.value| == |gameDir.value| + 1 + |exePath.value| && r.value[|gameDir.value|] == '\\')
      && (exePath.None? ==> r == gameDir)
      && (gameDir.None? ==> r == exePath)
  {
    if gameDir.Some? && exePath.Some? {
      var joined := gameDir.value + "\\" + exePath.value;
      assert joined[|joined| - |exePath.value|..] == exePath.value;
    }
  }

  /** The new `games` row for an old game given the id the insert assigns. */
  function NewGameFor(g: OldGame, id: int): NewGame {
    NewGame(id, "Whitecloud", LocalPath(g.gameDir, g.exePath), g.saveDir, Some(0), Some(0))
  }

  /** The new `other_data` row for an old game. */
  function OtherDataFor(g: OldGame, id: int): OtherData {
    OtherData(id, Some("/images/default.png"), g.name)
  }

  /** The sessions reconstructed for game `uuid`, stored under `gameId`. */
  function GameSessions(gameId: int, uuid: string, events: seq<EventRow>, history: seq<HistoryRow>, cal: Calendar): seq<Session> {
    SessionsOf(gameId, PlayEventsOf(events, uuid), HistoryOf(history, uuid), cal)
  }

  /** The statistics row written for a game: only when it has a session. */
  function GameStats(gameId: int, ss: seq<Session>): Option<GameStatistics> {
    if |ss| > 0 then Some(StatsOf(gameId, ss)) else None
  }

  /** A statistics row is written exactly when there is a session; it
      counts every session and its `daily_stats` is never the `{}` form. */
  lemma GameStatsSpec(gameId: int, ss: seq<Session>)
    ensures GameStats(gameId, ss).Some? <==> |ss| > 0
    ensures GameStats(gameId, ss).Some? ==>
      GameStats(gameId, ss).value.sessionCount == |ss| && GameStats(gameId, ss).value.dailyStats.DailyArray?
  {
    if |ss| > 0 {
      DailyStatsNeverEmptyObject(gameId, ss);
    }
  }

  /** The duration of a play event ending at `timeS`: from its context when
      that decodes, otherwise from the history table, 0 when neither gives
      one. */
  method EventDuration(context: Option<Payload>, rows: seq<HistoryRow>, timeS: int) returns (duration: int)
    ensures duration == ResolveDuration(context, rows, timeS)
  {
    if context.Some? {
      match ParsePlaytime(context.value)
      case Some(playtimeMs) =>
        duration := Div(Div(playtimeMs, 1000), 60);
      case None =>
        duration := GetDurationFromHistory(rows, timeS);
    } else {
      duration := GetDurationFromHistory(rows, timeS);
    }
  }

  lemma StatsFromAccumulators(gameId: int, ss: seq<Session>, total: int, count: int, last: Option<int>, daily: map<string, int>)
    requires total == TotalTime(ss) && count == |ss| && last == LastPlayed(ss) && daily == DailyTotals(ss)
    ensures GameStats(gameId, ss)
         == if count > 0 then Some(GameStatistics(gameId, total, count, last, ToDailyStatsJson(daily))) else None
  {
  }

  /** `migrate_game_sessions`: query the game's play events and history
      rows, then reconstruct its sessions and statistics from them. */
  method MigrateGameSessions(gameId: int, uuid: string, events: seq<EventRow>, history: seq<HistoryRow>, cal: Calendar)
    returns (sessions: seq<Session>, stats: Option<GameStatistics>)
    ensures sessions == GameSessions(gameId, uuid, events, history, cal)
    ensures stats == GameStats(gameId, sessions)
  {
    sessions, stats := FoldPlayEvents(gameId, PlayEventsOf(events, uuid), HistoryOf(history, uuid), cal);
  }

  /** The loop of `migrate_game_sessions`: walk the play events, insert one
      session per event with a positive duration, and fold the sessions into
      the running totals; insert the statistics row when a session exists. */
  method FoldPlayEvents(gameId: int, plays: seq<EventRow>, rows: seq<HistoryRow>, cal: Calendar)
    returns (sessions: seq<Session>, stats: Option<GameStatistics>)
    ensures sessions == SessionsOf(gameId, plays, rows, cal)
    ensures stats == GameStats(gameId, sessions)
  {
    var totalTime := 0;
    var sessionCount := 0;
    var lastPlayed: Option<int> := None;
    var dailyStats: map<string, int> := map[];
    sessions := [];
    for i := 0 to |plays|
      invariant sessions == SessionsOf(gameId, plays[..i], rows, cal)
      invariant totalTime == TotalTime(sessions)
      invariant sessionCount == |sessions|
      invariant lastPlayed == LastPlayed(sessions)
      invariant dailyStats == DailyTotals(sessions)
    {
      var event := plays[i];
      if event.time.Some? {
        var timeS := event.time.value;
        var duration := EventDuration(event.context, rows, timeS);
        if duration > 0 {
          var endTime := timeS;
          var startTime := endTime - duration * 60;
          var date := DateBucket(cal, startTime);
          var session := Session(gameId, startTime, endTime, duration, date);
          SessionsOfTake(gameId, plays, i, rows, cal, endTime, duration);
          FoldStep(sessions, session);
          sessions := sessions + [session];
          totalTime := totalTime + duration;
          sessionCount := sessionCount + 1;
          lastPlayed := Some(Max(endTime, lastPlayed.GetOr(0)));
          dailyStats := AddMinutes(dailyStats, date, duration);
        } else {
          SessionsOfSkip(gameId, plays, i, rows, cal);
        }
      } else {
        SessionsOfSkip(gameId, plays, i, rows, cal);
      }
    }
    assert plays[..|plays|] == plays;
    StatsFromAccumulators(gameId, sessions, totalTime, sessionCount, lastPlayed, dailyStats);
    if sessionCount > 0 {
      stats := Some(GameStatistics(gameId, totalTime, sessionCount, lastPlayed, ToDailyStatsJson(dailyStats)));
    } else {
      stats := None;
    }
  }

  /** The sessions inserted for one old game stored under `id`: none when
      it has no uuid. */
  function OldGameSessions(g: OldGame, id: int, events: seq<EventRow>, history: seq<HistoryRow>, cal: Calendar): seq<Session> {
    if g.uuid.Some? then GameSessions(id, g.uuid.value, events, history, cal) else []
  }

  /** The statistics rows inserted for one old game: at most one. */
  function OldGameStats(g: OldGame, id: int, events: seq<EventRow>, history: seq<HistoryRow>, cal: Calendar): seq<GameStatistics> {
    if g.uuid.Some? then
      var r := GameStats(id, GameSessions(id, g.uuid.value, events, history, cal));
      if r.Some? then [r.value] else []
    else []
  }

  /** Everything `migrate_games` inserts for one old game: its `games` row,
      its `other_data` row, its sessions and its statistics rows, in
      insertion order. */
  datatype GameRows = GameRows(game: NewGame, other: OtherData, sessions: seq<Session>, stats: seq<GameStatistics>)

  /** The rows inserted for old game `g` when its `games` insert is given
      the id `id`. */
  function RowsFor(g: OldGame, id: int, events: seq<EventRow>, history: seq<HistoryRow>, cal: Calendar): GameRows {
    GameRows(NewGameFor(g, id), OtherDataFor(g, id), OldGameSessions(g, id, events, history, cal), OldGameStats(g, id, events, history, cal))
  }

  /** One iteration of `migrate_games`: insert the new game and its
      `other_data` row, then migrate the sessions when the game has a uuid. */
  method MigrateOldGame(g: OldGame, id: int, events: seq<EventRow>, history: seq<HistoryRow>, cal: Calendar)
    returns (rows: GameRows)
    ensures rows == RowsFor(g, id, events, history, cal)
  {
    var game := NewGameFor(g, id);
    var other := OtherDataFor(g, id);
    var sessions: seq<Session> := [];
    var stats: seq<GameStatistics> := [];
    if g.uuid.Some? {
      var gameStats;
      sessions, gameStats := MigrateGameSessions(id, g.uuid.value, events, history, cal);
      if gameStats.Some? {
        stats := [gameStats.value];
      }
    }
    rows := GameRows(game, other, sessions, stats);
  }

  /** `migrate_games`: migrate every old game in order, the `games` insert
      of the `i`-th one being assigned the id `firstId + i`. */
  method MigrateGames(oldGames: seq<OldGame>, events: seq<EventRow>, history: seq<HistoryRow>, firstId: int, cal: Calendar)
    returns (migrated: seq<GameRows>)
    ensures |migrated| == |oldGames|
    ensures forall i :: 0 <= i < |oldGames| ==> migrated[i] == RowsFor(oldGames[i], firstId + i, events, history, cal)
  {
    migrated := [];
    for i := 0 to |oldGames|
      invariant |migrated| == i
      invariant forall k {:trigger migrated[k]} :: 0 <= k < i ==>
        migrated[k] == RowsFor(oldGames[k], firstId + k, events, history, cal)
    {
      var rows := MigrateOldGame(oldGames[i], firstId + i, events, history, cal);
      migrated := migrated + [rows];
    }
  }

  /** The sessions one old game contributes belong to its id, and only a
      game with a uuid contributes any. */
  lemma OldGameSessionRows(g: OldGame, id: int, events: seq<EventRow>, history: seq<HistoryRow>, cal: Calendar)
    ensures forall s :: s in OldGameSessions(g, id, events, history, cal) ==> g.uuid.Some? && s.gameId == id
  {
    if g.uuid.Some? {
      var uuid := g.uuid.value;
      SessionsWellFormed(id, PlayEventsOf(events, uuid), HistoryOf(history, uuid), cal);
    }
  }

  /** One old game contributes at most one statistics row; it belongs to
      the game's id, which has a uuid, and it counts every session the game
      contributed. */
  lemma OldGameStatsRow(g: OldGame, id: int, events: seq<EventRow>, history: seq<HistoryRow>, cal: Calendar)
    ensures |OldGameStats(g, id, events, history, cal)| <= 1
    ensures |OldGameStats(g, id, events, history, cal)| == 1 <==> |OldGameSessions(g, id, events, history, cal)| > 0
    ensures forall r :: r in OldGameStats(g, id, events, history, cal) ==>
      g.uuid.Some? && r.gameId == id && r.sessionCount == |OldGameSessions(g, id, events, history, cal)|
      && r.dailyStats.DailyArray?
  {
    if g.uuid.Some? {
      GameStatsSpec(id, GameSessions(id, g.uuid.value, events, history, cal));
    }
  }

  /** The statistics row does not depend on the order in which the play
      events are returned: any reordering yields the same row. */
  lemma StatsIndependentOfEventOrder(gameId: int, a: seq<EventRow>, b: seq<EventRow>, rows: seq<HistoryRow>, cal: Calendar)
    requires multiset(a) == multiset(b)
    ensures GameStats(gameId, SessionsOf(gameId, a, rows, cal)) == GameStats(gameId, SessionsOf(gameId, b, rows, cal))
  {
    var sa, sb := SessionsOf(gameId, a, rows, cal), SessionsOf(gameId, b, rows, cal);
    SessionsOfPermutation(gameId, a, b, rows, cal);
    StatsPermutation(gameId, sa, sb);
    assert |sa| == |multiset(sa)| == |multiset(sb)| == |sb|;
  }
}
