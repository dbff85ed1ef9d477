/** Rows of the old (Whitecloud) database read by the migrator, and records
    written to the new (Reina) database. Timestamps are whole seconds: the
    millisecond floats of the old tables are taken already converted. */
module Tables {

  datatype Option<+T> = None | Some(value: T) {
    /** Rust's `unwrap_or`. */
    function GetOr(default: T): T {
      match this
      case Some(v) => v
      case None => default
    }
  }

  /** An event's opaque context payload, as the playtime decoder sees it:
      `Some(ms)` when the bytes are UTF-8 JSON whose `playtime` field is an
      integer, `None` for every decode failure. */
  datatype Payload = Payload(playtimeMs: Option<int>)

  /** A row of the old `events` table. */
  datatype EventRow = EventRow(
    game: Option<string>,
    eventType: Option<string>,
    time: Option<int>,
    context: Option<Payload>)

  /** A row of the old `history` table. */
  datatype HistoryRow = HistoryRow(game: Option<string>, start: Option<int>, end: Option<int>)

  /** A row of the old `games` table (only the columns the migrator reads). */
  datatype OldGame = OldGame(
    name: Option<string>,
    gameDir: Option<string>,
    saveDir: Option<string>,
    exePath: Option<string>,
    uuid: Option<string>)

  /** A row written to the new `games` table. */
  datatype NewGame = NewGame(
    id: int,
    idType: string,
    localpath: Option<string>,
    savepath: Option<string>,
    autosave: Option<int>,
    clear: Option<int>)

  /** A row written to the new `other_data` table. */
  datatype OtherData = OtherData(gameId: int, image: Option<string>, name: Option<string>)

  /** A row written to the new `game_sessions` table. */
  datatype Session = Session(
    gameId: int,
    startTime: int,
    endTime: int,
    duration: int,
    date: string)

  /** The serialised `daily_stats` column: the JSON object `{}` or a JSON array
      of `{"date", "playtime"}` objects, one per map entry. */
  datatype DailyStatsJson = EmptyObject | DailyArray(entries: map<string, int>)

  /** A row written to the new `game_statistics` table. */
  datatype GameStatistics = GameStatistics(
    gameId: int,
    totalTime: int,
    sessionCount: int,
    lastPlayed: Option<int>,
    dailyStats: DailyStatsJson)

  /** The calendar-date formatter: `dateOf(t)` is the `YYYY-MM-DD` text of the
      UTC date of second `t`, or `None` when `t` is not a representable
      timestamp; `today` is the date of the moment of migration. */
  datatype Calendar = Calendar(dateOf: int -> Option<string>, today: string)
}
