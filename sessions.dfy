/** Turning a game's play events into reconstructed sessions. */
module Sessions {
  import opened Tables
  import opened Arith
  import opened History
  import opened Seqs

  /** `parse_playtime_from_context`: the playtime in milliseconds, or `None`
      when the payload does not decode to an integer `playtime`. */
  function ParsePlaytime(context: Payload): Option<int> {
    context.playtimeMs
  }

  /** The duration in minutes of an event ending at second `timeS`: the
      context's playtime (milliseconds to seconds to minutes, each step
      truncating) when it decodes, otherwise the history fallback. */
  function ResolveDuration(context: Option<Payload>, history: seq<HistoryRow>, timeS: int): int {
    match context
    case Some(c) =>
      (match ParsePlaytime(c)
       case Some(ms) => Div(Div(ms, 1000), 60)
       case None => HistoryMinutes(history, timeS))
    case None => HistoryMinutes(history, timeS)
  }

  /** A decoded playtime gives its whole minutes, truncated toward zero; any
      other event falls back to the history table. */
  lemma ResolveDurationSpec(context: Option<Payload>, history: seq<HistoryRow>, timeS: int)
    ensures context.Some? && ParsePlaytime(context.value).Some?
      ==> ResolveDuration(context, history, timeS) == Div(ParsePlaytime(context.value).value, 60000)
    ensures !(context.Some? && ParsePlaytime(context.value).Some?)
      ==> ResolveDuration(context, history, timeS) == HistoryMinutes(history, timeS)
  {
    if context.Some? && ParsePlaytime(context.value).Some? {
      MillisToMinutes(ParsePlaytime(context.value).value);
    }
  }

  /** The date bucket of a session starting at second `start`: its UTC date,
      or the migration date when `start` is not a representable timestamp. */
  function DateBucket(cal: Calendar, start: int): string {
    match cal.dateOf(start)
    case Some(date) => date
    case None => cal.today
  }

  /** The session one event yields, if any. */
  function EventSession(gameId: int, e: EventRow, history: seq<HistoryRow>, cal: Calendar): Option<Session> {
    match e.time
    case None => None
    case Some(timeS) =>
      var duration := ResolveDuration(e.context, history, timeS);
      if duration > 0 then
        var start := timeS - duration * 60;
        Some(Session(gameId, start, timeS, duration, DateBucket(cal, start)))
      else None
  }

  /** An event yields a session exactly when it has a time and a positive
      resolved duration; the session ends at the event's time and starts
      that many minutes earlier. */
  lemma EventSessionSpec(gameId: int, e: EventRow, history: seq<HistoryRow>, cal: Calendar)
    ensures var r := EventSession(gameId, e, history, cal);
      r.Some? <==> e.time.Some? && ResolveDuration(e.context, history, e.time.value) > 0
    ensures var r := EventSession(gameId, e, history, cal);
      r.Some? ==>
      var s := r.value;
      && s.gameId == gameId
      && s.endTime == e.time.value
      && s.duration == ResolveDuration(e.context, history, e.time.value)
      && s.endTime - s.startTime == 60 * s.duration
      && s.date == DateBucket(cal, s.startTime)
  {
  }

  /** The event's session as a list of at most one session. */
  function EventSessions(gameId: int, e: EventRow, history: seq<HistoryRow>, cal: Calendar): seq<Session> {
    match EventSession(gameId, e, history, cal)
    case Some(s) => [s]
    case None => []
  }

  /** A well-formed session of game `gameId`: positive duration, a start
      exactly `duration` minutes before its end, bucketed by its start. */
  predicate WellFormed(s: Session, gameId: int, cal: Calendar) {
    && s.gameId == gameId
    && s.duration > 0
    && s.endTime - s.startTime == 60 * s.duration
    && s.date == DateBucket(cal, s.startTime)
  }

  /** The sessions reconstructed from `events`, in event order. */
  function SessionsOf(gameId: int, events: seq<EventRow>, history: seq<HistoryRow>, cal: Calendar): seq<Session> {
    if events == [] then []
    else
      SessionsOf(gameId, events[..|events| - 1], history, cal)
        + EventSessions(gameId, events[|events| - 1], history, cal)
  }

  /** Every reconstructed session is well formed, and there are no more
      sessions than events. */
  lemma {:induction false} SessionsWellFormed(gameId: int, events: seq<EventRow>, history: seq<HistoryRow>, cal: Calendar)
    ensures |SessionsOf(gameId, events, history, cal)| <= |events|
    ensures forall s :: s in SessionsOf(gameId, events, history, cal) ==> WellFormed(s, gameId, cal)
  {
    if events != [] {
      SessionsWellFormed(gameId, events[..|events| - 1], history, cal);
    }
  }

  /** Events contribute independently: reconstruction distributes over
      concatenation of the event list. */
  lemma {:induction false} SessionsOfConcat(gameId: int, a: seq<EventRow>, b: seq<EventRow>, history: seq<HistoryRow>, cal: Calendar)
    ensures SessionsOf(gameId, a + b, history, cal)
         == SessionsOf(gameId, a, history, cal) + SessionsOf(gameId, b, history, cal)
    decreases |b|
  {
    if b == [] {
      assert a + b == a;
    } else {
      var b' := b[..|b| - 1];
      assert (a + b)[..|a + b| - 1] == a + b';
      assert (a + b)[|a + b| - 1] == b[|b| - 1];
      SessionsOfConcat(gameId, a, b', history, cal);
    }
  }

  /** Processing one more event appends its session, if it yields one, and
      leaves the earlier sessions alone. */
  lemma SessionsOfSnoc(gameId: int, events: seq<EventRow>, e: EventRow, history: seq<HistoryRow>, cal: Calendar)
    ensures SessionsOf(gameId, events + [e], history, cal)
         == SessionsOf(gameId, events, history, cal)
          + EventSessions(gameId, e, history, cal)
  {
    assert (events + [e])[..|events|] == events;
  }

  /** The same step stated on prefixes of one event list, as a loop over
      the events sees it: an event without a session changes nothing... */
  lemma SessionsOfSkip(gameId: int, events: seq<EventRow>, i: int, history: seq<HistoryRow>, cal: Calendar)
    requires 0 <= i < |events|
    requires events[i].time.None? || ResolveDuration(events[i].context, history, events[i].time.value) <= 0
    ensures SessionsOf(gameId, events[..i + 1], history, cal) == SessionsOf(gameId, events[..i], history, cal)
  {
    assert events[..i + 1][..i] == events[..i];
  }

  /** ... and an event with a positive duration `d` ending at `end` appends
      the session that starts `d` minutes before `end`. */
  lemma SessionsOfTake(gameId: int, events: seq<EventRow>, i: int, history: seq<HistoryRow>, cal: Calendar, end: int, d: int)
    requires 0 <= i < |events|
    requires events[i].time == Some(end)
    requires d == ResolveDuration(events[i].context, history, end) && d > 0
    ensures SessionsOf(gameId, events[..i + 1], history, cal)
         == SessionsOf(gameId, events[..i], history, cal) + [Session(gameId, end - d * 60, end, d, DateBucket(cal, end - d * 60))]
  {
    assert events[..i + 1][..i] == events[..i];
  }

  /** One event alone yields exactly its own session, if any. */
  lemma SessionsOfSingle(gameId: int, e: EventRow, history: seq<HistoryRow>, cal: Calendar)
    ensures SessionsOf(gameId, [e], history, cal)
         == EventSessions(gameId, e, history, cal)
  {
    assert [e][..0] == [];
  }

  /** Every reconstructed session ends at the time of one of the events. */
  lemma {:induction false} SessionsEndAtEvents(gameId: int, events: seq<EventRow>, history: seq<HistoryRow>, cal: Calendar, k: int)
    requires 0 <= k < |SessionsOf(gameId, events, history, cal)|
    ensures exists i :: 0 <= i < |events| && events[i].time == Some(SessionsOf(gameId, events, history, cal)[k].endTime)
    decreases |events|
  {
    var ss := SessionsOf(gameId, events, history, cal);
    var n := |events| - 1;
    var prefix := SessionsOf(gameId, events[..n], history, cal);
    if k < |prefix| {
      SessionsEndAtEvents(gameId, events[..n], history, cal, k);
      var i :| 0 <= i < n && events[..n][i].time == Some(prefix[k].endTime);
      assert events[i] == events[..n][i];
    } else {
      assert events[n].time == Some(ss[k].endTime);
    }
  }

  lemma SessionsOfRemove(gameId: int, b: seq<EventRow>, i: int, history: seq<HistoryRow>, cal: Calendar)
    requires 0 <= i < |b|
    ensures multiset(SessionsOf(gameId, b, history, cal))
         == multiset(SessionsOf(gameId, b[..i] + b[i + 1..], history, cal))
          + multiset(EventSessions(gameId, b[i], history, cal))
  {
    SessionsOfSingle(gameId, b[i], history, cal);
    assert b == b[..i] + [b[i]] + b[i + 1..];
    SessionsOfConcat(gameId, b[..i] + [b[i]], b[i + 1..], history, cal);
    SessionsOfConcat(gameId, b[..i], [b[i]], history, cal);
    SessionsOfConcat(gameId, b[..i], b[i + 1..], history, cal);
  }

  /** Reordering the events only reorders the sessions. */
  lemma {:induction false} SessionsOfPermutation(gameId: int, a: seq<EventRow>, b: seq<EventRow>, history: seq<HistoryRow>, cal: Calendar)
    requires multiset(a) == multiset(b)
    ensures multiset(SessionsOf(gameId, a, history, cal)) == multiset(SessionsOf(gameId, b, history, cal))
    decreases |a|
  {
    if a == [] {
      assert |b| == |multiset(b)| == 0;
    } else {
      var n := |a| - 1;
      var i := RemoveMatching(a, b);
      SessionsOfPermutation(gameId, a[..n], b[..i] + b[i + 1..], history, cal);
      SessionsOfRemove(gameId, b, i, history, cal);
    }
  }

  /** The play events of game `uuid`: rows whose game column is `uuid` and
      whose type column is `"PlayEvent"`, in the order of `events`. */
  function PlayEventsOf(events: seq<EventRow>, uuid: string): seq<EventRow> {
    if events == [] then []
    else
      var rest := PlayEventsOf(events[1..], uuid);
      if IsPlayEventOf(events[0], uuid) then [events[0]] + rest else rest
  }

  predicate IsPlayEventOf(e: EventRow, uuid: string) {
    e.game == Some(uuid) && e.eventType == Some("PlayEvent")
  }

  /** The query returns exactly the play events of the game (a NULL game or
      type column matches nothing), each as often as in the table. */
  lemma {:induction false} PlayEventsOfExact(events: seq<EventRow>, uuid: string, e: EventRow)
    ensures multiset(PlayEventsOf(events, uuid))[e]
         == if IsPlayEventOf(e, uuid) then multiset(events)[e] else 0
  {
    if events != [] {
      PlayEventsOfExact(events[1..], uuid, e);
      assert events == [events[0]] + events[1..];
    }
  }
}
