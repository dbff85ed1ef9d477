/** The per-game statistics folded from its reconstructed sessions. */
module Statistics {
  import opened Tables
  import opened Seqs

  function Max(a: int, b: int): int {
    if a < b then b else a
  }

  /** Total playing time: the sum of the session durations. */
  function TotalTime(ss: seq<Session>): int {
    if ss == [] then 0 else TotalTime(ss[..|ss| - 1]) + ss[|ss| - 1].duration
  }

  /** The last-played time as the fold keeps it: `None` before the first
      session, then the larger of each end time and the previous value
      (counting a missing previous value as 0). */
  function LastPlayed(ss: seq<Session>): Option<int> {
    if ss == [] then None
    else Some(Max(ss[|ss| - 1].endTime, LastPlayed(ss[..|ss| - 1]).GetOr(0)))
  }

  /** Adds `minutes` to the entry of `date`, starting a missing entry at 0. */
  function AddMinutes(m: map<string, int>, date: string, minutes: int): map<string, int> {
    m[date := (if date in m then m[date] else 0) + minutes]
  }

  /** The per-date minute totals, adding each session to its date's entry. */
  function DailyTotals(ss: seq<Session>): map<string, int> {
    if ss == [] then map[]
    else
      var s := ss[|ss| - 1];
      AddMinutes(DailyTotals(ss[..|ss| - 1]), s.date, s.duration)
  }

  /** Appending one session updates each fold by that session alone. */
  lemma FoldStep(ss: seq<Session>, s: Session)
    ensures TotalTime(ss + [s]) == TotalTime(ss) + s.duration
    ensures LastPlayed(ss + [s]) == Some(Max(s.endTime, LastPlayed(ss).GetOr(0)))
    ensures DailyTotals(ss + [s]) == AddMinutes(DailyTotals(ss), s.date, s.duration)
  {
    assert (ss + [s])[..|ss|] == ss;
  }

  /** The sessions that fall on date `d`, in order. */
  function OnDate(ss: seq<Session>, d: string): seq<Session> {
    if ss == [] then []
    else if ss[|ss| - 1].date == d then OnDate(ss[..|ss| - 1], d) + [ss[|ss| - 1]]
    else OnDate(ss[..|ss| - 1], d)
  }

  /** The `daily_stats` column: `{}` for an empty map, otherwise an array
      with one `{"date", "playtime"}` object per entry. */
  function ToDailyStatsJson(m: map<string, int>): (j: DailyStatsJson)
    ensures j.EmptyObject? <==> |m| == 0
    ensures j.DailyArray? ==> j.entries == m
  {
    if |m| == 0 then EmptyObject else DailyArray(m)
  }

  /** The statistics row of a game whose sessions are `ss`. */
  function StatsOf(gameId: int, ss: seq<Session>): GameStatistics {
    GameStatistics(gameId, TotalTime(ss), |ss|, LastPlayed(ss), ToDailyStatsJson(DailyTotals(ss)))
  }

  /** The sum of the values of a map. */
  ghost function MapSum(m: map<string, int>): int
    decreases m.Keys
  {
    if m.Keys == {} then 0
    else
      var k :| k in m.Keys;
      m[k] + MapSum(m - {k})
  }

  lemma {:induction false} TotalTimeConcat(a: seq<Session>, b: seq<Session>)
    ensures TotalTime(a + b) == TotalTime(a) + TotalTime(b)
    decreases |b|
  {
    if b != [] {
      var b' := b[..|b| - 1];
      assert (a + b)[..|a + b| - 1] == a + b';
      TotalTimeConcat(a, b');
    } else {
      assert a + b == a;
    }
  }

  lemma {:induction false} TotalTimeRemove(b: seq<Session>, i: int)
    requires 0 <= i < |b|
    ensures TotalTime(b) == TotalTime(b[..i] + b[i + 1..]) + b[i].duration
    decreases |b|
  {
    var n := |b| - 1;
    var front := b[..n];
    assert b == front + [b[n]];
    FoldStep(front, b[n]);
    if i == n {
      assert b[..i] + b[i + 1..] == front;
    } else {
      TotalTimeRemove(front, i);
      var rest := front[..i] + front[i + 1..];
      assert b[..i] + b[i + 1..] == rest + [b[n]];
      FoldStep(rest, b[n]);
    }
  }

  /** The total does not depend on the order of the sessions. */
  lemma {:induction false} TotalTimePermutation(a: seq<Session>, b: seq<Session>)
    requires multiset(a) == multiset(b)
    ensures TotalTime(a) == TotalTime(b)
    decreases |a|
  {
    if a == [] {
      assert |b| == |multiset(b)| == 0;
    } else {
      var i := RemoveMatching(a, b);
      TotalTimePermutation(a[..|a| - 1], b[..i] + b[i + 1..]);
      TotalTimeRemove(b, i);
    }
  }

  /** Every session lasts at least a minute, so the total is at least the
      number of sessions, and positive exactly when there is a session. */
  lemma {:induction false} TotalAtLeastCount(ss: seq<Session>)
    requires forall k :: 0 <= k < |ss| ==> ss[k].duration > 0
    ensures TotalTime(ss) >= |ss|
    ensures TotalTime(ss) > 0 <==> |ss| > 0
  {
    if ss != [] {
      TotalAtLeastCount(ss[..|ss| - 1]);
    }
  }

  /** The last-played time is absent exactly when there are no sessions;
      otherwise it is the largest session end time, floored at 0. */
  lemma {:induction false} LastPlayedIsMax(ss: seq<Session>)
    ensures LastPlayed(ss).None? <==> ss == []
    ensures ss != [] ==>
      && LastPlayed(ss).value >= 0
      && (forall k :: 0 <= k < |ss| ==> ss[k].endTime <= LastPlayed(ss).value)
      && (LastPlayed(ss).value == 0 || exists k :: 0 <= k < |ss| && ss[k].endTime == LastPlayed(ss).value)
  {
    if ss != [] {
      var n := |ss| - 1;
      var prefix := ss[..n];
      LastPlayedIsMax(prefix);
      var v := LastPlayed(ss).value;
      forall k | 0 <= k < |ss| ensures ss[k].endTime <= v {
        if k < n { assert ss[k] == prefix[k]; }
      }
      if v != 0 && v != ss[n].endTime {
        var k :| 0 <= k < n && prefix[k].endTime == v;
        assert ss[k] == prefix[k];
      }
    }
  }

  /** A floor of 0 that bounds every end time bounds the last-played time. */
  lemma LastPlayedLeast(ss: seq<Session>, v: int)
    requires ss != [] && v >= 0
    requires forall s :: s in ss ==> s.endTime <= v
    ensures LastPlayed(ss).Some? && LastPlayed(ss).value <= v
  {
    LastPlayedIsMax(ss);
    if LastPlayed(ss).value != 0 {
      var k :| 0 <= k < |ss| && ss[k].endTime == LastPlayed(ss).value;
      assert ss[k] in ss;
    }
  }

  /** The last-played time does not depend on the order of the sessions. */
  lemma LastPlayedPermutation(a: seq<Session>, b: seq<Session>)
    requires multiset(a) == multiset(b)
    ensures LastPlayed(a) == LastPlayed(b)
  {
    SameElements(a, b);
    if a == [] {
      assert |b| == |multiset(b)| == 0;
    } else {
      LastPlayedIsMax(a);
      LastPlayedIsMax(b);
      LastPlayedLeast(b, LastPlayed(a).value);
      LastPlayedLeast(a, LastPlayed(b).value);
    }
  }

  /** The dates with an entry are exactly the dates of the sessions. */
  lemma {:induction false} DailyTotalsKeys(ss: seq<Session>)
    ensures DailyTotals(ss).Keys == set s | s in ss :: s.date
  {
    if ss != [] {
      var n := |ss| - 1;
      DailyTotalsKeys(ss[..n]);
      assert ss == ss[..n] + [ss[n]];
      assert (set s | s in ss :: s.date) == (set s | s in ss[..n] :: s.date) + {ss[n].date};
    }
  }

  /** Each date's entry is the total time of the sessions on that date. */
  lemma {:induction false} DailyTotalsAt(ss: seq<Session>, d: string)
    requires d in DailyTotals(ss)
    ensures DailyTotals(ss)[d] == TotalTime(OnDate(ss, d))
  {
    var n := |ss| - 1;
    var prefix := ss[..n];
    if d in DailyTotals(prefix) {
      DailyTotalsAt(prefix, d);
    } else {
      DailyTotalsKeys(prefix);
      OnDateNone(prefix, d);
    }
    var o := OnDate(prefix, d);
    if ss[n].date == d {
      assert (o + [ss[n]])[..|o|] == o;
    }
  }

  lemma {:induction false} OnDateNone(ss: seq<Session>, d: string)
    requires forall s :: s in ss ==> s.date != d
    ensures OnDate(ss, d) == []
  {
    if ss != [] {
      OnDateNone(ss[..|ss| - 1], d);
    }
  }

  /** Filtering by date keeps each session of that date as many times as
      it occurs, and no other session. */
  lemma {:induction false} OnDateCount(ss: seq<Session>, d: string, s: Session)
    ensures multiset(OnDate(ss, d))[s] == if s.date == d then multiset(ss)[s] else 0
  {
    if ss != [] {
      var n := |ss| - 1;
      OnDateCount(ss[..n], d, s);
      assert ss == ss[..n] + [ss[n]];
    }
  }

  lemma OnDatePermutation(a: seq<Session>, b: seq<Session>, d: string)
    requires multiset(a) == multiset(b)
    ensures multiset(OnDate(a, d)) == multiset(OnDate(b, d))
  {
    forall s ensures multiset(OnDate(a, d))[s] == multiset(OnDate(b, d))[s] {
      OnDateCount(a, d, s);
      OnDateCount(b, d, s);
    }
  }

  /** The per-date totals do not depend on the order of the sessions. */
  lemma DailyTotalsPermutation(a: seq<Session>, b: seq<Session>)
    requires multiset(a) == multiset(b)
    ensures DailyTotals(a) == DailyTotals(b)
  {
    DailyTotalsKeys(a);
    DailyTotalsKeys(b);
    assert (set s | s in a :: s.date) == (set s | s in b :: s.date) by {
      forall s | s in a ensures s in b { assert s in multiset(b); }
      forall s | s in b ensures s in a { assert s in multiset(a); }
    }
    forall d | d in DailyTotals(a) ensures DailyTotals(a)[d] == DailyTotals(b)[d] {
      DailyTotalsAt(a, d);
      DailyTotalsAt(b, d);
      OnDatePermutation(a, b, d);
      TotalTimePermutation(OnDate(a, d), OnDate(b, d));
    }
  }

  lemma {:induction false} MapSumRemove(m: map<string, int>, k: string)
    requires k in m
    ensures MapSum(m) == m[k] + MapSum(m - {k})
    decreases m.Keys
  {
    assert m.Keys != {};
    var k' :| k' in m.Keys && MapSum(m) == m[k'] + MapSum(m - {k'});
    if k' != k {
      var mk', mk := m - {k'}, m - {k};
      assert mk'.Keys == m.Keys - {k'} && mk.Keys == m.Keys - {k};
      assert k in mk' && mk'[k] == m[k];
      assert k' in mk && mk[k'] == m[k'];
      MapSumRemove(mk', k);
      MapSumRemove(mk, k');
      assert mk' - {k} == mk - {k'};
    }
  }

  lemma MapSumUpdate(m: map<string, int>, k: string, v: int)
    ensures MapSum(m[k := v]) == MapSum(m) - (if k in m then m[k] else 0) + v
  {
    MapSumRemove(m[k := v], k);
    assert m[k := v] - {k} == m - {k};
    if k in m {
      MapSumRemove(m, k);
    } else {
      assert m - {k} == m;
    }
  }

  /** The per-date totals add up to the total time. */
  lemma {:induction false} DailyTotalsSum(ss: seq<Session>)
    ensures MapSum(DailyTotals(ss)) == TotalTime(ss)
  {
    if ss == [] {
    } else {
      var n := |ss| - 1;
      DailyTotalsSum(ss[..n]);
      var m := DailyTotals(ss[..n]);
      var s := ss[n];
      MapSumUpdate(m, s.date, (if s.date in m then m[s.date] else 0) + s.duration);
      assert AddMinutes(m, s.date, s.duration) == m[s.date := (if s.date in m then m[s.date] else 0) + s.duration];
    }
  }

  /** The statistics row is a function of the multiset of sessions. */
  lemma StatsPermutation(gameId: int, a: seq<Session>, b: seq<Session>)
    requires multiset(a) == multiset(b)
    ensures StatsOf(gameId, a) == StatsOf(gameId, b)
  {
    TotalTimePermutation(a, b);
    LastPlayedPermutation(a, b);
    DailyTotalsPermutation(a, b);
    assert |a| == |multiset(a)| == |multiset(b)| == |b|;
  }

  /** With at least one session the per-date map has an entry, so the
      `{}` serialisation is never written. */
  lemma DailyStatsNeverEmptyObject(gameId: int, ss: seq<Session>)
    requires |ss| > 0
    ensures StatsOf(gameId, ss).dailyStats.DailyArray?
  {
    var m := DailyTotals(ss);
    assert ss[|ss| - 1].date in m;
  }
}
