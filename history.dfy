/** The history fallback: when a play event carries no usable playtime, the
    duration is taken from the old `history` table. */
module History {
  import opened Tables
  import opened Arith

  /** The tolerance, in seconds, between an event's time and a history end. */
  const ToleranceSeconds := 300

  /** A history row is usable for `target` when both ends are present and its
      end lies strictly within the tolerance of `target`. */
  predicate Matches(h: HistoryRow, target: int) {
    h.start.Some? && h.end.Some? && Abs(target - h.end.value) < ToleranceSeconds
  }

  /** The length of a complete history row in whole minutes, truncated. */
  function RowMinutes(h: HistoryRow): (m: int)
    requires h.start.Some? && h.end.Some?
    ensures h.start.value <= h.end.value ==> 0 <= m * 60 <= h.end.value - h.start.value < m * 60 + 60
    ensures h.end.value < h.start.value ==> m <= 0
  {
    Div(h.end.value - h.start.value, 60)
  }

  /** The index of the first matching row, or `|rows|` when none matches. */
  function FirstMatch(rows: seq<HistoryRow>, target: int): nat {
    if rows == [] then 0
    else if Matches(rows[0], target) then 0
    else 1 + FirstMatch(rows[1..], target)
  }

  /** `FirstMatch` is an index into the rows or one past the end; the row
      there matches, and no row before it does. */
  lemma {:induction false} FirstMatchSpec(rows: seq<HistoryRow>, target: int)
    ensures FirstMatch(rows, target) <= |rows|
    ensures FirstMatch(rows, target) < |rows| ==> Matches(rows[FirstMatch(rows, target)], target)
    ensures forall j :: 0 <= j < FirstMatch(rows, target) ==> !Matches(rows[j], target)
  {
    if rows != [] && !Matches(rows[0], target) {
      FirstMatchSpec(rows[1..], target);
      forall j | 0 < j < FirstMatch(rows, target) ensures !Matches(rows[j], target) {
        assert rows[j] == rows[1..][j - 1];
      }
    }
  }

  /** The fallback duration in minutes: that of the first matching row in list
      order, 0 when no row matches. */
  function HistoryMinutes(rows: seq<HistoryRow>, target: int): int {
    FirstMatchSpec(rows, target);
    var i := FirstMatch(rows, target);
    if i < |rows| then RowMinutes(rows[i]) else 0
  }

  /** First match wins: the fallback is the duration of the row at index `i`
      exactly when that row matches and no earlier one does; it is 0 when no
      row matches. */
  lemma HistoryMinutesFirstMatch(rows: seq<HistoryRow>, target: int, i: int)
    requires 0 <= i < |rows| && Matches(rows[i], target)
    ensures (forall j :: 0 <= j < i ==> !Matches(rows[j], target))
        <==> (FirstMatch(rows, target) == i)
    ensures (forall j :: 0 <= j < i ==> !Matches(rows[j], target))
        ==> HistoryMinutes(rows, target) == RowMinutes(rows[i])
  {
    FirstMatchSpec(rows, target);
  }

  lemma HistoryMinutesNoMatch(rows: seq<HistoryRow>, target: int)
    requires forall j :: 0 <= j < |rows| ==> !Matches(rows[j], target)
    ensures HistoryMinutes(rows, target) == 0
  {
    FirstMatchSpec(rows, target);
  }

  /** Rows after the first match are never looked at. */
  lemma {:induction false} HistoryMinutesIgnoresTail(rows: seq<HistoryRow>, more: seq<HistoryRow>, target: int)
    requires exists j :: 0 <= j < |rows| && Matches(rows[j], target)
    ensures HistoryMinutes(rows + more, target) == HistoryMinutes(rows, target)
  {
    var j :| 0 <= j < |rows| && Matches(rows[j], target);
    var i := FirstMatch(rows, target);
    FirstMatchSpec(rows, target);
    assert i < |rows|;
    assert (rows + more)[i] == rows[i];
    forall k | 0 <= k < i ensures !Matches((rows + more)[k], target) {
      assert (rows + more)[k] == rows[k];
    }
    HistoryMinutesFirstMatch(rows + more, target, i);
  }

  /** The rows of the `history` table that belong to game `uuid`, in the
      order of `rows` (the query itself fixes no order). */
  function HistoryOf(rows: seq<HistoryRow>, uuid: string): seq<HistoryRow> {
    if rows == [] then []
    else
      var rest := HistoryOf(rows[1..], uuid);
      if rows[0].game == Some(uuid) then [rows[0]] + rest else rest
  }

  /** The query keeps the game's rows in input order and drops all others
      (a NULL game column matches nothing). */
  lemma {:induction false} HistoryOfExact(rows: seq<HistoryRow>, uuid: string, other: seq<HistoryRow>)
    ensures HistoryOf(rows + other, uuid) == HistoryOf(rows, uuid) + HistoryOf(other, uuid)
    ensures forall k :: 0 <= k < |HistoryOf(rows, uuid)| ==> HistoryOf(rows, uuid)[k].game == Some(uuid)
    ensures |rows| == 1 && rows[0].game == Some(uuid) ==> HistoryOf(rows, uuid) == rows
    ensures |rows| == 1 && rows[0].game != Some(uuid) ==> HistoryOf(rows, uuid) == []
  {
    if rows == [] {
      assert rows + other == other;
    } else {
      assert (rows + other)[0] == rows[0];
      assert (rows + other)[1..] == rows[1..] + other;
      HistoryOfExact(rows[1..], uuid, other);
    }
  }

  /** `get_duration_from_history` on the game's already-loaded rows: scan in
      order and return at the first match. */
  method GetDurationFromHistory(rows: seq<HistoryRow>, target: int) returns (minutes: int)
    ensures minutes == HistoryMinutes(rows, target)
  {
    for i := 0 to |rows|
      invariant forall j :: 0 <= j < i ==> !Matches(rows[j], target)
    {
      var h := rows[i];
      if h.start.Some? && h.end.Some? {
        var startS, endS := h.start.value, h.end.value;
        if Abs(target - endS) < ToleranceSeconds {
          HistoryMinutesFirstMatch(rows, target, i);
          return Div(endS - startS, 60);
        }
      }
    }
    HistoryMinutesNoMatch(rows, target);
    return 0;
  }
}
