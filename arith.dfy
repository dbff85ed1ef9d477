/** Integer operations of Rust's `i64` that differ from Dafny's. */
module Arith {

  /** `i64::abs`. */
  function Abs(x: int): (r: int)
    ensures r >= 0 && (r == x || r == -x)
  {
    if x < 0 then -x else x
  }

  /** Rust's `/` on signed integers: the quotient truncated toward zero
      (Dafny's own `/` is Euclidean). */
  function Div(a: int, b: int): (r: int)
    requires b > 0
    ensures Abs(r) * b <= Abs(a) < Abs(r) * b + b
    ensures a >= 0 ==> r >= 0
    ensures a < 0 ==> r <= 0
  {
    if a >= 0 then
      EuclidBounds(a, b);
      a / b
    else
      EuclidBounds(-a, b);
      -((-a) / b)
  }

  /** Dafny's `/` on a non-negative dividend and positive divisor: the
      quotient `q` is the non-negative whole number with `q * b <= a < q * b + b`. */
  lemma EuclidBounds(a: int, b: int)
    requires a >= 0 && b > 0
    ensures a / b >= 0 && (a / b) * b <= a < (a / b) * b + b
  {
    var q, m := a / b, a % b;
    assert a == q * b + m && 0 <= m < b;
  }

  lemma MinuteUnique(a: int, q: int)
    requires a >= 0 && q * 60000 <= a < q * 60000 + 60000
    ensures Div(a, 60000) == q
  {
  }

  lemma DivNeg(a: int, b: int)
    requires b > 0
    ensures Div(-a, b) == -Div(a, b)
  {
  }

  lemma MillisToMinutesNat(ms: nat)
    ensures Div(Div(ms, 1000), 60) == Div(ms, 60000)
  {
    var x := Div(ms, 1000);
    var y := Div(x, 60);
    MinuteUnique(ms, y);
  }

  /** Converting milliseconds to minutes in two truncating steps, as
      `ms / 1000 / 60`, is one truncating division by 60000. */
  lemma MillisToMinutes(ms: int)
    ensures Div(Div(ms, 1000), 60) == Div(ms, 60000)
  {
    if ms >= 0 {
      MillisToMinutesNat(ms);
    } else {
      MillisToMinutesNat(-ms);
      DivNeg(ms, 1000);
      DivNeg(Div(-ms, 1000), 60);
      DivNeg(ms, 60000);
    }
  }
}
