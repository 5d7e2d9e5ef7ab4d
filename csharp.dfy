/** C# integer division and remainder, which truncate toward zero (Dafny's own
    `/` and `%` are Euclidean and differ on negative operands). */
module CSharp {

  function Abs(x: int): nat
  {
    if x < 0 then -x else x
  }

  /** `a / b` on C# `int`: the quotient rounded toward zero. */
  function Quot(a: int, b: int): (q: int)
    requires b != 0
    ensures a >= 0 && b > 0 ==> q == a / b
    ensures a <= 0 && b > 0 ==> q <= 0
  {
    if (a < 0) == (b < 0) then Abs(a) / Abs(b) else -(Abs(a) / Abs(b))
  }

  /** `a % b` on C# `int`: the remainder left by `Quot`, which takes the sign of `a`. */
  function Rem(a: int, b: int): (r: int)
    requires b != 0
    ensures a == b * Quot(a, b) + r
    ensures Abs(r) < Abs(b)
    ensures a >= 0 ==> r >= 0
    ensures a <= 0 ==> r <= 0
  {
    var r := if a < 0 then -(Abs(a) % Abs(b)) else Abs(a) % Abs(b);
    QuotRem(a, b);
    r
  }

  lemma QuotRem(a: int, b: int)
    requires b != 0
    ensures a == b * Quot(a, b) + (if a < 0 then -(Abs(a) % Abs(b)) else Abs(a) % Abs(b))
  {
    var x, y := Abs(a), Abs(b);
    var m: int, r: int := x / y, x % y;
    assert x == y * m + r;
    if a < 0 {
      assert a == -x;
    }
    if b < 0 {
      assert b == -y;
      NegTimes(y, m);
    }
    if a < 0 && b >= 0 {
      NegTimes(m, y);
    }
  }

  lemma NegTimes(y: int, m: int)
    ensures (-y) * m == -(y * m) && y * (-m) == -(y * m) && (-y) * (-m) == y * m
  {
  }
}
