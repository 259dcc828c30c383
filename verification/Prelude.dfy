/** Vocabulary shared by the models: optional values and integer arithmetic. */
module Prelude {

  datatype Option<+T> = None | Some(value: T)

  function Max(a: int, b: int): int {
    if a < b then b else a
  }

  function Min(a: int, b: int): int {
    if a < b then a else b
  }

  /** `math.ceil(a / b)` for a positive divisor, on exact integers. */
  function CeilDiv(a: int, b: int): int
    requires b > 0
  {
    (a + b - 1) / b
  }

  /** CeilDiv(a, b) is the least q with b * q >= a. */
  lemma CeilDivIsLeast(a: int, b: int, q: int)
    requires b > 0
    ensures b * q >= a <==> q >= CeilDiv(a, b)
  {
    var c := CeilDiv(a, b);
    assert b * c >= a && b * (c - 1) < a by {
      var n := a + b - 1;
      assert n == b * (n / b) + n % b && 0 <= n % b < b;
      assert b * (c - 1) == b * c - b;
    }
    if q >= c {
      Monotone(b, c, q);
    } else {
      Monotone(b, q, c - 1);
    }
  }

  lemma Monotone(b: int, x: int, y: int)
    requires b >= 0 && x <= y
    ensures b * x <= b * y
  {
    assert b * (y - x) >= 0;
    assert b * y == b * x + b * (y - x);
  }

  lemma Distribute(b: int, x: int, y: int)
    ensures b * (x + y) == b * x + b * y
  {
  }
}
