/** Facts about integer multiplication and division used by the split and range arithmetic. */
module Arith {

  lemma {:induction false} MulNonneg(a: int, b: int)
    requires a >= 0 && b >= 0
    ensures a * b >= 0
  {
  }

  lemma {:induction false} MulSub(n: int, a: int, b: int)
    ensures n * a - n * b == n * (a - b)
  {
  }

  /** A non-zero multiple of n is at least n away from zero. */
  lemma {:induction false} MulSign(n: int, d: int)
    requires n > 0
    ensures d >= 1 ==> n * d >= n
    ensures d <= -1 ==> n * d <= -n
  {
    if d >= 1 {
      MulNonneg(n, d - 1);
      assert n * d == n * (d - 1) + n;
    } else if d <= -1 {
      MulNonneg(n, -d - 1);
      assert n * d == -(n * (-d - 1)) - n;
    }
  }

  lemma {:induction false} DivUnique(z: int, n: int, q: int, r: int)
    requires n > 0 && z == n * q + r && 0 <= r < n
    ensures z / n == q
  {
    var q', r' := z / n, z % n;
    assert z == n * q' + r';
    MulSub(n, q, q');
    MulSign(n, q - q');
  }

  lemma {:induction false} DivMono(x: int, y: int, n: int)
    requires n > 0 && x <= y
    ensures x / n <= y / n
  {
    var qx, qy := x / n, y / n;
    assert x == n * qx + x % n && y == n * qy + y % n;
    MulSub(n, qx, qy);
    MulSign(n, qx - qy);
  }

  /** (x + y) / n exceeds x / n by the floor or the ceiling of y / n. */
  lemma {:induction false} DivAddStep(x: nat, y: nat, n: nat)
    requires n > 0
    ensures (x + y) / n - x / n == y / n || (x + y) / n - x / n == (y + n - 1) / n
  {
    var qx, rx := x / n, x % n;
    var qy, ry := y / n, y % n;
    assert x == n * qx + rx && y == n * qy + ry;
    assert x + y == n * (qx + qy) + (rx + ry);
    if rx + ry < n {
      DivUnique(x + y, n, qx + qy, rx + ry);
    } else {
      assert x + y == n * (qx + qy + 1) + (rx + ry - n);
      DivUnique(x + y, n, qx + qy + 1, rx + ry - n);
      assert y + n - 1 == n * (qy + 1) + (ry - 1);
      DivUnique(y + n - 1, n, qy + 1, ry - 1);
    }
  }

  /** The ceiling of y / n is the floor or one more. */
  lemma {:induction false} CeilFloor(y: nat, n: nat)
    requires n > 0
    ensures (y + n - 1) / n == y / n || (y + n - 1) / n == y / n + 1
  {
    var qy, ry := y / n, y % n;
    assert y == n * qy + ry;
    if ry == 0 {
      assert y + n - 1 == n * qy + (n - 1);
      DivUnique(y + n - 1, n, qy, n - 1);
    } else {
      assert y + n - 1 == n * (qy + 1) + (ry - 1);
      DivUnique(y + n - 1, n, qy + 1, ry - 1);
    }
  }
}
