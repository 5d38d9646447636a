/** The integer side of JavaScript's `Math` the core uses. */
module JsMath {

  /** `Math.round(n / d)` computed on exact rationals: the integer nearest to n/d, a half
      rounded towards +infinity. */
  function RoundDiv(n: int, d: int): (r: int)
    requires d > 0
    ensures d * (2 * r - 1) <= 2 * n < d * (2 * r + 1)
  {
    var q := (2 * n + d) / (2 * d);
    assert 2 * n + d == 2 * d * q + (2 * n + d) % (2 * d);
    q
  }

  /** The percentage `processed / total * 100`, rounded. */
  function Percent(part: int, whole: int): (r: int)
    requires whole > 0
    ensures 0 <= part <= whole ==> 0 <= r <= 100
    ensures part == whole ==> r == 100
  {
    var r := RoundDiv(100 * part, whole);
    assert 0 <= part <= whole ==> 0 <= r <= 100 by {
      if 0 <= part <= whole {
        if r < 0 {
          MulMonotone(whole, 2 * r + 1, -1);
        } else if r > 100 {
          MulMonotone(whole, 201, 2 * r - 1);
        }
      }
    }
    assert part == whole ==> r == 100 by {
      if part == whole {
        if r < 100 {
          MulMonotone(whole, 2 * r + 1, 199);
        } else if r > 100 {
          MulMonotone(whole, 201, 2 * r - 1);
        }
      }
    }
    r
  }

  lemma MulMonotone(k: int, a: int, b: int)
    requires k > 0 && a <= b
    ensures k * a <= k * b
  {
  }
}
