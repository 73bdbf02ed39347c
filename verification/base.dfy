/** Building blocks shared by every page: an optional value (for JavaScript's
    `null`/`undefined` and for thrown-and-caught failures) and the rounding
    functions of JavaScript's `Math` object, taken on exact reals. */
module Base {

  datatype Option<+T> = None | Some(value: T)

  /** `Math.floor` on an exact real. */
  function Floor(x: real): (r: int)
    ensures r as real <= x < r as real + 1.0
  {
    x.Floor
  }

  /** `Math.ceil` on an exact real, written through floor of the negation. */
  function Ceil(x: real): (r: int)
    ensures x <= r as real < x + 1.0
  {
    -((-x).Floor)
  }

  /** `Math.max` on integers. */
  function Max(a: int, b: int): (r: int)
    ensures r >= a && r >= b && (r == a || r == b)
  {
    if a >= b then a else b
  }

  lemma FloorMonotone(x: real, y: real)
    requires x <= y
    ensures Floor(x) <= Floor(y)
  {
  }

  /** Scaling by a frame rate keeps the order of two times. */
  lemma ScaleMonotone(x: real, y: real, fps: nat)
    requires x <= y
    ensures x * fps as real <= y * fps as real
  {
  }

  lemma CeilMonotone(x: real, y: real)
    requires x <= y
    ensures Ceil(x) <= Ceil(y)
  {
  }
}
