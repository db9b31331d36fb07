/** What several modules share. */
module Basics {

  datatype Option<+T> = None | Some(value: T)

  type Byte = b: nat | b < 256

  lemma Times(a: int, b: int, u: int)
    requires a <= b && u >= 0
    ensures a * u <= b * u
  {
  }

  lemma QuotientUnique(x: int, u: int, q: int, r: int)
    requires u > 0 && x == q * u + r && 0 <= r < u
    ensures x / u == q && x % u == r
  {
    var p := x / u;
    if p > q {
      Times(q + 1, p, u);
    } else if p < q {
      Times(p + 1, q, u);
    }
  }
}
