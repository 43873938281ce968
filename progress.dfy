/** Integer arithmetic behind the percentages the pipeline reports.  Python
    computes them as int(a / b * c) on floats; they are modelled as the exact
    floor a * c / b. */
module Progress {

  /** A list of reported percentages that never goes back and stays within
      lo..hi. */
  predicate Ordered(p: seq<int>, lo: int, hi: int) {
    forall i, j :: 0 <= i <= j < |p| ==> lo <= p[i] <= p[j] <= hi
  }

  /** Where a quotient lies: below q + 1 when x is below (q + 1) * d, at
      least q when x is at least q * d. */
  lemma DivBounds(x: nat, d: nat, q: nat)
    requires d > 0
    ensures x < (q + 1) * d ==> x / d <= q
    ensures q * d <= x ==> q <= x / d
  {
    var r := x / d;
    assert x == r * d + x % d;
    if r >= q + 1 {
      MulMonotone(q + 1, r, d);
    }
    if r + 1 <= q {
      MulMonotone(r + 1, q, d);
    }
  }

  lemma MulMonotone(a: nat, b: nat, d: nat)
    requires a <= b
    ensures a * d <= b * d
  {
    var k: nat := b - a;
    assert b * d == a * d + k * d;
  }

  lemma DivMonotone(a: nat, b: nat, d: nat)
    requires a <= b && d > 0
    ensures a / d <= b / d
  {
    DivBounds(a, d, b / d);
    assert b == (b / d) * d + b % d;
  }
}
