/** Multiplication and division facts that the solver needs spelled out. */
module Arithmetic {
  lemma {:induction false} MulPositive(a: nat, b: nat)
    requires a > 0 && b > 0
    ensures a * b > 0
  {
  }

  lemma {:induction false} MulCancels(a: int, b: int, n: nat)
    requires a * n < b * n
    ensures a < b
  {
  }

  lemma {:induction false} DivBounds(x: int, d: nat)
    requires d > 0
    ensures (x / d) * d <= x < (x / d) * d + d
  {
  }

  lemma {:induction false} DivUnique(q: int, x: int, d: nat)
    requires d > 0 && q * d <= x < q * d + d
    ensures x / d == q
  {
    DivBounds(x, d);
    var p := x / d;
    assert (q + 1) * d == q * d + d && (p + 1) * d == p * d + d;
    MulCancels(q, p + 1, d);
    MulCancels(p, q + 1, d);
  }

  /** The least n with n * d >= x. */
  function CeilDiv(x: int, d: int): int
    requires d > 0
  {
    (x + d - 1) / d
  }

  lemma {:induction false} CeilDivBounds(x: int, d: nat)
    requires d > 0
    ensures x <= CeilDiv(x, d) * d < x + d
    ensures x > 0 ==> CeilDiv(x, d) > 0
  {
  }

  /** Where the i-th of `parts` parts of `len` ends. */
  function Boundary(len: nat, parts: nat, i: nat): int
    requires parts > 0
  {
    len * i / parts
  }

  lemma {:induction false} GapAtLeast(b: int, b': int, q: int, x: int, len: int, p: nat)
    requires b * p <= x && x + len < b' * p + p && q * p <= len
    ensures q <= b' - b
  {
    assert (b + q) * p == b * p + q * p;
    assert (b' + 1) * p == b' * p + p;
    MulCancels(b + q, b' + 1, p);
  }

  lemma {:induction false} GapAtMost(b: int, b': int, c: int, x: int, len: int, p: nat)
    requires x < b * p + p && b' * p <= x + len && len <= c * p
    ensures b' - b <= c
  {
    assert (b + 1 + c) * p == b * p + p + c * p;
    MulCancels(b', b + 1 + c, p);
  }

  /** Every part holds the floor or the ceiling of len / parts. */
  lemma {:induction false} PartsAreEven(len: nat, parts: nat, i: nat)
    requires parts > 0
    ensures len / parts <= Boundary(len, parts, i + 1) - Boundary(len, parts, i) <= CeilDiv(len, parts)
  {
    DivBounds(len, parts);
    CeilDivBounds(len, parts);
    DivBounds(len * i, parts);
    DivBounds(len * (i + 1), parts);
    Distribute(len, i);
    GapAtLeast(Boundary(len, parts, i), Boundary(len, parts, i + 1), len / parts, len * i, len, parts);
    GapAtMost(Boundary(len, parts, i), Boundary(len, parts, i + 1), CeilDiv(len, parts), len * i, len, parts);
  }

  lemma {:induction false} Distribute(len: int, i: int)
    ensures len * (i + 1) == len * i + len
  {
  }

  lemma {:induction false} BoundaryEnds(len: nat, parts: nat)
    requires parts > 0
    ensures Boundary(len, parts, 0) == 0 && Boundary(len, parts, parts) == len
  {
    DivUnique(0, len * 0, parts);
    DivUnique(len, len * parts, parts);
  }

  /** With at least one per part, boundaries strictly increase. */
  lemma {:induction false} BoundaryIncreases(len: nat, parts: nat, i: nat, j: nat)
    requires 0 < parts <= len && i < j
    ensures Boundary(len, parts, i) < Boundary(len, parts, j)
    decreases j
  {
    PartsAreEven(len, parts, j - 1);
    DivBounds(len, parts);
    assert 1 * parts <= len;
    assert len / parts >= 1 by {
      assert (len / parts + 1) * parts == (len / parts) * parts + parts;
      MulCancels(1, len / parts + 1, parts);
    }
    if i < j - 1 {
      BoundaryIncreases(len, parts, i, j - 1);
    }
  }

  lemma {:induction false} BoundaryInside(len: nat, parts: nat, i: nat)
    requires 0 < i < parts <= len
    ensures 0 < Boundary(len, parts, i) < len
  {
  }
}
