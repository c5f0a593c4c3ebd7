/** Multiples and roundings, kept apart from the proofs that only add them up. */
module Numbers {

  function Ceil(x: real): int {
    -((-x).Floor)
  }

  lemma CeilBounds(x: real)
    ensures x <= Ceil(x) as real < x + 1.0
  {
  }

  lemma BelowCeil(k: int, x: real)
    ensures k < Ceil(x) <==> (k as real) < x
  {
    CeilBounds(x);
  }

  /** n equal shares, added one by one. */
  ghost function Shares(x: real, n: nat): real {
    if n == 0 then 0.0 else Shares(x, n - 1) + x
  }

  lemma {:induction false} SharesMultiply(x: real, n: nat)
    ensures Shares(x, n) == n as real * x
  {
    if n != 0 {
      SharesMultiply(x, n - 1);
    }
  }

  lemma {:induction false} SharesGrow(x: real, m: nat, n: nat)
    requires x >= 0.0 && m <= n
    ensures 0.0 <= Shares(x, m) <= Shares(x, n)
    decreases n
  {
    if m < n {
      SharesGrow(x, m, n - 1);
    } else if n > 0 {
      SharesGrow(x, m - 1, n - 1);
    }
  }

  /** The same for whole numbers. */
  ghost function Lots(c: nat, n: nat): nat {
    if n == 0 then 0 else Lots(c, n - 1) + c
  }

  lemma {:induction false} LotsMultiply(c: nat, n: nat)
    ensures Lots(c, n) == c * n
  {
    if n != 0 {
      LotsMultiply(c, n - 1);
    }
  }

  lemma FloorOfQuotient(n: nat, span: real, unit: real)
    requires unit > 0.0 && n as real * unit <= span
    ensures n <= (span / unit).Floor
  {
    assert span / unit * unit == span;
    assert n as real <= span / unit;
  }

  lemma QuotientBound(k: nat, span: real, unit: real)
    requires unit > 0.0
    ensures k as real * unit < span <==> (k as real) < span / unit
  {
    assert span / unit * unit == span;
    assert (k as real - span / unit) * unit == k as real * unit - span;
  }

  /** Division with remainder, for counting in lots. */
  lemma LotsAndRest(c: nat, n: nat) returns (k: nat, rest: nat)
    requires c > 0
    ensures rest < c && n == Lots(c, k) + rest
  {
    k, rest := n / c, n % c;
    LotsMultiply(c, k);
  }

  lemma {:induction false} LotsGrow(c: nat, m: nat, n: nat)
    requires c > 0
    ensures Lots(c, m) < Lots(c, n) <==> m < n
    decreases m + n
  {
    if m > 0 && n > 0 {
      LotsGrow(c, m - 1, n - 1);
    }
  }

  lemma Scaled(c: nat, low: int, high: int)
    requires low <= high
    ensures c * low <= c * high
  {
  }

  /** If n shares fit in a span, n lots are no more than the span's whole shares allow. */
  lemma LotsWithin(c: nat, n: nat, span: real, unit: real)
    requires unit > 0.0 && Shares(unit, n) <= span
    ensures Lots(c, n) <= c * (span / unit).Floor
  {
    LotsMultiply(c, n);
    SharesMultiply(unit, n);
    FloorOfQuotient(n, span, unit);
    hide Lots, Shares;
    Scaled(c, n, (span / unit).Floor);
  }
}
