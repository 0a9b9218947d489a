/** The nonlinear facts the payout proofs need, one step each. */
module Arith {

  lemma MulLe(a: int, b: int, c: int)
    requires a <= b && 0 <= c
    ensures a * c <= b * c
  {
  }

  lemma MulLeCancel(a: int, b: int, c: int)
    requires a * c <= b * c && 0 < c
    ensures a <= b
  {
    if b < a {
      MulLe(b + 1, a, c);
    }
  }

  lemma MulLtCancel(a: int, b: int, c: int)
    requires a * c < b * c && 0 < c
    ensures a < b
  {
    if b <= a {
      MulLe(b, a, c);
    }
  }

  lemma Nonneg(a: int, b: int)
    requires 0 <= a && 0 <= b
    ensures 0 <= a * b
  {
  }

  lemma FloorBounds(a: nat, b: nat)
    requires b > 0
    ensures a / b * b <= a < a / b * b + b
  {
    assert a == a / b * b + a % b;
  }

  /** Anything that fits `b` times into `a` is at most the quotient. */
  lemma FloorGreatest(q: int, a: nat, b: nat)
    requires b > 0 && q * b <= a
    ensures q <= a / b
  {
    FloorBounds(a, b);
    assert (a / b + 1) * b == a / b * b + b;
    MulLtCancel(q, a / b + 1, b);
  }

  lemma QuotientUnique(a: nat, b: nat, q: nat)
    requires b > 0 && q * b <= a < q * b + b
    ensures a / b == q
  {
    FloorGreatest(q, a, b);
    FloorBounds(a, b);
    assert (q + 1) * b == q * b + b;
    MulLtCancel(a / b, q + 1, b);
  }

  /** The drift after one draw `p` of `s` shares, times `ts`. */
  lemma DriftAlgebra(cr0: int, ts0: int, cr: int, ts: int, s: int, p: int)
    ensures ((cr - p) * ts0 - cr0 * (ts - s)) * ts
         == (cr * ts0 - cr0 * ts) * (ts - s) + ts0 * (s * cr - p * ts)
  {
  }

  /** One floored draw moves the drift up by at most one first-till of shares, never below zero. */
  lemma DriftStep(cr0: nat, ts0: nat, cr: nat, ts: nat, s: nat, p: nat)
    requires 0 < ts && s <= ts
    requires 0 <= cr * ts0 - cr0 * ts
    requires p * ts <= s * cr < p * ts + ts
    ensures 0 <= (cr - p) * ts0 - cr0 * (ts - s) <= cr * ts0 - cr0 * ts + ts0
  {
    var d, rem := cr * ts0 - cr0 * ts, s * cr - p * ts;
    var d' := (cr - p) * ts0 - cr0 * (ts - s);
    DriftAlgebra(cr0, ts0, cr, ts, s, p);
    Nonneg(d, ts - s);
    Nonneg(ts0, rem);
    MulLeCancel(0, d', ts);
    MulLe(ts - s, ts, d);
    MulLe(rem, ts, ts0);
    assert (d + ts0) * ts == d * ts + ts0 * ts;
    MulLeCancel(d', d + ts0, ts);
  }

  /** The fair share q of the first till is covered by any till with a nonnegative drift. */
  lemma FairShareCovered(cr0: nat, ts0: nat, cr: nat, ts: nat, s: nat, q: nat)
    requires 0 < ts0 && q * ts0 <= s * cr0 && cr0 * ts <= cr * ts0
    ensures q * ts <= s * cr
  {
    MulLe(q * ts0, s * cr0, ts);
    MulLe(cr0 * ts, cr * ts0, s);
    assert s * cr0 * ts == cr0 * ts * s && cr * ts0 * s == s * cr * ts0;
    assert q * ts0 * ts == q * ts * ts0;
    MulLeCancel(q * ts, s * cr, ts0);
  }

  lemma DrawAlgebra(cr0: int, ts0: int, cr: int, ts: int, s: int)
    ensures s * cr * ts0 == s * cr0 * ts + s * (cr * ts0 - cr0 * ts)
  {
  }

  lemma DrawWithinDrift(a: int, b: int, d: nat, s: nat, ts: nat)
    requires 0 < ts && s <= ts && a * ts <= b * ts + s * d
    ensures a <= b + d
  {
    MulLe(s, ts, d);
    assert (b + d) * ts == b * ts + d * ts;
    MulLeCancel(a, b + d, ts);
  }

  /** A draw p exceeds the first till's share by no more than the drift allows. */
  lemma DrawLimited(cr0: nat, ts0: nat, cr: nat, ts: nat, s: nat, p: nat, k: nat)
    requires 0 < ts && s <= ts && p * ts <= s * cr
    requires 0 <= cr * ts0 - cr0 * ts <= k * ts0
    ensures (p - k) * ts0 <= s * cr0
  {
    MulLe(p * ts, s * cr, ts0);
    DrawAlgebra(cr0, ts0, cr, ts, s);
    assert p * ts0 * ts == p * ts * ts0;
    DrawWithinDrift(p * ts0, s * cr0, cr * ts0 - cr0 * ts, s, ts);
    assert (p - k) * ts0 == p * ts0 - k * ts0;
  }

  lemma DrawnAlgebra(cr0: int, ts0: int, cr: int, ts: int, cr': int, ts': int)
    ensures (cr - cr') * ts0 == (cr * ts0 - cr0 * ts) - (cr' * ts0 - cr0 * ts') + cr0 * (ts - ts')
  {
  }

  /** What is drawn between two tills whose drifts are bounded. */
  lemma DrawnLimited(drawn: int, ts0: nat, drift: int, drift': int, fair: int, swept: nat, k: nat)
    requires ts0 > 0 && drawn * ts0 == drift - drift' + fair
    requires drift <= k * ts0 && 0 <= drift' && fair <= swept * ts0
    ensures drawn <= swept + k
  {
    assert (swept + k) * ts0 == swept * ts0 + k * ts0;
    MulLeCancel(drawn, swept + k, ts0);
  }

  lemma LargestMultiple(a: int, b: int, best: int, q: int)
    requires b > 0 && best * b <= a < best * b + b
    ensures q * b <= a <==> q <= best
  {
    if q <= best {
      MulLe(q, best, b);
    } else {
      MulLe(best + 1, q, b);
      assert (best + 1) * b == best * b + b;
    }
  }

  lemma CoveredByFloor(a: nat, b: nat, p: int)
    requires b > 0 && p >= a / b
    ensures a <= (p + 1) * b
  {
    FloorBounds(a, b);
    MulLe(a / b + 1, p + 1, b);
    assert (a / b + 1) * b == a / b * b + b;
  }

  /** One more floored draw. */
  lemma FloorAdds(drawn: int, equiv: nat, s: nat, p: int, cr0: int, ts0: int)
    requires drawn * ts0 >= equiv * cr0 && s * cr0 <= (p + 1) * ts0
    ensures (drawn + (p + 1)) * ts0 >= (equiv + s) * cr0
  {
  }

  /** What `n` floored payees draw against what all their shares were worth. */
  lemma UndercreditAlgebra(drawn: int, n: nat, equiv: nat, total: nat, cr0: nat, ts0: nat, whole: nat, e: nat,
                           tc: nat, worth: int, rest: int)
    requires drawn * ts0 >= equiv * cr0 && equiv + n >= total && cr0 == whole - e
    requires worth == total * whole + rest && rest < tc
    ensures worth < drawn * ts0 + n * cr0 + total * e + tc
  {
    MulLe(total, equiv + n, cr0);
    assert (equiv + n) * cr0 == equiv * cr0 + n * cr0;
    assert total * whole == total * cr0 + total * e;
  }

  lemma WorthAlgebra(swept: int, ts: int, tc: int, q: int, rest: int)
    requires swept * ts == q * tc + rest
    ensures swept * (ts + q) == q * (tc + swept) + rest
  {
  }

  lemma DivTwice(v: nat, a: nat, b: nat)
    requires a > 0 && b > 0
    ensures a * b > 0 && v / (a * b) == v / a / b
  {
    FloorBounds(v, a);
    FloorBounds(v / a, b);
    Nonneg(a - 1, b - 1);
    assert a * b == (a - 1) * (b - 1) + a + b - 1;
    FloorOfFloor(v, a, b, v / a, v / a / b);
    QuotientUnique(v, a * b, v / a / b);
  }

  lemma FloorOfFloor(v: int, a: int, b: int, q: int, r: int)
    requires a > 0 && q * a <= v < q * a + a && r * b <= q < r * b + b
    ensures r * (a * b) <= v < r * (a * b) + a * b
  {
    MulLe(r * b, q, a);
    MulLe(q + 1, r * b + b, a);
    assert r * b * a == r * (a * b);
    assert (r * b + b) * a == r * b * a + a * b && (q + 1) * a == q * a + a;
  }
}
