/** Small shared vocabulary: optional values, results, and JavaScript's integer division. */
module Prelude {

  datatype Option<+T> = None | Some(value: T)

  datatype Result<+T, +E> = Ok(value: T) | Err(error: E)

  /** BigInt division: truncates toward zero, whatever the signs. */
  function TruncDiv(a: int, b: int): int
    requires b != 0
  {
    var q := (if a < 0 then -a else a) / (if b < 0 then -b else b);
    if (a < 0) == (b < 0) then q else -q
  }

  function Max(a: int, b: int): int {
    if a < b then b else a
  }

  function Min(a: int, b: int): int {
    if a < b then a else b
  }

  function Pow2(k: nat): (r: nat)
    ensures r >= 1
  {
    if k == 0 then 1 else 2 * Pow2(k - 1)
  }

  predicate Distinct<T(==)>(s: seq<T>) {
    forall i, j :: 0 <= i < j < |s| ==> s[i] != s[j]
  }

  /** n * c by repeated addition, which keeps inductions over it linear. */
  function Times(n: nat, c: nat): nat {
    if n == 0 then 0 else c + Times(n - 1, c)
  }

  lemma {:induction false} TimesIsProduct(n: nat, c: nat)
    ensures Times(n, c) == n * c
  {
    if n > 0 {
      TimesIsProduct(n - 1, c);
      assert n * c == c + (n - 1) * c;
    }
  }

  /** Truncation toward zero: the quotient falls short of the exact one by less than one, never past it. */
  lemma TruncDivMeans(a: int, b: int)
    requires b != 0
    ensures var r := a - TruncDiv(a, b) * b;
      && -Abs(b) < r < Abs(b)
      && (a >= 0 ==> r >= 0) && (a <= 0 ==> r <= 0)
  {
    var p, q := Abs(a), Abs(b);
    assert p == p / q * q + p % q;
    if (a < 0) == (b < 0) {
      assert (p / q) * -q == -(p / q * q);
    } else {
      assert -(p / q) * q == -(p / q * q) == (p / q) * -q;
    }
  }

  function Abs(a: int): (r: int)
    ensures r >= 0
  {
    if a < 0 then -a else a
  }

  /** A set of places, and one more place or not. */
  lemma OneMore(less: set<int>, more: set<int>, n: int, b: bool)
    requires n !in less
    requires forall i: int :: i in more <==> (i in less || (b && i == n))
    ensures |more| == |less| + if b then 1 else 0
  {
    var added: set<int> := if b then {n} else {};
    forall i: int ensures i in more <==> i in less + added {
    }
    assert more == less + added;
  }

  // ---- Parts of a sequence, in order ----------------------------------------------------------

  ghost predicate Ascending(places: seq<nat>) {
    forall j, k :: 0 <= j < k < |places| ==> places[j] < places[k]
  }

  /** As many distinct places below n as there are: every one of them. */
  lemma PlaceOf(places: seq<nat>, m: nat) returns (k: nat)
    requires m < |places| && Distinct(places) && forall j :: 0 <= j < |places| ==> places[j] < |places|
    ensures k < |places| && places[k] == m
  {
    var seen: set<nat> := set i | i in places;
    DistinctCover(places, seen);
    Exhausted(seen, Below(|places|), m);
    k :| k < |places| && places[k] == m;
  }

  lemma Exhausted(s: set<nat>, all: set<nat>, m: nat)
    requires s <= all && |s| == |all| && m in all
    ensures m in s
  {
    assert all == s + (all - s);
  }

  ghost function Below(n: nat): (s: set<nat>)
    ensures |s| == n && forall i: nat :: i in s <==> i < n
  {
    if n == 0 then {} else Below(n - 1) + {n - 1}
  }

  lemma {:induction false} DistinctCover(places: seq<nat>, seen: set<nat>)
    requires Distinct(places) && forall i :: i in seen <==> i in places
    ensures |seen| == |places|
    decreases |places|
  {
    if places == [] {
      assert seen == {};
    } else {
      var front, last := places[..|places| - 1], places[|places| - 1];
      assert places == front + [last];
      DistinctCover(front, seen - {last});
    }
  }

  /** `part` is what stands at these places of `whole`, in the order of `whole`. */
  ghost predicate Selects<T>(whole: seq<T>, part: seq<T>, places: seq<nat>) {
    && Ascending(places) && |places| == |part|
    && forall k :: 0 <= k < |part| ==> places[k] < |whole| && part[k] == whole[places[k]]
  }

  lemma AscendingSnoc(places: seq<nat>, n: nat)
    requires Ascending(places) && forall k :: 0 <= k < |places| ==> places[k] < n
    ensures Ascending(places + [n])
    ensures forall i :: i in places + [n] <==> i in places || i == n
  {
  }

  /** One more element, selected or not. */
  lemma SelectsMore<T>(whole: seq<T>, x: T, part: seq<T>, places: seq<nat>, keep: bool) returns (more: seq<nat>)
    requires Selects(whole, part, places)
    ensures more == places + (if keep then [|whole|] else [])
    ensures Selects(whole + [x], part + (if keep then [x] else []), more)
    ensures forall i :: i in more <==> i in places || (keep && i == |whole|)
  {
    more := places + (if keep then [|whole|] else []);
    if keep {
      AscendingSnoc(places, |whole|);
    } else {
      assert more == places && part + [] == part;
    }
  }

  function Sum(s: seq<nat>): (total: nat)
  {
    if s == [] then 0 else Sum(s[..|s| - 1]) + s[|s| - 1]
  }

  lemma {:induction false} SumConcat(a: seq<nat>, b: seq<nat>)
    ensures Sum(a + b) == Sum(a) + Sum(b)
  {
    if b == [] {
      assert a + b == a;
    } else {
      var init := b[..|b| - 1];
      SumConcat(a, init);
      assert (a + b)[..|a + b| - 1] == a + init;
    }
  }

  lemma {:induction false} SumPrefix(s: seq<nat>, k: nat)
    requires k <= |s|
    ensures Sum(s[..k]) <= Sum(s)
    ensures k < |s| ==> Sum(s[..k]) + s[k] <= Sum(s)
  {
    assert s == s[..k] + s[k..];
    SumConcat(s[..k], s[k..]);
    if k < |s| {
      assert s == s[..k + 1] + s[k + 1..];
      SumConcat(s[..k + 1], s[k + 1..]);
      assert s[..k + 1][..k] == s[..k];
    }
  }

  /** Removing one element of a list takes its value off the sum. */
  lemma SumRemove(s: seq<nat>, k: nat)
    requires k < |s|
    ensures Sum(s) == Sum(s[..k] + s[k + 1..]) + s[k]
  {
    SplitAround(s, k);
    SumWithout(s[..k], s[k], s[k + 1..]);
  }

  lemma SplitAround(s: seq<nat>, k: nat)
    requires k < |s|
    ensures s == s[..k] + [s[k]] + s[k + 1..]
  {
  }

  lemma SumWithout(a: seq<nat>, x: nat, b: seq<nat>)
    ensures Sum(a + [x] + b) == Sum(a + b) + x
  {
    SumConcat(a, b);
    SumConcat(a + [x], b);
    SumConcat(a, [x]);
    assert [x][..0] == [];
  }
}
