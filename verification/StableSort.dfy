/** Array.prototype.sort with a comparator on one or two numbers: a stable sort. */
module StableSort {

  /** Compared by `major`, ties by `minor`. */
  datatype Key = Key(major: int, minor: int)

  predicate Le(a: Key, b: Key) {
    a.major < b.major || (a.major == b.major && a.minor <= b.minor)
  }

  function Insert<T>(sorted: seq<T>, x: T, key: T -> Key): (r: seq<T>)
    ensures |r| == |sorted| + 1
  {
    if sorted == [] || Le(key(sorted[|sorted| - 1]), key(x)) then sorted + [x]
    else Insert(sorted[..|sorted| - 1], x, key) + [sorted[|sorted| - 1]]
  }

  function Sort<T>(xs: seq<T>, key: T -> Key): (r: seq<T>)
    ensures |r| == |xs|
  {
    if xs == [] then [] else Insert(Sort(xs[..|xs| - 1], key), xs[|xs| - 1], key)
  }

  ghost predicate Sorted<T>(xs: seq<T>, key: T -> Key) {
    forall i, j :: 0 <= i < j < |xs| ==> Le(key(xs[i]), key(xs[j]))
  }

  /** The elements with one key, in order. */
  ghost function WithKey<T>(xs: seq<T>, key: T -> Key, k: Key): seq<T> {
    if xs == [] then []
    else
      var last := xs[|xs| - 1];
      WithKey(xs[..|xs| - 1], key, k) + (if key(last) == k then [last] else [])
  }

  /** Same elements, and equal keys keep their order. */
  ghost predicate StablePermutation<T>(xs: seq<T>, ys: seq<T>, key: T -> Key) {
    multiset(xs) == multiset(ys) && forall k :: WithKey(xs, key, k) == WithKey(ys, key, k)
  }

  lemma {:induction false} InsertPermutes<T>(sorted: seq<T>, x: T, key: T -> Key)
    ensures multiset(Insert(sorted, x, key)) == multiset(sorted) + multiset{x}
    decreases |sorted|
  {
    if sorted != [] && !Le(key(sorted[|sorted| - 1]), key(x)) {
      InsertPermutes(sorted[..|sorted| - 1], x, key);
      assert sorted == sorted[..|sorted| - 1] + [sorted[|sorted| - 1]];
    }
  }

  lemma {:induction false} InsertSorts<T>(sorted: seq<T>, x: T, key: T -> Key)
    requires Sorted(sorted, key)
    ensures Sorted(Insert(sorted, x, key), key)
    decreases |sorted|
  {
    if sorted != [] && !Le(key(sorted[|sorted| - 1]), key(x)) {
      var n := |sorted| - 1;
      InsertSorts(sorted[..n], x, key);
      InsertKeepsBound(sorted[..n], x, key, key(sorted[n]));
    }
  }

  lemma {:induction false} InsertKeepsBound<T>(sorted: seq<T>, x: T, key: T -> Key, bound: Key)
    requires Le(key(x), bound) && forall i :: 0 <= i < |sorted| ==> Le(key(sorted[i]), bound)
    ensures forall i :: 0 <= i <= |sorted| ==> Le(key(Insert(sorted, x, key)[i]), bound)
    decreases |sorted|
  {
    if sorted != [] && !Le(key(sorted[|sorted| - 1]), key(x)) {
      InsertKeepsBound(sorted[..|sorted| - 1], x, key, bound);
    }
  }

  lemma {:induction false} InsertStable<T>(sorted: seq<T>, x: T, key: T -> Key, k: Key)
    ensures WithKey(Insert(sorted, x, key), key, k)
         == WithKey(sorted, key, k) + (if key(x) == k then [x] else [])
    decreases |sorted|
  {
    if sorted == [] || Le(key(sorted[|sorted| - 1]), key(x)) {
      assert (sorted + [x])[..|sorted|] == sorted;
    } else {
      var n := |sorted| - 1;
      InsertStable(sorted[..n], x, key, k);
      var front := Insert(sorted[..n], x, key);
      assert (front + [sorted[n]])[..|front|] == front;
    }
  }

  /** The sort yields a sorted, stable permutation. */
  lemma {:induction false} SortIsStable<T>(xs: seq<T>, key: T -> Key)
    ensures Sorted(Sort(xs, key), key) && StablePermutation(xs, Sort(xs, key), key)
    decreases |xs|
  {
    if xs != [] {
      var n := |xs| - 1;
      SortIsStable(xs[..n], key);
      InsertSorts(Sort(xs[..n], key), xs[n], key);
      InsertPermutes(Sort(xs[..n], key), xs[n], key);
      assert xs == xs[..n] + [xs[n]];
      forall k ensures WithKey(xs, key, k) == WithKey(Sort(xs, key), key, k) {
        InsertStable(Sort(xs[..n], key), xs[n], key, k);
      }
    }
  }

  // ---- The sorted order, place by place -------------------------------------------------------

  ghost predicate Lt(a: Key, b: Key) {
    a.major < b.major || (a.major == b.major && a.minor < b.minor)
  }

  /** Every place of `xs` once: where each element of `ys` comes from. */
  ghost predicate Rearranges<T>(xs: seq<T>, ys: seq<T>, places: seq<nat>) {
    && |places| == |xs| == |ys|
    && (forall j, k :: 0 <= j < k < |places| ==> places[j] != places[k])
    && forall k :: 0 <= k < |ys| ==> places[k] < |xs| && ys[k] == xs[places[k]]
  }

  /** The element at `p` sorts before the one at `q`: smaller key first, equal keys in input order. */
  ghost predicate Before<T>(xs: seq<T>, key: T -> Key, p: nat, q: nat) {
    && p < |xs| && q < |xs|
    && (Lt(key(xs[p]), key(xs[q])) || (key(xs[p]) == key(xs[q]) && p < q))
  }

  ghost predicate KeyOrder<T>(xs: seq<T>, key: T -> Key, places: seq<nat>) {
    forall j, k :: 0 <= j < k < |places| ==> Before(xs, key, places[j], places[k])
  }

  lemma {:induction false} InsertPlace<T>(sorted: seq<T>, x: T, key: T -> Key) returns (i: nat)
    ensures PutIn(sorted, x, i, Insert(sorted, x, key))
    ensures i > 0 ==> Le(key(sorted[i - 1]), key(x))
    ensures i < |sorted| ==> !Le(key(sorted[i]), key(x))
    decreases |sorted|
  {
    i := |sorted|;
    if sorted != [] && !Le(key(sorted[|sorted| - 1]), key(x)) {
      var n := |sorted| - 1;
      i := InsertPlace(sorted[..n], x, key);
    }
  }

  /** `all` is `part` with `x` put in at `i`. */
  ghost predicate PutIn<A>(part: seq<A>, x: A, i: nat, all: seq<A>) {
    && i <= |part| && |all| == |part| + 1 && all[i] == x
    && (forall k :: 0 <= k < i ==> all[k] == part[k])
    && (forall k :: i < k < |all| ==> all[k] == part[k - 1])
  }

  lemma PlaceInserted<T>(xs: seq<T>, x: T, sorted: seq<T>, ys: seq<T>, key: T -> Key, before: seq<nat>, i: nat)
    returns (places: seq<nat>)
    requires Rearranges(xs, sorted, before) && KeyOrder(xs, key, before) && PutIn(sorted, x, i, ys)
    requires i > 0 ==> Le(key(sorted[i - 1]), key(x))
    requires i < |sorted| ==> !Le(key(sorted[i]), key(x))
    ensures Rearranges(xs + [x], ys, places) && KeyOrder(xs + [x], key, places)
  {
    places := before[..i] + [|xs|] + before[i..];
    assert PutIn(before, |xs|, i, places);
    StillRearranges(xs, x, sorted, ys, before, i, places);
    NewPlace(xs, x, sorted, key, before, i);
    StillInOrder(xs, x, key, before, i, places);
  }

  lemma StillRearranges<T>(xs: seq<T>, x: T, sorted: seq<T>, ys: seq<T>, before: seq<nat>, i: nat, places: seq<nat>)
    requires Rearranges(xs, sorted, before) && PutIn(sorted, x, i, ys) && PutIn(before, |xs|, i, places)
    ensures Rearranges(xs + [x], ys, places)
  {
    forall k | 0 <= k < |ys| ensures places[k] < |xs + [x]| && ys[k] == (xs + [x])[places[k]] {
    }
    forall j, k | 0 <= j < k < |places| ensures places[j] != places[k] {
      if j != i && k != i {
        assert before[if j < i then j else j - 1] != before[if k < i then k else k - 1];
      }
    }
  }

  lemma StillInOrder<T>(xs: seq<T>, x: T, key: T -> Key, before: seq<nat>, i: nat, places: seq<nat>)
    requires KeyOrder(xs, key, before) && PutIn(before, |xs|, i, places)
    requires forall j :: 0 <= j < i ==> Before(xs + [x], key, before[j], |xs|)
    requires forall j :: i <= j < |before| ==> Before(xs + [x], key, |xs|, before[j])
    ensures KeyOrder(xs + [x], key, places)
  {
    forall j, k | 0 <= j < k < |places| && j != i && k != i ensures Before(xs + [x], key, places[j], places[k]) {
      assert Before(xs, key, before[if j < i then j else j - 1], before[if k < i then k else k - 1]);
    }
  }

  /** The new element goes behind those up to its key and before the others. */
  lemma NewPlace<T>(xs: seq<T>, x: T, sorted: seq<T>, key: T -> Key, before: seq<nat>, i: nat)
    requires Rearranges(xs, sorted, before) && KeyOrder(xs, key, before) && i <= |sorted|
    requires i > 0 ==> Le(key(sorted[i - 1]), key(x))
    requires i < |sorted| ==> !Le(key(sorted[i]), key(x))
    ensures forall j :: 0 <= j < i ==> Before(xs + [x], key, before[j], |xs|)
    ensures forall j :: i <= j < |before| ==> Before(xs + [x], key, |xs|, before[j])
  {
    forall j | 0 <= j < i ensures Before(xs + [x], key, before[j], |xs|) {
      assert j < i - 1 ==> Before(xs, key, before[j], before[i - 1]);
    }
    forall j | i <= j < |before| ensures Before(xs + [x], key, |xs|, before[j]) {
      assert i < j ==> Before(xs, key, before[i], before[j]);
    }
  }

  /** The sort, place by place: every element once, smaller keys first, equal keys in input order. */
  lemma {:induction false} SortPlaces<T>(xs: seq<T>, key: T -> Key) returns (places: seq<nat>)
    ensures Rearranges(xs, Sort(xs, key), places) && KeyOrder(xs, key, places)
    decreases |xs|
  {
    places := [];
    if xs != [] {
      var n := |xs| - 1;
      var before := SortPlaces(xs[..n], key);
      var i := InsertPlace(Sort(xs[..n], key), xs[n], key);
      places := PlaceInserted(xs[..n], xs[n], Sort(xs[..n], key), Sort(xs, key), key, before, i);
      assert xs == xs[..n] + [xs[n]];
    }
  }

  lemma {:induction false} WithKeyNonempty<T>(xs: seq<T>, key: T -> Key, i: nat)
    requires i < |xs|
    ensures WithKey(xs, key, key(xs[i])) != []
    decreases |xs|
  {
    if i < |xs| - 1 {
      WithKeyNonempty(xs[..|xs| - 1], key, i);
    }
  }

  lemma {:induction false} WithKeyInside<T>(xs: seq<T>, key: T -> Key, k: Key) returns (i: nat)
    requires WithKey(xs, key, k) != []
    ensures i < |xs| && key(xs[i]) == k
    decreases |xs|
  {
    if key(xs[|xs| - 1]) == k {
      i := |xs| - 1;
    } else {
      i := WithKeyInside(xs[..|xs| - 1], key, k);
    }
  }

  lemma LastKeyBounds<T>(xs: seq<T>, ys: seq<T>, key: T -> Key)
    requires xs != [] && ys != [] && Sorted(ys, key)
    requires forall k :: WithKey(xs, key, k) == WithKey(ys, key, k)
    ensures Le(key(xs[|xs| - 1]), key(ys[|ys| - 1]))
  {
    WithKeyNonempty(xs, key, |xs| - 1);
    var i := WithKeyInside(ys, key, key(xs[|xs| - 1]));
  }

  /** There is only one: a stable sort is determined by its comparator. */
  lemma {:induction false} StableSortIsUnique<T>(xs: seq<T>, ys: seq<T>, key: T -> Key)
    requires Sorted(xs, key) && Sorted(ys, key)
    requires forall k :: WithKey(xs, key, k) == WithKey(ys, key, k)
    ensures xs == ys
    decreases |xs|
  {
    if xs == [] {
      if ys != [] {
        WithKeyNonempty(ys, key, 0);
      }
    } else if ys == [] {
      WithKeyNonempty(xs, key, 0);
    } else {
      var m, n := |xs| - 1, |ys| - 1;
      LastKeyBounds(xs, ys, key);
      LastKeyBounds(ys, xs, key);
      assert key(xs[m]) == key(ys[n]);
      var a, b := WithKey(xs, key, key(xs[m])), WithKey(ys, key, key(ys[n]));
      assert a[|a| - 1] == xs[m] && b[|b| - 1] == ys[n];
      forall k ensures WithKey(xs[..m], key, k) == WithKey(ys[..n], key, k) {
        var c, d := WithKey(xs[..m], key, k), WithKey(ys[..n], key, k);
        var tail := if k == key(xs[m]) then [xs[m]] else [];
        assert c + tail == WithKey(xs, key, k) == WithKey(ys, key, k) == d + tail;
        assert |c| == |d| && (c + tail)[..|c|] == c && (d + tail)[..|d|] == d;
      }
      StableSortIsUnique(xs[..m], ys[..n], key);
      assert xs == xs[..m] + [xs[m]] && ys == ys[..n] + [ys[n]];
    }
  }

  // ---- Leaving elements out --------------------------------------------------------------------

  function Filter<T>(xs: seq<T>, p: T -> bool): seq<T> {
    if xs == [] then []
    else Filter(xs[..|xs| - 1], p) + (if p(xs[|xs| - 1]) then [xs[|xs| - 1]] else [])
  }

  lemma {:induction false} FilterConcat<T>(xs: seq<T>, ys: seq<T>, p: T -> bool)
    ensures Filter(xs + ys, p) == Filter(xs, p) + Filter(ys, p)
    decreases |ys|
  {
    if ys == [] {
      assert xs + ys == xs;
    } else {
      FilterConcat(xs, ys[..|ys| - 1], p);
      assert (xs + ys)[..|xs + ys| - 1] == xs + ys[..|ys| - 1];
    }
  }

  lemma {:induction false} FilterInside<T>(xs: seq<T>, p: T -> bool, y: T)
    requires y in Filter(xs, p)
    ensures y in xs && p(y)
    decreases |xs|
  {
    var n := |xs| - 1;
    if y in Filter(xs[..n], p) {
      FilterInside(xs[..n], p, y);
    }
  }

  lemma {:induction false} FilterSorted<T>(xs: seq<T>, key: T -> Key, p: T -> bool)
    requires Sorted(xs, key)
    ensures Sorted(Filter(xs, p), key)
    decreases |xs|
  {
    if xs != [] {
      var n := |xs| - 1;
      FilterSorted(xs[..n], key, p);
      var front := Filter(xs[..n], p);
      forall i | 0 <= i < |front| ensures Le(key(front[i]), key(xs[n])) {
        FilterInside(xs[..n], p, front[i]);
      }
    }
  }

  lemma {:induction false} FilterWithKey<T>(xs: seq<T>, key: T -> Key, p: T -> bool, k: Key)
    ensures WithKey(Filter(xs, p), key, k) == Filter(WithKey(xs, key, k), p)
    decreases |xs|
  {
    if xs != [] {
      var n := |xs| - 1;
      var last := xs[n];
      FilterWithKey(xs[..n], key, p, k);
      FilterConcat(WithKey(xs[..n], key, k), if key(last) == k then [last] else [], p);
      assert [last][..0] == [];
      var front := Filter(xs[..n], p);
      if p(last) {
        assert (front + [last])[..|front|] == front;
      } else {
        assert front + [] == front;
      }
    }
  }

  /** Leaving elements out and sorting commute. */
  lemma FilterSort<T>(xs: seq<T>, key: T -> Key, p: T -> bool)
    ensures Filter(Sort(xs, key), p) == Sort(Filter(xs, p), key)
  {
    var a, b := Filter(Sort(xs, key), p), Sort(Filter(xs, p), key);
    SortIsStable(xs, key);
    SortIsStable(Filter(xs, p), key);
    FilterSorted(Sort(xs, key), key, p);
    forall k ensures WithKey(a, key, k) == WithKey(b, key, k) {
      FilterWithKey(Sort(xs, key), key, p, k);
      FilterWithKey(xs, key, p, k);
    }
    StableSortIsUnique(a, b, key);
  }
}
