/** The wind-down arithmetic of one vault: the writer-ask pot is merged into the pool as
    equivalent shares, then pool writers and backers are paid one after another, each from
    what is left of the collateral over what is left of the shares. */
module WindDown {
  import opened Arith
  import opened Prelude

  const SCALE: nat := 1_000_000_000_000

  /** tc, ts: the pool's collateral and shares; e: early-exercise payouts already made;
      ppsc: premium per share, cumulative, times SCALE; swept: the pot's collateral. */
  datatype Vault = Vault(tc: nat, ts: nat, e: nat, ppsc: nat, swept: nat)

  datatype WriterPosition = WriterPosition(shares: nat, premiumDebt: nat, premiumClaimed: nat)

  /** What is left to hand out: `crRun` and `tsRun` of the source. */
  datatype Till = Till(cr: int, ts: int)

  datatype Payout = Pool(collateral: int, premium: nat) | Residual(amount: int)

  datatype Ledger = Ledger(payouts: seq<Payout>, till: Till)

  datatype Failure = DivisionByZero

  // ---- The post-void merge ----------------------------------------------------

  function EquivTotal(v: Vault): nat {
    if v.swept == 0 then 0
    else if v.tc == 0 then v.swept
    else v.swept * v.ts / v.tc
  }

  function PostVoid(v: Vault): Till {
    Till(v.tc + v.swept - v.e, v.ts + EquivTotal(v))
  }

  function EquivShares(v: Vault, committed: nat): nat
    requires v.swept > 0
  {
    committed * EquivTotal(v) / v.swept
  }

  function Premium(v: Vault, w: WriterPosition): nat {
    var gross := w.shares * v.ppsc / SCALE;
    var afterDebt := if gross > w.premiumDebt then gross - w.premiumDebt else 0;
    if afterDebt > w.premiumClaimed then afterDebt - w.premiumClaimed else 0
  }

  // ---- Paying one after another --------------------------------------------------

  /** What a payee with `s` shares draws from the till. */
  function Draw(t: Till, s: nat): int {
    if t.ts == 0 then 0 else TruncDiv(s * t.cr, t.ts)
  }

  function PayOne(t: Till, s: nat): Till {
    Till(t.cr - Draw(t, s), t.ts - s)
  }

  /** The till after the payees holding `shares` were paid in that order. */
  function After(t: Till, shares: seq<nat>): Till {
    if shares == [] then t
    else PayOne(After(t, shares[..|shares| - 1]), shares[|shares| - 1])
  }

  /** What payee `k` of that order receives. */
  function Paid(t: Till, shares: seq<nat>, k: nat): int
    requires k < |shares|
  {
    Draw(After(t, shares[..k]), shares[k])
  }

  function TotalPaid(t: Till, shares: seq<nat>): int {
    if shares == [] then 0
    else TotalPaid(t, shares[..|shares| - 1]) + Paid(t, shares, |shares| - 1)
  }

  // ---- The book of one vault -------------------------------------------------------

  /** Positions that still hold shares. */
  function Held(writers: seq<WriterPosition>): seq<WriterPosition> {
    if writers == [] then []
    else
      var last := writers[|writers| - 1];
      Held(writers[..|writers| - 1]) + (if last.shares > 0 then [last] else [])
  }

  function PoolShares(writers: seq<WriterPosition>): seq<nat> {
    seq(|writers|, i requires 0 <= i < |writers| => writers[i].shares)
  }

  /** The equivalent shares of the backers that are not skipped. */
  function BackerShares(v: Vault, committed: seq<nat>): seq<nat> {
    if committed == [] || v.swept == 0 then []
    else
      var last := committed[|committed| - 1];
      BackerShares(v, committed[..|committed| - 1])
      + (if last == 0 then [] else [EquivShares(v, last)])
  }

  /** Everybody's shares, in the order they are paid. */
  function Book(v: Vault, writers: seq<WriterPosition>, committed: seq<nat>): seq<nat> {
    PoolShares(Held(writers)) + BackerShares(v, committed)
  }

  /** The writers on the book are those that hold shares, in the order they were read. */
  lemma {:induction false} HeldPlaces(writers: seq<WriterPosition>) returns (places: seq<nat>)
    ensures Selects(writers, Held(writers), places)
    ensures forall i :: 0 <= i < |writers| ==> (i in places <==> writers[i].shares > 0)
    decreases |writers|
  {
    places := [];
    if writers != [] {
      var n := |writers| - 1;
      var before := HeldPlaces(writers[..n]);
      assert writers == writers[..n] + [writers[n]];
      places := SelectsMore(writers[..n], writers[n], Held(writers[..n]), before, writers[n].shares > 0);
    }
  }

  /** The backers on the book are those that committed something, in the order they were read, each with
      its floored part of the equivalent shares. */
  lemma {:induction false} BackerPlaces(v: Vault, committed: seq<nat>) returns (places: seq<nat>)
    requires v.swept > 0
    ensures Ascending(places) && |places| == |BackerShares(v, committed)|
    ensures forall k :: 0 <= k < |places| ==>
      && places[k] < |committed|
      && BackerShares(v, committed)[k] == committed[places[k]] * (PostVoid(v).ts - v.ts) / v.swept
    ensures forall i :: 0 <= i < |committed| ==> (i in places <==> committed[i] > 0)
    decreases |committed|
  {
    places := [];
    if committed != [] {
      var n := |committed| - 1;
      places := BackerPlaces(v, committed[..n]);
      if committed[n] > 0 {
        AscendingSnoc(places, n);
        places := places + [n];
      }
    }
  }

  /** The book is covered by the vault's own counters. */
  predicate Solvent(v: Vault, writers: seq<WriterPosition>, committed: seq<nat>) {
    && Sum(PoolShares(Held(writers))) <= v.ts
    && Sum(committed) <= v.swept
    && v.e <= v.tc + v.swept
  }

  /** Payee `j` of an order holds shares but meets a till that counts none. */
  predicate MeetsEmptyTill(t0: Till, book: seq<nat>, j: nat) {
    j < |book| && book[j] > 0 && After(t0, book[..j]).ts == 0
  }

  /** Backer `j` of the paid order would divide by an empty till. */
  predicate Divides0(v: Vault, writers: seq<WriterPosition>, committed: seq<nat>, j: nat) {
    |Held(writers)| <= j && MeetsEmptyTill(PostVoid(v), Book(v, writers, committed), j)
  }

  /** The entry pushed for payee `k` of the book: a pool writer's, then a backer's. */
  function PayoutAt(v: Vault, held: seq<WriterPosition>, book: seq<nat>, k: nat): Payout
    requires k < |book|
  {
    if k < |held| then Pool(Paid(PostVoid(v), book, k), Premium(v, held[k]))
    else Residual(Paid(PostVoid(v), book, k))
  }

  /** The entries pushed so far are those of the book, and the till is where they leave it. */
  ghost predicate InStep(v: Vault, held: seq<WriterPosition>, book: seq<nat>, payouts: seq<Payout>, run: Till) {
    && |payouts| <= |book|
    && run == After(PostVoid(v), book[..|payouts|])
    && forall k :: 0 <= k < |payouts| ==> payouts[k] == PayoutAt(v, held, book, k)
  }

  lemma StaysInStep(v: Vault, held: seq<WriterPosition>, book: seq<nat>, payouts: seq<Payout>, run: Till)
    requires InStep(v, held, book, payouts, run) && |payouts| < |book|
    ensures InStep(v, held, book, payouts + [PayoutAt(v, held, book, |payouts|)], PayOne(run, book[|payouts|]))
    ensures Paid(PostVoid(v), book, |payouts|) == Draw(run, book[|payouts|])
  {
    AfterStep(PostVoid(v), book, |payouts|);
  }

  /** The post-void merge and the two payment loops. A BigInt division by zero throws. */
  method PayBook(v: Vault, writers: seq<WriterPosition>, committed: seq<nat>)
    returns (r: Result<Ledger, Failure>, ghost places: seq<nat>)
    ensures r.Err? <==> exists j :: Divides0(v, writers, committed, j)
    ensures Solvent(v, writers, committed) ==> r.Ok?
    ensures r.Ok? ==>
      var book := Book(v, writers, committed);
      && |r.value.payouts| == |book|
      && r.value.till == After(PostVoid(v), book)
      && forall k :: 0 <= k < |book| ==> r.value.payouts[k] == PayoutAt(v, Held(writers), book, k)
    // Writer by writer: those that hold shares, in the order they were read, each with its own premium.
    ensures r.Ok? ==> OnePayoutEach(v, writers, Book(v, writers, committed), places, r.value.payouts)
  {
    places := HeldPlaces(writers);
    ghost var book := Book(v, writers, committed);
    var wps := Held(writers);
    var payouts, mid := PayWriters(v, wps, book);
    var blocked, all, end := PayBackers(v, wps, committed, mid, payouts, book);
    if Solvent(v, writers, committed) {
      SolventNeverDivides0(v, writers, committed);
    }
    if blocked {
      assert Divides0(v, writers, committed, |all|);
      return Err(DivisionByZero), places;
    }
    assert book[..|book|] == book;
    PayoutsInOrder(v, writers, Held(writers), book, places, all);
    r := Ok(Ledger(all, end));
  }

  /** The writers at these places hold shares, and nobody else does; one after the other they are paid
      their draw and what their premium comes to after debt and earlier claims. */
  ghost predicate OnePayoutEach(v: Vault, writers: seq<WriterPosition>, book: seq<nat>, places: seq<nat>, payouts: seq<Payout>) {
    && Ascending(places) && |places| <= |book| == |payouts|
    && (forall i :: 0 <= i < |writers| ==> (i in places <==> writers[i].shares > 0))
    && forall k :: 0 <= k < |places| ==>
      && places[k] < |writers|
      && var w := writers[places[k]];
      && book[k] == w.shares
      && payouts[k] == Pool(Paid(PostVoid(v), book, k), Max(0, w.shares * v.ppsc / SCALE - w.premiumDebt - w.premiumClaimed))
  }

  lemma PayoutsInOrder(v: Vault, writers: seq<WriterPosition>, held: seq<WriterPosition>, book: seq<nat>, places: seq<nat>,
                       payouts: seq<Payout>)
    requires Selects(writers, held, places) && |payouts| == |book| && PoolShares(held) <= book
    requires forall i :: 0 <= i < |writers| ==> (i in places <==> writers[i].shares > 0)
    requires forall k :: 0 <= k < |book| ==> payouts[k] == PayoutAt(v, held, book, k)
    ensures OnePayoutEach(v, writers, book, places, payouts)
  {
    forall k | 0 <= k < |places|
      ensures book[k] == writers[places[k]].shares
      ensures payouts[k] == Pool(Paid(PostVoid(v), book, k), Premium(v, writers[places[k]]))
    {
      assert PoolShares(held)[k] == book[k];
    }
  }

  method PayWriters(v: Vault, wps: seq<WriterPosition>, ghost book: seq<nat>)
    returns (payouts: seq<Payout>, end: Till)
    requires PoolShares(wps) <= book
    ensures |payouts| == |wps| && InStep(v, wps, book, payouts, end)
  {
    var run := PostVoid(v);
    payouts := [];
    for i := 0 to |wps|
      invariant |payouts| == i && InStep(v, wps, book, payouts, run)
    {
      StaysInStep(v, wps, book, payouts, run);
      var coll := Draw(run, wps[i].shares);
      run := Till(run.cr - coll, run.ts - wps[i].shares);
      payouts := payouts + [Pool(coll, Premium(v, wps[i]))];
    }
    end := run;
  }

  method PayBackers(v: Vault, wps: seq<WriterPosition>, committed: seq<nat>, mid: Till, pooled: seq<Payout>,
                    ghost book: seq<nat>)
    returns (blocked: bool, payouts: seq<Payout>, end: Till)
    requires book == PoolShares(wps) + BackerShares(v, committed)
    requires |pooled| == |wps| && InStep(v, wps, book, pooled, mid)
    ensures |wps| <= |payouts| && InStep(v, wps, book, payouts, end)
    ensures forall k :: |wps| <= k < |payouts| ==> !MeetsEmptyTill(PostVoid(v), book, k)
    ensures if blocked then MeetsEmptyTill(PostVoid(v), book, |payouts|) else |payouts| == |book|
  {
    var run := mid;
    payouts := pooled;
    var j := 0;
    assert BackerShares(v, committed[..0]) == [];
    while j < |committed|
      invariant 0 <= j <= |committed| && |payouts| == |wps| + |BackerShares(v, committed[..j])|
      invariant InStep(v, wps, book, payouts, run)
      invariant forall k :: |wps| <= k < |payouts| ==> !MeetsEmptyTill(PostVoid(v), book, k)
    {
      BackerPlace(v, committed, j);
      if Skipped(v, committed[j]) {
        j := j + 1;
        continue;
      }
      var equivShares := EquivShares(v, committed[j]);
      assert book[|payouts|] == equivShares;
      if equivShares != 0 && run.ts == 0 {
        assert MeetsEmptyTill(PostVoid(v), book, |payouts|);
        return true, payouts, run;
      }
      assert !MeetsEmptyTill(PostVoid(v), book, |payouts|);
      StaysInStep(v, wps, book, payouts, run);
      var payout := Draw(run, equivShares);
      run := Till(run.cr - payout, run.ts - equivShares);
      payouts := payouts + [Residual(payout)];
      j := j + 1;
    }
    assert committed[..|committed|] == committed;
    return false, payouts, run;
  }

  lemma AfterStep(t0: Till, shares: seq<nat>, n: nat)
    requires n < |shares|
    ensures After(t0, shares[..n + 1]) == PayOne(After(t0, shares[..n]), shares[n])
  {
    assert shares[..n + 1][..n] == shares[..n];
  }

  lemma {:induction false} BackerSharesPrefix(v: Vault, committed: seq<nat>, j: nat)
    requires j <= |committed|
    ensures BackerShares(v, committed[..j]) <= BackerShares(v, committed)
    decreases |committed|
  {
    if j == |committed| {
      assert committed[..j] == committed;
    } else {
      var init := committed[..|committed| - 1];
      BackerSharesPrefix(v, init, j);
      assert init[..j] == committed[..j];
    }
  }

  predicate Skipped(v: Vault, c: nat) {
    v.swept == 0 || c == 0
  }

  /** Backer `j`'s place in the paid order. */
  lemma BackerPlace(v: Vault, committed: seq<nat>, j: nat)
    requires j < |committed|
    ensures |BackerShares(v, committed[..j])| <= |BackerShares(v, committed)|
    ensures Skipped(v, committed[j]) ==>
      |BackerShares(v, committed[..j + 1])| == |BackerShares(v, committed[..j])|
    ensures !Skipped(v, committed[j]) ==>
      var n := |BackerShares(v, committed[..j])|;
      && |BackerShares(v, committed[..j + 1])| == n + 1 <= |BackerShares(v, committed)|
      && BackerShares(v, committed)[n] == EquivShares(v, committed[j])
  {
    BackerSharesPrefix(v, committed, j);
    BackerSharesPrefix(v, committed, j + 1);
    assert committed[..j + 1][..j] == committed[..j];
  }

  // ---- Bounds on one draw ------------------------------------------------------------

  /** A till that can pay: nothing negative. */
  predicate Sound(t: Till) {
    t.cr >= 0 && t.ts >= 0
  }

  lemma DrawIsFloor(t: Till, s: nat)
    requires Sound(t) && t.ts > 0
    ensures s * t.cr >= 0 && Draw(t, s) == s * t.cr / t.ts >= 0
    ensures Draw(t, s) * t.ts <= s * t.cr < Draw(t, s) * t.ts + t.ts
  {
    Nonneg(s, t.cr);
    TruncDivIsFloor(s * t.cr, t.ts);
    FloorBounds(s * t.cr, t.ts);
  }

  lemma TruncDivIsFloor(a: nat, b: nat)
    requires b > 0
    ensures TruncDiv(a, b) == a / b >= 0
  {
    FloorBounds(a, b);
    MulLtCancel(-1, a / b, b);
  }

  /** A draw never exceeds the till, whoever holds no shares draws nothing, and the holder of all the
      shares left takes all of it. */
  lemma DrawBounds(t: Till, s: nat)
    requires Sound(t) && s <= t.ts
    ensures 0 <= Draw(t, s) <= t.cr && (s == 0 ==> Draw(t, s) == 0)
    ensures s == t.ts > 0 ==> Draw(t, s) == t.cr
    ensures Sound(PayOne(t, s))
  {
    if t.ts > 0 {
      DrawIsFloor(t, s);
      MulLe(s, t.ts, t.cr);
      MulLeCancel(Draw(t, s), t.cr, t.ts);
      if s == t.ts {
        FloorGreatest(t.cr, s * t.cr, t.ts);
      }
    }
  }

  // ---- Drift: how far the running ratio moves from the first one ------------------------

  /** crRun*ts0 - cr0*tsRun: the running ratio's excess over the first ratio, cross-multiplied. */
  function Drift(t0: Till, t: Till): int {
    t.cr * t0.ts - t0.cr * t.ts
  }

  lemma DriftGrows(t0: Till, t: Till, s: nat)
    requires Sound(t0) && Sound(t) && s <= t.ts
    requires Drift(t0, t) >= 0
    ensures 0 <= Drift(t0, PayOne(t, s)) <= Drift(t0, t) + t0.ts
  {
    if t.ts > 0 {
      DrawIsFloor(t, s);
      DriftStep(t0.cr, t0.ts, t.cr, t.ts, s, Draw(t, s));
    }
  }

  // ---- Whole runs ------------------------------------------------------------------------

  /** After k payouts the drift lies in [0, k*ts0], the till is sound, and nothing is lost. */
  lemma {:induction false} RunBounds(t0: Till, shares: seq<nat>)
    requires Sound(t0) && Sum(shares) <= t0.ts
    ensures Sound(After(t0, shares))
    ensures After(t0, shares).ts == t0.ts - Sum(shares)
    ensures TotalPaid(t0, shares) + After(t0, shares).cr == t0.cr
    ensures 0 <= Drift(t0, After(t0, shares)) <= |shares| * t0.ts
    decreases |shares|
  {
    if shares != [] {
      var init, s := shares[..|shares| - 1], shares[|shares| - 1];
      RunBounds(t0, init);
      var t := After(t0, init);
      DrawBounds(t, s);
      DriftGrows(t0, t, s);
      Succ(|init|, t0.ts);
    }
  }

  lemma Succ(k: nat, ts: int)
    ensures (k + 1) * ts == k * ts + ts
  {
  }

  /** Payee k, with k earlier payees, gets at least its floored fair share of the first till
      and at most k units more. */
  lemma PayeeBounds(t0: Till, shares: seq<nat>, k: nat)
    requires Sound(t0) && Sum(shares) <= t0.ts && t0.ts > 0 && k < |shares|
    ensures shares[k] * t0.cr / t0.ts <= Paid(t0, shares, k) <= shares[k] * t0.cr / t0.ts + k
  {
    SumPrefix(shares, k);
    RunBounds(t0, shares[..k]);
    DrawNearFair(t0, After(t0, shares[..k]), shares[k], k);
  }

  lemma DrawNearFair(t0: Till, t: Till, s: nat, k: nat)
    requires Sound(t0) && Sound(t) && t0.ts > 0 && s <= t.ts
    requires 0 <= Drift(t0, t) <= k * t0.ts
    ensures s * t0.cr / t0.ts <= Draw(t, s) <= s * t0.cr / t0.ts + k
  {
    Nonneg(s, t0.cr);
    if t.ts > 0 {
      DrawIsFloor(t, s);
      DrawAtLeastFair(t0, t, s, s * t0.cr / t0.ts);
      DrawLimited(t0.cr, t0.ts, t.cr, t.ts, s, Draw(t, s), k);
      FloorGreatest(Draw(t, s) - k, s * t0.cr, t0.ts);
    } else {
      QuotientUnique(0, t0.ts, 0);
    }
  }

  lemma DrawAtLeastFair(t0: Till, t: Till, s: nat, q: nat)
    requires Sound(t0) && Sound(t) && t0.ts > 0 && t.ts > 0
    requires 0 <= Drift(t0, t)
    requires s * t0.cr >= 0 && q == s * t0.cr / t0.ts
    ensures q <= Draw(t, s)
  {
    FloorBounds(s * t0.cr, t0.ts);
    DrawIsFloor(t, s);
    FairShareCovered(t0.cr, t0.ts, t.cr, t.ts, s, q);
    FloorGreatest(q, s * t.cr, t.ts);
  }

  /** Two payment orders of the same book: a payee's two amounts differ by less than the number
      of payees. */
  lemma OrderIndependence(t0: Till, a: seq<nat>, b: seq<nat>, i: nat, j: nat)
    requires Sound(t0) && Sum(a) <= t0.ts && multiset(a) == multiset(b)
    requires i < |a| && j < |b| && a[i] == b[j]
    ensures -|a| < Paid(t0, a, i) - Paid(t0, b, j) < |a|
  {
    SameSum(a, b);
    assert |multiset(a)| == |a| && |multiset(b)| == |b|;
    PlaceIndependence(t0, a, b, i, j);
  }

  /** Only the number of earlier payees matters, not who they are. */
  lemma PlaceIndependence(t0: Till, a: seq<nat>, b: seq<nat>, i: nat, j: nat)
    requires Sound(t0) && Sum(a) <= t0.ts && Sum(b) <= t0.ts
    requires i < |a| && j < |b| && a[i] == b[j]
    ensures Paid(t0, a, i) <= Paid(t0, b, j) + i && Paid(t0, b, j) <= Paid(t0, a, i) + j
  {
    if t0.ts == 0 {
      SumPrefix(a, i);
      SumPrefix(b, j);
      RunBounds(t0, a[..i]);
      RunBounds(t0, b[..j]);
    } else {
      PayeeBounds(t0, a, i);
      PayeeBounds(t0, b, j);
    }
  }

  lemma MultisetRemove(s: seq<nat>, k: nat)
    requires k < |s|
    ensures multiset(s[..k] + s[k + 1..]) == multiset(s) - multiset{s[k]}
  {
    assert s == s[..k] + [s[k]] + s[k + 1..];
  }

  lemma {:induction false} SameSum(a: seq<nat>, b: seq<nat>)
    requires multiset(a) == multiset(b)
    ensures Sum(a) == Sum(b)
    decreases |a|
  {
    if a == [] {
      assert |multiset(b)| == 0;
    } else {
      assert a[0] in multiset(b);
      var j :| 0 <= j < |b| && b[j] == a[0];
      var a', b' := a[..0] + a[1..], b[..j] + b[j + 1..];
      MultisetRemove(a, 0);
      MultisetRemove(b, j);
      SameSum(a', b');
      AddedBack(a, a', 0);
      AddedBack(b, b', j);
    }
  }

  lemma AddedBack(s: seq<nat>, rest: seq<nat>, k: nat)
    requires k < |s| && rest == s[..k] + s[k + 1..]
    ensures Sum(s) == Sum(rest) + s[k]
  {
    SumRemove(s, k);
  }

  // ---- Conservation of one vault's book ------------------------------------------------------

  /** The floored equivalent shares of the backers fit the equivalent total. */
  lemma BackerSharesFit(v: Vault, committed: seq<nat>)
    requires v.swept > 0 && Sum(committed) <= v.swept
    ensures Sum(BackerShares(v, committed)) <= EquivTotal(v)
  {
    BackerSharesProRata(v, committed);
    MulLe(Sum(committed), v.swept, EquivTotal(v));
    MulLeCancel(Sum(BackerShares(v, committed)), EquivTotal(v), v.swept);
  }

  lemma {:induction false} BackerSharesProRata(v: Vault, committed: seq<nat>)
    requires v.swept > 0
    ensures Sum(BackerShares(v, committed)) * v.swept <= Sum(committed) * EquivTotal(v)
    decreases |committed|
  {
    if committed != [] {
      var init, c := committed[..|committed| - 1], committed[|committed| - 1];
      BackerSharesProRata(v, init);
      ProRataStep(Sum(BackerShares(v, init)), Sum(init), c, EquivTotal(v), v.swept);
      if c == 0 {
        assert BackerShares(v, committed) == BackerShares(v, init);
      } else {
        assert BackerShares(v, committed)[..|BackerShares(v, committed)| - 1] == BackerShares(v, init);
      }
    }
  }

  lemma ProRataStep(equiv: nat, committed: nat, c: nat, total: nat, swept: nat)
    requires swept > 0 && equiv * swept <= committed * total
    ensures (equiv + c * total / swept) * swept <= (committed + c) * total
  {
    FloorBounds(c * total, swept);
    assert (equiv + c * total / swept) * swept == equiv * swept + c * total / swept * swept;
    assert (committed + c) * total == committed * total + c * total;
  }

  lemma BookFits(v: Vault, writers: seq<WriterPosition>, committed: seq<nat>)
    requires Solvent(v, writers, committed)
    ensures Sound(PostVoid(v)) && Sum(Book(v, writers, committed)) <= PostVoid(v).ts
  {
    SumConcat(PoolShares(Held(writers)), BackerShares(v, committed));
    if v.swept > 0 {
      BackerSharesFit(v, committed);
    }
  }

  lemma SolventNeverDivides0(v: Vault, writers: seq<WriterPosition>, committed: seq<nat>)
    requires Solvent(v, writers, committed)
    ensures !exists j :: Divides0(v, writers, committed, j)
  {
    BookFits(v, writers, committed);
    var book := Book(v, writers, committed);
    forall j: nat | j < |book| ensures !Divides0(v, writers, committed, j) {
      SumPrefix(book, j);
      RunBounds(PostVoid(v), book[..j]);
    }
  }

  /** Over a solvent book: every till on the way is sound, no payout exceeds it, the collateral
      payouts and the dust left add up to what the merge put in, and a payee that holds all the
      shares left takes all the collateral left. */
  lemma Conservation(v: Vault, writers: seq<WriterPosition>, committed: seq<nat>, k: nat)
    requires Solvent(v, writers, committed) && k < |Book(v, writers, committed)|
    ensures var t0, book := PostVoid(v), Book(v, writers, committed);
      var before := After(t0, book[..k]);
      && Sound(before) && Sound(After(t0, book))
      && book[k] <= before.ts
      && 0 <= Paid(t0, book, k) <= before.cr
      && TotalPaid(t0, book) + After(t0, book).cr == v.tc + v.swept - v.e
      && (book[k] == before.ts > 0 ==> After(t0, book[..k + 1]) == Till(0, 0))
  {
    var t0, book := PostVoid(v), Book(v, writers, committed);
    BookFits(v, writers, committed);
    RunBounds(t0, book);
    SumPrefix(book, k);
    RunBounds(t0, book[..k]);
    DrawBounds(After(t0, book[..k]), book[k]);
    assert book[..k + 1][..k] == book[..k];
  }

  // ---- Fairness of the merge ---------------------------------------------------------------------

  /** The merge neither dilutes a pool share nor credits the pot with more than it brought. */
  lemma MergeFairness(v: Vault)
    ensures (v.tc + v.swept - v.e) * v.ts >= (v.tc - v.e) * PostVoid(v).ts
    ensures EquivTotal(v) * (v.tc + v.swept - v.e) <= v.swept * PostVoid(v).ts
  {
    var q := EquivTotal(v);
    Nonneg(v.swept, v.ts);
    Nonneg(q, v.e);
    if v.swept != 0 && v.tc != 0 {
      FloorBounds(v.swept * v.ts, v.tc);
    }
    assert q * v.tc <= v.swept * v.ts;
    assert (v.tc + v.swept - v.e) * v.ts == (v.tc - v.e) * v.ts + v.swept * v.ts;
    assert (v.tc - v.e) * (v.ts + q) == (v.tc - v.e) * v.ts + q * v.tc - q * v.e;
    assert q * (v.tc + v.swept - v.e) == q * v.tc + q * v.swept - q * v.e;
    assert v.swept * (v.ts + q) == v.swept * v.ts + q * v.swept;
  }

  /** Carried through the pool loop: a pool writer never gets less than its floored share of the
      pool as it was before the pot came in. */
  lemma PoolWriterNeverDiluted(v: Vault, writers: seq<WriterPosition>, committed: seq<nat>, k: nat)
    requires Solvent(v, writers, committed) && k < |Held(writers)|
    ensures v.ts > 0
    ensures Paid(PostVoid(v), Book(v, writers, committed), k)
         >= Held(writers)[k].shares * (v.tc - v.e) / v.ts
  {
    var t0, book, pool := PostVoid(v), Book(v, writers, committed), PoolShares(Held(writers));
    BookFits(v, writers, committed);
    HeldHold(writers, k);
    SumPrefix(pool, k);
    PayeeBounds(t0, book, k);
    MergeFairness(v);
    if v.e <= v.tc {
      FairShareKept(book[k], v.tc - v.e, v.ts, t0.cr, t0.ts);
    } else {
      Nonneg(book[k], t0.cr);
      FairShareNegative(book[k], v.tc - v.e, v.ts);
      FloorGreatest(0, book[k] * t0.cr, t0.ts);
    }
  }

  lemma {:induction false} HeldHold(writers: seq<WriterPosition>, k: nat)
    requires k < |Held(writers)|
    ensures Held(writers)[k].shares > 0
    decreases |writers|
  {
    var front := writers[..|writers| - 1];
    if k < |Held(front)| {
      HeldHold(front, k);
    }
  }

  /** A pool that owes more than it holds promises nobody anything. */
  lemma FairShareNegative(s: nat, own: int, ts: nat)
    requires own < 0 < ts
    ensures s * own / ts <= 0
  {
    Nonneg(s, -own);
    assert s * own <= 0;
    assert s * own == s * own / ts * ts + s * own % ts;
    MulLeCancel(s * own / ts, 0, ts);
  }

  /** A floored share of a richer ratio is no smaller. */
  lemma FairShareKept(s: nat, own: nat, ts: nat, cr0: nat, ts0: nat)
    requires 0 < ts && 0 < ts0 && own * ts0 <= cr0 * ts
    ensures s * own / ts <= s * cr0 / ts0
  {
    Nonneg(s, own);
    FloorBounds(s * own, ts);
    FairShareCovered(own, ts, cr0, ts0, s, s * own / ts);
    FloorGreatest(s * own / ts, s * cr0, ts0);
  }

  /** Carried through both loops: the backers together never draw more than the pot brought,
      plus one unit of rounding for each pool writer paid before them. */
  lemma PotNeverOvercredited(v: Vault, writers: seq<WriterPosition>, committed: seq<nat>)
    requires Solvent(v, writers, committed)
    ensures var t0, book, pool := PostVoid(v), Book(v, writers, committed), PoolShares(Held(writers));
      TotalPaid(t0, book) - TotalPaid(t0, pool) <= v.swept + |pool|
  {
    var t0, book, pool := PostVoid(v), Book(v, writers, committed), PoolShares(Held(writers));
    BookFits(v, writers, committed);
    if t0.ts == 0 {
      PotWithoutShares(v, writers, committed);
    } else {
      assert book == pool + BackerShares(v, committed);
      ResidualDrawn(t0, pool, BackerShares(v, committed));
      MergeFairness(v);
      if v.swept > 0 {
        BackerSharesFit(v, committed);
      }
      ResidualLimited(t0, After(t0, pool), After(t0, book), EquivTotal(v), v.swept, |pool|);
    }
  }

  /** What the second part of a book draws, and how far the ratio has moved around it. */
  lemma ResidualDrawn(t0: Till, pool: seq<nat>, backers: seq<nat>)
    requires Sound(t0) && Sum(pool + backers) <= t0.ts
    ensures TotalPaid(t0, pool + backers) - TotalPaid(t0, pool) == After(t0, pool).cr - After(t0, pool + backers).cr
    ensures After(t0, pool).ts - After(t0, pool + backers).ts == Sum(backers)
    ensures Drift(t0, After(t0, pool)) <= |pool| * t0.ts && 0 <= Drift(t0, After(t0, pool + backers))
  {
    SumConcat(pool, backers);
    RunBounds(t0, pool);
    RunBounds(t0, pool + backers);
  }

  /** Between two tills of one run, what is drawn for `equiv` shares stays near what they are worth. */
  lemma ResidualLimited(t0: Till, mid: Till, end: Till, equiv: nat, swept: nat, k: nat)
    requires Sound(t0) && t0.ts > 0 && mid.ts - end.ts <= equiv
    requires Drift(t0, mid) <= k * t0.ts && 0 <= Drift(t0, end)
    requires equiv * t0.cr <= swept * t0.ts
    ensures mid.cr - end.cr <= swept + k
  {
    var drawn, equivDrawn := mid.cr - end.cr, t0.cr * (mid.ts - end.ts);
    DrawnAlgebra(t0.cr, t0.ts, mid.cr, mid.ts, end.cr, end.ts);
    MulLe(mid.ts - end.ts, equiv, t0.cr);
    DrawnLimited(drawn, t0.ts, Drift(t0, mid), Drift(t0, end), equivDrawn, swept, k);
  }

  /** With no shares at all there is nobody to draw: the backers' equivalent shares are all zero. */
  lemma PotWithoutShares(v: Vault, writers: seq<WriterPosition>, committed: seq<nat>)
    requires Solvent(v, writers, committed) && PostVoid(v).ts == 0
    ensures var t0, book, pool := PostVoid(v), Book(v, writers, committed), PoolShares(Held(writers));
      TotalPaid(t0, book) - TotalPaid(t0, pool) == 0
  {
    BookFits(v, writers, committed);
    EmptyTillPaysNothing(PostVoid(v), Book(v, writers, committed));
    SumConcat(PoolShares(Held(writers)), BackerShares(v, committed));
    EmptyTillPaysNothing(PostVoid(v), PoolShares(Held(writers)));
  }

  lemma {:induction false} EmptyTillPaysNothing(t0: Till, shares: seq<nat>)
    requires t0.ts == 0 && Sum(shares) == 0
    ensures TotalPaid(t0, shares) == 0 && After(t0, shares) == t0
    decreases |shares|
  {
    if shares != [] {
      EmptyTillPaysNothing(t0, shares[..|shares| - 1]);
    }
  }

  /** What the pot is worth after the merge, exactly: only the remainder of one division is lost, or,
      if the pool holds no collateral, what its shares then dilute the pot by. */
  lemma MergeWorth(v: Vault)
    ensures v.swept * PostVoid(v).ts
         == EquivTotal(v) * (v.tc + v.swept) + (if v.tc == 0 then v.swept * v.ts else v.swept * v.ts % v.tc)
  {
    if v.tc == 0 {
      assert v.swept * (v.ts + v.swept) == v.swept * v.ts + v.swept * v.swept;
    } else {
      MergeRemainder(v);
      WorthAlgebra(v.swept, v.ts, v.tc, EquivTotal(v), v.swept * v.ts % v.tc);
    }
  }

  lemma MergeRemainder(v: Vault)
    requires v.tc > 0
    ensures v.swept * v.ts == EquivTotal(v) * v.tc + v.swept * v.ts % v.tc
  {
    Nonneg(v.swept, v.ts);
    if v.swept == 0 {
      assert v.swept * v.ts == 0;
    }
  }

  /** The merge is the most generous fair one: the pot gets as many shares as leave every pool share
      worth what it was, and one more would dilute the pool. */
  lemma MergeIsMostGenerous(v: Vault, q: nat)
    requires v.tc > 0
    ensures (v.tc + v.swept) * v.ts >= v.tc * (v.ts + q) <==> q <= PostVoid(v).ts - v.ts
  {
    var best := PostVoid(v).ts - v.ts;
    Nonneg(v.swept, v.ts);
    if v.swept == 0 {
      assert v.swept * v.ts == 0;
    }
    assert v.swept * v.ts == best * v.tc + v.swept * v.ts % v.tc;
    assert (v.tc + v.swept) * v.ts - v.tc * (v.ts + q) == v.swept * v.ts - q * v.tc;
    LargestMultiple(v.swept * v.ts, v.tc, best, q);
  }

  /** Carried through both loops from below: if the commitments add up to the pot, the backers together
      draw at least what they brought, less one unit and one share's worth for each of them, the
      remainder of the merge, and the pot's part of what was paid out before. */
  lemma PotNeverUndercredited(v: Vault, writers: seq<WriterPosition>, committed: seq<nat>)
    requires Solvent(v, writers, committed) && Sum(committed) == v.swept && v.tc > 0
    ensures var t0, book, pool := PostVoid(v), Book(v, writers, committed), PoolShares(Held(writers));
      var n := |book| - |pool|;
      var drawn := TotalPaid(t0, book) - TotalPaid(t0, pool) + n;
      v.swept * t0.ts < drawn * t0.ts + n * t0.cr + EquivTotal(v) * v.e + v.tc
  {
    var t0, pool, backers := PostVoid(v), PoolShares(Held(writers)), BackerShares(v, committed);
    BookFits(v, writers, committed);
    var drawn, equiv := BackersDrawFloors(t0, pool, backers);
    BackerSharesLose(v, committed);
    MergeWorth(v);
    UndercreditAlgebra(drawn, |backers|, equiv, EquivTotal(v), t0.cr, t0.ts, v.tc + v.swept, v.e, v.tc,
                       v.swept * t0.ts, v.swept * v.ts % v.tc);
  }

  /** Each floored equivalent share loses less than one share. */
  lemma BackerSharesLose(v: Vault, committed: seq<nat>)
    requires Sum(committed) == v.swept
    ensures Sum(BackerShares(v, committed)) + |BackerShares(v, committed)| >= EquivTotal(v)
  {
    if v.swept > 0 {
      BackerSharesAtLeast(v, committed);
      var s := Sum(BackerShares(v, committed)) + |BackerShares(v, committed)|;
      assert v.swept * EquivTotal(v) == EquivTotal(v) * v.swept;
      MulLeCancel(EquivTotal(v), s, v.swept);
    }
  }

  lemma {:induction false} BackerSharesAtLeast(v: Vault, committed: seq<nat>)
    requires v.swept > 0
    ensures (Sum(BackerShares(v, committed)) + |BackerShares(v, committed)|) * v.swept >= Sum(committed) * EquivTotal(v)
    decreases |committed|
  {
    if committed != [] {
      var init, c := committed[..|committed| - 1], committed[|committed| - 1];
      BackerSharesAtLeast(v, init);
      var before := BackerShares(v, init);
      if c == 0 {
        assert BackerShares(v, committed) == before;
      } else {
        assert BackerShares(v, committed)[..|before|] == before;
        LossStep(Sum(before) + |before|, Sum(init), c, EquivTotal(v), v.swept);
      }
    }
  }

  lemma LossStep(equiv: nat, committed: nat, c: nat, total: nat, swept: nat)
    requires swept > 0 && equiv * swept >= committed * total
    ensures (equiv + (c * total / swept + 1)) * swept >= (committed + c) * total
  {
    FloorBounds(c * total, swept);
    assert (equiv + (c * total / swept + 1)) * swept == equiv * swept + c * total / swept * swept + swept;
    assert (committed + c) * total == committed * total + c * total;
  }

  /** Every payee of the second part draws at least its floored share of the first till. */
  lemma {:induction false} BackersDrawFloors(t0: Till, pool: seq<nat>, backers: seq<nat>) returns (drawn: int, equiv: nat)
    requires Sound(t0) && Sum(pool + backers) <= t0.ts
    ensures drawn == TotalPaid(t0, pool + backers) - TotalPaid(t0, pool) + |backers| && equiv == Sum(backers)
    ensures drawn * t0.ts >= equiv * t0.cr
    decreases |backers|
  {
    if backers == [] {
      assert pool + backers == pool;
      drawn, equiv := 0, 0;
    } else {
      var init, s := backers[..|backers| - 1], backers[|backers| - 1];
      assert backers == init + [s] && pool + backers == (pool + init) + [s];
      TotalPaidSnoc(t0, pool + init, s);
      SumConcat(pool + init, [s]);
      drawn, equiv := BackersDrawFloors(t0, pool, init);
      var p := Draw(After(t0, pool + init), s);
      FloorAdds(drawn, equiv, s, p, t0.cr, t0.ts);
      drawn, equiv := drawn + (p + 1), equiv + s;
    }
  }

  /** One payee more draws at least its floored share. */
  lemma TotalPaidSnoc(t0: Till, a: seq<nat>, s: nat)
    requires Sound(t0) && Sum(a + [s]) <= t0.ts
    ensures TotalPaid(t0, a + [s]) == TotalPaid(t0, a) + Draw(After(t0, a), s)
    ensures s * t0.cr <= (Draw(After(t0, a), s) + 1) * t0.ts
  {
    assert (a + [s])[..|a|] == a;
    PaidFloor(t0, a + [s], |a|);
  }

  lemma PaidFloor(t0: Till, shares: seq<nat>, k: nat)
    requires Sound(t0) && Sum(shares) <= t0.ts && k < |shares|
    ensures shares[k] * t0.cr <= (Paid(t0, shares, k) + 1) * t0.ts
  {
    var s := shares[k];
    if t0.ts > 0 {
      PayeeBounds(t0, shares, k);
      Nonneg(s, t0.cr);
      CoveredByFloor(s * t0.cr, t0.ts, Paid(t0, shares, k));
    } else {
      SumPrefix(shares, k);
      assert s == 0;
    }
  }

  /** A pool with shares but no collateral is paid out of the pot: here it takes half. */
  lemma WorthlessPoolSharesThePot(x: nat)
    requires x > 0
    ensures var v, w := Vault(0, x, 0, 0, x), WriterPosition(x, 0, 0);
      && Solvent(v, [w], [x]) && Book(v, [w], [x]) == [x, x]
      && Paid(PostVoid(v), [x, x], 0) == x / 2 && Paid(PostVoid(v), [x, x], 1) == x - x / 2
  {
    var v, w := Vault(0, x, 0, 0, x), WriterPosition(x, 0, 0);
    OneOfEach(v, w, x);
    PaysHalves(PostVoid(v), x);
  }

  lemma PaysHalves(t0: Till, x: nat)
    requires x > 0 && t0 == Till(x, 2 * x)
    ensures Paid(t0, [x, x], 0) == x / 2 && Paid(t0, [x, x], 1) == x - x / 2
  {
    HalfDrawn(x);
    assert [x, x][..0] == [] && [x, x][..1] == [x] && [x][..0] == [];
    assert After(t0, [x]) == PayOne(t0, x);
    DrawBounds(PayOne(t0, x), x);
  }

  lemma OneOfEach(v: Vault, w: WriterPosition, x: nat)
    requires x > 0 && v == Vault(0, x, 0, 0, x) && w == WriterPosition(x, 0, 0)
    ensures Solvent(v, [w], [x]) && Book(v, [w], [x]) == [x, x]
  {
    assert [w][..0] == [] && [x][..0] == [];
    Nonneg(x, x);
    QuotientUnique(x * x, x, x);
    assert EquivShares(v, x) == x;
    assert Held([w]) == [w] && PoolShares([w]) == [x] && BackerShares(v, [x]) == [x];
  }

  lemma HalfDrawn(x: nat)
    requires x > 0
    ensures Draw(Till(x, 2 * x), x) == x / 2
  {
    HalfOfSquare(x);
    TruncDivIsFloor(x * x, 2 * x);
  }

  lemma HalfOfSquare(x: nat)
    requires x > 0
    ensures x * x >= 0 && x * x / (2 * x) == x / 2
  {
    Nonneg(x, x);
    var h, r := x / 2, x % 2;
    assert x * x == (2 * h + r) * x == h * (2 * x) + r * x;
    assert r * x <= x;
    QuotientUnique(x * x, 2 * x, h);
  }

  /** The three premium steps amount to one saturating subtraction. */
  lemma PremiumIsSaturating(v: Vault, w: WriterPosition)
    ensures Premium(v, w) == Max(0, w.shares * v.ppsc / SCALE - w.premiumDebt - w.premiumClaimed)
  {
  }

  /** The bound of PayeeBounds is reached for every k: k holders of one share each draw nothing,
      and the last payee collects all their dust. */
  lemma BoundIsTight(k: nat) returns (t0: Till, shares: seq<nat>)
    ensures Sound(t0) && Sum(shares) <= t0.ts && t0.ts > 0 && |shares| == k + 1
    ensures Paid(t0, shares, k) == shares[k] * t0.cr / t0.ts + k
  {
    Nonneg(k, k);
    var big := k * k + 1;
    var ones := seq(k, _ => 1);
    t0, shares := Till(big, big + k), ones + [big];
    assert shares[..k] == ones;
    OnesDrawNothing(t0, k);
    DrawBounds(Till(big, big), big);
    FairShareOfRest(big, k);
  }

  lemma FairShareOfRest(big: nat, k: nat)
    requires big == k * k + 1
    ensures big * big >= 0 && big * big / (big + k) == big - k
  {
    Nonneg(big, big);
    if k > 1 {
      Nonneg(k, k - 1);
    }
    assert (big - k) * (big + k) == big * big - k * k;
    QuotientUnique(big * big, big + k, big - k);
  }

  lemma {:induction false} OnesDrawNothing(t0: Till, k: nat)
    requires 0 <= t0.cr <= t0.ts - k
    ensures var ones := seq<nat>(k, _ => 1); Sum(ones) == k && After(t0, ones) == Till(t0.cr, t0.ts - k)
  {
    if k > 0 {
      var ones := seq<nat>(k, _ => 1);
      assert ones[..k - 1] == seq<nat>(k - 1, _ => 1);
      OnesDrawNothing(t0, k - 1);
      QuotientUnique(1 * t0.cr, t0.ts - k + 1, 0);
      TruncDivIsFloor(1 * t0.cr, t0.ts - k + 1);
    }
  }
}
