/** How a backlog drains over the ticks, on an otherwise fixed board, while some vaults never settle. */
module SettleDrain {
  import opened Prelude
  import opened SettlePlan
  import opened SettleRun
  import opened StableSort

  /** The eligible vaults in the order in which they are served. */
  function Queue(b: Board, rank: string -> int): seq<Vault> {
    Sort(EligibleVaults(b), PlanKey(rank))
  }

  function Targets(b: Board, max: nat, rank: string -> int): seq<Vault> {
    SliceTo(Queue(b, rank), max)
  }

  ghost function KeysOf(vaults: seq<Vault>): set<string> {
    set v | v in vaults :: v.key
  }

  function Marked(v: Vault, keys: set<string>): Vault {
    if v.key in keys then v.(isSettled := true) else v
  }

  function MarkSettled(vaults: seq<Vault>, keys: set<string>): seq<Vault> {
    seq(|vaults|, i requires 0 <= i < |vaults| => Marked(vaults[i], keys))
  }

  /** One tick: all the targets get settled, except those that never settle. */
  ghost function Tick(b: Board, max: nat, rank: string -> int, stuck: set<string>): Board {
    b.(vaults := MarkSettled(b.vaults, KeysOf(Targets(b, max, rank)) - stuck))
  }

  ghost function Ticks(b: Board, max: nat, rank: string -> int, stuck: set<string>, n: nat): Board
    decreases n
  {
    if n == 0 then b else Ticks(Tick(b, max, rank, stuck), max, rank, stuck, n - 1)
  }

  // ---- What a tick does to the queue ----------------------------------------------------------------

  function NotIn(keys: set<string>): Vault -> bool {
    (v: Vault) => v.key !in keys
  }

  function In(keys: set<string>): Vault -> bool {
    (v: Vault) => v.key in keys
  }

  /** The stuck ones among the first `max` stay in front; the rest moves up. */
  function Advance(q: seq<Vault>, max: nat, stuck: set<string>): seq<Vault> {
    var m := Min(max, |q|);
    Filter(q[..m], In(stuck)) + q[m..]
  }

  /** Settling some vaults takes exactly those out of the eligible ones. */
  lemma {:induction false} EligibleAfterMark(b: Board, b': Board, vaults: seq<Vault>, keys: set<string>)
    requires b'.markets == b.markets && b'.records == b.records && b'.nowSecs == b.nowSecs
    ensures OfClass(b', MarkSettled(vaults, keys), Eligible) == Filter(OfClass(b, vaults, Eligible), NotIn(keys))
    decreases |vaults|
  {
    if vaults != [] {
      var n := |vaults| - 1;
      EligibleAfterMark(b, b', vaults[..n], keys);
      assert vaults == vaults[..n] + [vaults[n]];
      MarkOneMore(b, b', vaults[..n], vaults[n], keys);
    }
  }

  lemma MarkOneMore(b: Board, b': Board, front: seq<Vault>, v: Vault, keys: set<string>)
    requires b'.markets == b.markets && b'.records == b.records && b'.nowSecs == b.nowSecs
    requires OfClass(b', MarkSettled(front, keys), Eligible) == Filter(OfClass(b, front, Eligible), NotIn(keys))
    ensures OfClass(b', MarkSettled(front + [v], keys), Eligible) == Filter(OfClass(b, front + [v], Eligible), NotIn(keys))
  {
    MarkSnoc(front, v, keys);
    EligibleSnoc(b', MarkSettled(front, keys), Marked(v, keys));
    EligibleSnoc(b, front, v);
    OneAfterMark(b, b', v, keys);
    FilterConcat(OfClass(b, front, Eligible), IfEligible(b, v), NotIn(keys));
  }

  lemma MarkSnoc(front: seq<Vault>, v: Vault, keys: set<string>)
    ensures MarkSettled(front + [v], keys) == MarkSettled(front, keys) + [Marked(v, keys)]
  {
  }

  lemma EligibleSnoc(b: Board, front: seq<Vault>, v: Vault)
    ensures OfClass(b, front + [v], Eligible) == OfClass(b, front, Eligible) + IfEligible(b, v)
  {
    assert (front + [v])[..|front|] == front;
  }

  function IfEligible(b: Board, v: Vault): seq<Vault> {
    if Classify(b, v) == Eligible then [v] else []
  }

  lemma OneAfterMark(b: Board, b': Board, v: Vault, keys: set<string>)
    requires b'.markets == b.markets && b'.records == b.records && b'.nowSecs == b.nowSecs
    ensures IfEligible(b', Marked(v, keys)) == Filter(IfEligible(b, v), NotIn(keys))
  {
    FilterOne(v, NotIn(keys));
  }

  lemma FilterOne(v: Vault, p: Vault -> bool)
    ensures Filter([v], p) == (if p(v) then [v] else []) && Filter([], p) == []
  {
    assert [v][..0] == [];
  }

  lemma {:induction false} FilterAgrees(q: seq<Vault>, p: Vault -> bool, p': Vault -> bool)
    requires forall i :: 0 <= i < |q| ==> p(q[i]) == p'(q[i])
    ensures Filter(q, p) == Filter(q, p')
    decreases |q|
  {
    if q != [] {
      FilterAgrees(q[..|q| - 1], p, p');
    }
  }

  lemma {:induction false} FilterKeepsAll(q: seq<Vault>, p: Vault -> bool)
    requires forall i :: 0 <= i < |q| ==> p(q[i])
    ensures Filter(q, p) == q
    decreases |q|
  {
    if q != [] {
      FilterKeepsAll(q[..|q| - 1], p);
      assert q == q[..|q| - 1] + [q[|q| - 1]];
    }
  }

  lemma FilterIsAdvance(q: seq<Vault>, max: nat, stuck: set<string>)
    requires DistinctKeys(q)
    ensures Filter(q, NotIn(KeysOf(SliceTo(q, max)) - stuck)) == Advance(q, max, stuck)
  {
    var m := Min(max, |q|);
    var front, back := q[..m], q[m..];
    var p := NotIn(KeysOf(front) - stuck);
    assert q == front + back;
    FilterConcat(front, back, p);
    forall i | 0 <= i < |front| ensures p(front[i]) == In(stuck)(front[i]) {
      assert front[i] in front;
    }
    FilterAgrees(front, p, In(stuck));
    forall j | 0 <= j < |back| ensures p(back[j]) {
      forall w | w in front ensures w.key != back[j].key {
        var i :| 0 <= i < |front| && front[i] == w;
        assert q[i].key != q[m + j].key;
      }
    }
    FilterKeepsAll(back, p);
  }

  lemma {:induction false} OfClassDistinct(b: Board, vaults: seq<Vault>, c: Class)
    requires DistinctKeys(vaults)
    ensures DistinctKeys(OfClass(b, vaults, c))
    decreases |vaults|
  {
    if vaults != [] {
      var n := |vaults| - 1;
      OfClassDistinct(b, vaults[..n], c);
      OfClassMembers(b, vaults[..n], c);
      var front := OfClass(b, vaults[..n], c);
      forall i | 0 <= i < |front| ensures front[i].key != vaults[n].key {
        assert front[i] in vaults[..n];
      }
    }
  }

  lemma {:induction false} InsertInside(q: seq<Vault>, v: Vault, key: Vault -> Key, i: nat)
    requires i <= |q|
    ensures Insert(q, v, key)[i] == v || Insert(q, v, key)[i] in q
    decreases |q|
  {
    var n := |q| - 1;
    if q != [] && !Le(key(q[n]), key(v)) && i < |q| {
      InsertInside(q[..n], v, key, i);
    }
  }

  lemma {:induction false} InsertDistinct(q: seq<Vault>, v: Vault, key: Vault -> Key)
    requires DistinctKeys(q) && forall i :: 0 <= i < |q| ==> q[i].key != v.key
    ensures DistinctKeys(Insert(q, v, key))
    decreases |q|
  {
    if q != [] && !Le(key(q[|q| - 1]), key(v)) {
      var n := |q| - 1;
      var front := Insert(q[..n], v, key);
      InsertDistinct(q[..n], v, key);
      forall i | 0 <= i < |front| ensures front[i].key != q[n].key {
        InsertInside(q[..n], v, key, i);
      }
    }
  }

  lemma {:induction false} SortDistinct(vaults: seq<Vault>, key: Vault -> Key)
    requires DistinctKeys(vaults)
    ensures DistinctKeys(Sort(vaults, key))
    decreases |vaults|
  {
    if vaults != [] {
      var n := |vaults| - 1;
      SortDistinct(vaults[..n], key);
      SortIsStable(vaults[..n], key);
      var sorted := Sort(vaults[..n], key);
      forall i | 0 <= i < |sorted| ensures sorted[i].key != vaults[n].key {
        assert sorted[i] in multiset(sorted);
        assert sorted[i] in multiset(vaults[..n]);
        assert sorted[i] in vaults[..n];
      }
      InsertDistinct(sorted, vaults[n], key);
    }
  }

  lemma QueueAfterTick(b: Board, after: Board, max: nat, rank: string -> int, stuck: set<string>)
    requires DistinctKeys(b.vaults) && after == Tick(b, max, rank, stuck)
    ensures DistinctKeys(after.vaults) && Queue(after, rank) == Advance(Queue(b, rank), max, stuck)
  {
    var settled := KeysOf(Targets(b, max, rank)) - stuck;
    EligibleAfterMark(b, after, b.vaults, settled);
    FilterSort(EligibleVaults(b), PlanKey(rank), NotIn(settled));
    OfClassDistinct(b, b.vaults, Eligible);
    SortDistinct(EligibleVaults(b), PlanKey(rank));
    FilterIsAdvance(Queue(b, rank), max, stuck);
  }

  /** The queue after n ticks. */
  function Advanced(q: seq<Vault>, max: nat, stuck: set<string>, n: nat): seq<Vault>
    decreases n
  {
    if n == 0 then q else Advanced(Advance(q, max, stuck), max, stuck, n - 1)
  }

  lemma {:induction false} QueueAfterTicks(b: Board, max: nat, rank: string -> int, stuck: set<string>, n: nat)
    requires DistinctKeys(b.vaults)
    ensures Queue(Ticks(b, max, rank, stuck, n), rank) == Advanced(Queue(b, rank), max, stuck, n)
    decreases n
  {
    if n > 0 {
      var after := Tick(b, max, rank, stuck);
      QueueAfterTick(b, after, max, rank, stuck);
      QueueAfterTicks(after, max, rank, stuck, n - 1);
      TicksAndQueue(b, after, Queue(b, rank), Queue(after, rank), max, rank, stuck, n);
    }
  }

  lemma TicksAndQueue(b: Board, after: Board, q: seq<Vault>, next: seq<Vault>, max: nat, rank: string -> int,
                      stuck: set<string>, n: nat)
    requires n > 0 && after == Tick(b, max, rank, stuck) && next == Advance(q, max, stuck)
    ensures Ticks(b, max, rank, stuck, n) == Ticks(after, max, rank, stuck, n - 1)
    ensures Advanced(q, max, stuck, n) == Advanced(next, max, stuck, n - 1)
  {
  }

  // ---- Nothing stuck ---------------------------------------------------------------------------------

  lemma {:induction false} NoneIn(q: seq<Vault>)
    ensures Filter(q, In({})) == []
    decreases |q|
  {
    if q != [] {
      NoneIn(q[..|q| - 1]);
    }
  }

  /** A tick that settles all its targets takes exactly those off the front of the queue. */
  lemma TickDrains(b: Board, after: Board, max: nat, rank: string -> int)
    requires DistinctKeys(b.vaults) && after == Tick(b, max, rank, {})
    ensures Queue(b, rank) == Targets(b, max, rank) + Queue(after, rank)
    ensures |Targets(b, max, rank)| == Min(max, |EligibleVaults(b)|)
  {
    QueueAfterTick(b, after, max, rank, {});
    NoneIn(Targets(b, max, rank));
  }

  lemma {:induction false} AllMove(q: seq<Vault>, max: nat, n: nat)
    ensures |Advanced(q, max, {}, n)| == Max(0, |q| - Times(n, max))
    decreases n
  {
    if n > 0 {
      AllMove(Advance(q, max, {}), max, n - 1);
      NoneIn(q[..Min(max, |q|)]);
    }
  }

  lemma BacklogOf(b: Board, after: Board, max: nat, rank: string -> int, n: nat)
    requires Queue(after, rank) == Advanced(Queue(b, rank), max, {}, n)
    ensures |EligibleVaults(after)| == Max(0, |EligibleVaults(b)| - n * max)
  {
    SizeOf(Queue(b, rank), Queue(after, rank), max, n);
  }

  lemma SizeOf(q: seq<Vault>, r: seq<Vault>, max: nat, n: nat)
    requires r == Advanced(q, max, {}, n)
    ensures |r| == Max(0, |q| - n * max)
  {
    AllMove(q, max, n);
    TimesIsProduct(n, max);
  }

  /** If every target settles, the backlog after n ticks is what n full ticks leave; so it is empty
      after ceil(backlog / max) ticks and not before. */
  lemma BacklogDrains(b: Board, after: Board, max: nat, rank: string -> int, n: nat)
    requires DistinctKeys(b.vaults) && after == Ticks(b, max, rank, {}, n)
    ensures |EligibleVaults(after)| == Max(0, |EligibleVaults(b)| - n * max)
    ensures EligibleVaults(after) == [] <==> |EligibleVaults(b)| <= n * max
  {
    QueueAfterTicks(b, max, rank, {}, n);
    BacklogOf(b, after, max, rank, n);
  }

  // ---- Some stuck --------------------------------------------------------------------------------------

  /** The vaults that settle once they are targets. */
  function Movers(q: seq<Vault>, stuck: set<string>): (r: nat)
    ensures r <= |q|
  {
    if q == [] then 0
    else Movers(q[..|q| - 1], stuck) + if q[|q| - 1].key in stuck then 0 else 1
  }

  /** The stuck vaults in front of the last mover. */
  function Blockers(q: seq<Vault>, stuck: set<string>): (r: nat)
    ensures r <= |q| - Movers(q, stuck)
  {
    if q == [] then 0
    else
      var front := q[..|q| - 1];
      if q[|q| - 1].key in stuck then Blockers(front, stuck) else |front| - Movers(front, stuck)
  }

  lemma {:induction false} MoversConcat(a: seq<Vault>, b: seq<Vault>, stuck: set<string>)
    ensures Movers(a + b, stuck) == Movers(a, stuck) + Movers(b, stuck)
    ensures Blockers(a + b, stuck)
         == if Movers(b, stuck) == 0 then Blockers(a, stuck) else |a| - Movers(a, stuck) + Blockers(b, stuck)
    decreases |b|
  {
    if b == [] {
      assert a + b == a;
    } else {
      MoversConcat(a, b[..|b| - 1], stuck);
      assert (a + b)[..|a + b| - 1] == a + b[..|b| - 1];
    }
  }

  lemma {:induction false} StuckStay(q: seq<Vault>, stuck: set<string>)
    ensures Movers(Filter(q, In(stuck)), stuck) == 0
    ensures |Filter(q, In(stuck))| == |q| - Movers(q, stuck)
    decreases |q|
  {
    if q != [] {
      var n := |q| - 1;
      StuckStay(q[..n], stuck);
      var front := Filter(q[..n], In(stuck));
      if q[n].key in stuck {
        assert (front + [q[n]])[..|front|] == front;
      } else {
        assert front + [] == front;
      }
    }
  }

  lemma {:induction false} NoMoverMeans(q: seq<Vault>, stuck: set<string>)
    ensures Movers(q, stuck) == 0 <==> forall v :: v in q ==> v.key in stuck
    decreases |q|
  {
    if q != [] {
      var n := |q| - 1;
      NoMoverMeans(q[..n], stuck);
      assert q == q[..n] + [q[n]];
    }
  }

  lemma {:induction false} NoMoverNoBlocker(q: seq<Vault>, stuck: set<string>)
    ensures Movers(q, stuck) == 0 ==> Blockers(q, stuck) == 0
    decreases |q|
  {
    if q != [] {
      NoMoverNoBlocker(q[..|q| - 1], stuck);
    }
  }

  /** A tick leaves no mover, or moves all but as many of its targets as block and changes nothing about
      who blocks. */
  ghost predicate Moved(movers: nat, blockers: nat, next: nat, nextBlockers: nat, max: nat) {
    || (next == 0 && nextBlockers == 0)
    || (nextBlockers == blockers && next + max <= movers + blockers)
  }

  /** So does every tick; and with a full tick's worth of blockers the last mover is out of reach. */
  lemma AdvanceStep(q: seq<Vault>, r: seq<Vault>, max: nat, stuck: set<string>)
    requires r == Advance(q, max, stuck)
    ensures Moved(Movers(q, stuck), Blockers(q, stuck), Movers(r, stuck), Blockers(r, stuck), max)
    ensures Movers(q, stuck) > 0 && Blockers(q, stuck) >= max ==> Movers(r, stuck) > 0
  {
    var m := Min(max, |q|);
    var front, back := q[..m], q[m..];
    NoMoverNoBlocker(r, stuck);
    assert q == front + back;
    MoversConcat(front, back, stuck);
    StuckStay(front, stuck);
    MoversConcat(Filter(front, In(stuck)), back, stuck);
  }

  /** After n ticks with fewer blockers than targets: no mover left, or fewer by the difference each. */
  ghost predicate Drains(movers: nat, blockers: nat, moversNow: nat, blockersNow: nat, max: nat, n: nat) {
    || moversNow == 0
    || (blockersNow == blockers < max && moversNow + Times(n, max - blockers) <= movers)
  }

  lemma DrainStep(movers: nat, blockers: nat, next: nat, nextBlockers: nat, now: nat, nowBlockers: nat, max: nat, n: nat)
    requires blockers < max && Moved(movers, blockers, next, nextBlockers, max)
    requires Drains(next, nextBlockers, now, nowBlockers, max, n)
    ensures Drains(movers, blockers, now, nowBlockers, max, n + 1)
  {
  }

  lemma {:induction false} MoversDrain(q: seq<Vault>, r: seq<Vault>, max: nat, stuck: set<string>, n: nat)
    requires Blockers(q, stuck) < max && r == Advanced(q, max, stuck, n)
    ensures Drains(Movers(q, stuck), Blockers(q, stuck), Movers(r, stuck), Blockers(r, stuck), max, n)
    decreases n
  {
    if n > 0 {
      var next := AdvanceOnce(q, r, max, stuck, n);
      MoversDrain(next, r, max, stuck, n - 1);
      DrainStep(Movers(q, stuck), Blockers(q, stuck), Movers(next, stuck), Blockers(next, stuck),
                Movers(r, stuck), Blockers(r, stuck), max, n - 1);
    }
  }

  lemma AdvanceOnce(q: seq<Vault>, r: seq<Vault>, max: nat, stuck: set<string>, n: nat) returns (next: seq<Vault>)
    requires n > 0 && r == Advanced(q, max, stuck, n)
    ensures r == Advanced(next, max, stuck, n - 1)
    ensures Moved(Movers(q, stuck), Blockers(q, stuck), Movers(next, stuck), Blockers(next, stuck), max)
  {
    next := Advance(q, max, stuck);
    AdvanceStep(q, next, max, stuck);
  }

  /** With a full tick's worth of blockers the last mover waits for ever. */
  ghost predicate Starves(r: seq<Vault>, max: nat, stuck: set<string>) {
    Movers(r, stuck) > 0 && Blockers(r, stuck) >= max
  }

  lemma StarveStep(before: seq<Vault>, after: seq<Vault>, max: nat, stuck: set<string>)
    requires Starves(before, max, stuck) && after == Advance(before, max, stuck)
    ensures Starves(after, max, stuck)
  {
    AdvanceStep(before, after, max, stuck);
  }

  lemma {:induction false} MoversStarve(q: seq<Vault>, max: nat, stuck: set<string>, n: nat)
    requires Starves(q, max, stuck)
    ensures Starves(Advanced(q, max, stuck, n), max, stuck)
    decreases n
  {
    if n > 0 {
      var next := Advance(q, max, stuck);
      StarveStep(q, next, max, stuck);
      MoversStarve(next, max, stuck, n - 1);
    }
  }

  ghost predicate Empties(q: seq<Vault>, max: nat, stuck: set<string>, n: nat) {
    Movers(Advanced(q, max, stuck, n), stuck) == 0
  }

  lemma EmptiesIff(q: seq<Vault>, max: nat, stuck: set<string>)
    ensures (exists n: nat :: Empties(q, max, stuck, n)) <==> !Starves(q, max, stuck)
    ensures Blockers(q, stuck) < max ==> Empties(q, max, stuck, Movers(q, stuck))
  {
    if Starves(q, max, stuck) {
      forall n: nat ensures !Empties(q, max, stuck, n) {
        MoversStarve(q, max, stuck, n);
      }
    } else if Blockers(q, stuck) < max {
      MoversDrain(q, Advanced(q, max, stuck, Movers(q, stuck)), max, stuck, Movers(q, stuck));
      TimesAtLeast(Movers(q, stuck), max - Blockers(q, stuck));
      assert Empties(q, max, stuck, Movers(q, stuck));
    } else {
      assert Empties(q, max, stuck, 0);
    }
  }

  lemma {:induction false} TimesAtLeast(n: nat, d: nat)
    requires d > 0
    ensures Times(n, d) >= n
  {
    if n > 0 {
      TimesAtLeast(n - 1, d);
    }
  }

  /** After n ticks only stuck vaults are left. */
  ghost predicate OnlyStuckLeft(b: Board, max: nat, rank: string -> int, stuck: set<string>, n: nat) {
    forall v :: v in EligibleVaults(Ticks(b, max, rank, stuck, n)) ==> v.key in stuck
  }

  lemma OnlyStuckIffEmpties(b: Board, max: nat, rank: string -> int, stuck: set<string>, n: nat)
    requires DistinctKeys(b.vaults)
    ensures OnlyStuckLeft(b, max, rank, stuck, n) <==> Empties(Queue(b, rank), max, stuck, n)
  {
    QueueAfterTicks(b, max, rank, stuck, n);
    QueueMembers(Ticks(b, max, rank, stuck, n), rank);
    NoMoverMeans(Advanced(Queue(b, rank), max, stuck, n), stuck);
  }

  lemma QueueMembers(b: Board, rank: string -> int)
    ensures forall v :: v in Queue(b, rank) <==> v in EligibleVaults(b)
  {
    var e, q := EligibleVaults(b), Queue(b, rank);
    SortIsStable(e, PlanKey(rank));
    forall v ensures v in q <==> v in e {
      assert v in q <==> v in multiset(q);
      assert v in e <==> v in multiset(e);
    }
  }

  /** Oldest first does not starve anybody for good iff the stuck vaults leave it room: every vault that
      can settle is settled in some tick iff there is none, or fewer than the ceiling of stuck vaults
      sort before the last of them. Then it takes at most as many ticks as there are such vaults. */
  lemma DrainsIff(b: Board, max: nat, rank: string -> int, stuck: set<string>)
    requires DistinctKeys(b.vaults)
    ensures (exists n: nat :: OnlyStuckLeft(b, max, rank, stuck, n))
       <==> Movers(Queue(b, rank), stuck) == 0 || Blockers(Queue(b, rank), stuck) < max
    ensures Blockers(Queue(b, rank), stuck) < max ==>
      OnlyStuckLeft(b, max, rank, stuck, Movers(Queue(b, rank), stuck))
  {
    EmptiesIff(Queue(b, rank), max, stuck);
    forall n: nat ensures OnlyStuckLeft(b, max, rank, stuck, n) <==> Empties(Queue(b, rank), max, stuck, n) {
      OnlyStuckIffEmpties(b, max, rank, stuck, n);
    }
    if n: nat :| Empties(Queue(b, rank), max, stuck, n) {
      assert OnlyStuckLeft(b, max, rank, stuck, n);
    }
  }

  // ---- Which vaults never settle ---------------------------------------------------------------------------

  /** The vaults a pass never attempts: those whose market has an empty cleaned name, or none. */
  function Unattemptable(b: Board): set<string> {
    set v | v in b.vaults && !Attemptable(v, AssetByMarket(b.markets)) :: v.key
  }

  /** A pass over the targets without failures or dropped errors, on a board that knew what was settled
      before (h0) and while nobody else settled anything. */
  ghost predicate CleanPass(b: Board, targets: seq<Vault>, h0: seq<string>, h: seq<string>, trace: seq<Send>, rep: Report) {
    && (forall v :: v in b.vaults && v.key in h0 ==> v.isSettled)
    && Faithful(rep, trace, h, AttemptableKeys(targets, AssetByMarket(b.markets)))
    && AllServed(targets, AssetByMarket(b.markets), h, trace, rep.errors)
    && rep.failed == 0 && (forall s :: s in trace && s.result.Sent? ==> !s.confirmError)
    && (forall k :: k in h ==> k in h0 || exists s :: s in trace && k in s.keys)
  }

  /** Such a pass does to the board what one tick does, stuck being the vaults it never attempts. */
  lemma PassIsTick(b: Board, max: nat, rank: string -> int, h0: seq<string>, h: seq<string>, trace: seq<Send>, rep: Report)
    requires DistinctKeys(b.vaults) && CleanPass(b, Targets(b, max, rank), h0, h, trace, rep)
    ensures b.(vaults := MarkSettled(b.vaults, set k | k in h)) == Tick(b, max, rank, Unattemptable(b))
  {
    var keys, settled := (set k | k in h), KeysOf(Targets(b, max, rank)) - Unattemptable(b);
    TargetsAreVaults(b, max, rank);
    forall i | 0 <= i < |b.vaults| ensures Marked(b.vaults[i], keys) == Marked(b.vaults[i], settled) {
      UnattemptableMeans(b, b.vaults[i]);
      if b.vaults[i].key in settled {
        TargetIsSettled(b, Targets(b, max, rank), h0, h, trace, rep, b.vaults[i]);
      } else if b.vaults[i].key in h && !b.vaults[i].isSettled {
        OnlyTargetsAreSettled(b, Targets(b, max, rank), h0, h, trace, rep, b.vaults[i]);
      }
    }
  }

  lemma TargetIsSettled(b: Board, targets: seq<Vault>, h0: seq<string>, h: seq<string>, trace: seq<Send>, rep: Report, v: Vault)
    requires DistinctKeys(b.vaults) && v in b.vaults && forall t :: t in targets ==> t in b.vaults
    requires CleanPass(b, targets, h0, h, trace, rep)
    requires v.key in KeysOf(targets) && Attemptable(v, AssetByMarket(b.markets))
    ensures v.key in h
  {
    var t :| t in targets && t.key == v.key;
    SameKeySameVault(b.vaults, t, v);
    assert Served(v.key, h, trace, rep.errors);
  }

  lemma OnlyTargetsAreSettled(b: Board, targets: seq<Vault>, h0: seq<string>, h: seq<string>, trace: seq<Send>, rep: Report,
                              v: Vault)
    requires DistinctKeys(b.vaults) && v in b.vaults && forall t :: t in targets ==> t in b.vaults
    requires CleanPass(b, targets, h0, h, trace, rep) && v.key in h && !v.isSettled
    ensures v.key in KeysOf(targets) && Attemptable(v, AssetByMarket(b.markets))
  {
    var s :| s in trace && v.key in s.keys;
    assert v.key in AttemptableKeys(targets, AssetByMarket(b.markets));
    var t :| t in targets && Attemptable(t, AssetByMarket(b.markets)) && t.key == v.key;
    SameKeySameVault(b.vaults, t, v);
  }

  lemma TargetsAreVaults(b: Board, max: nat, rank: string -> int)
    ensures forall t :: t in Targets(b, max, rank) ==> t in b.vaults
  {
    QueueMembers(b, rank);
    OfClassMembers(b, b.vaults, Eligible);
    forall t | t in Targets(b, max, rank) ensures t in b.vaults {
      assert t in Queue(b, rank);
    }
  }

  lemma UnattemptableMeans(b: Board, v: Vault)
    requires DistinctKeys(b.vaults) && v in b.vaults
    ensures v.key in Unattemptable(b) <==> !Attemptable(v, AssetByMarket(b.markets))
  {
    if v.key in Unattemptable(b) {
      var w :| w in b.vaults && !Attemptable(w, AssetByMarket(b.markets)) && w.key == v.key;
      SameKeySameVault(b.vaults, v, w);
    }
  }

  /** After n such ticks the eligible vaults left are those with an empty cleaned name. */
  ghost predicate OnlyEmptyNamesLeft(b: Board, max: nat, rank: string -> int, n: nat) {
    forall v :: v in EligibleVaults(Ticks(b, max, rank, Unattemptable(b), n)) ==> !Attemptable(v, AssetByMarket(b.markets))
  }

  lemma {:induction false} TicksOnlySettle(b: Board, max: nat, rank: string -> int, stuck: set<string>, n: nat)
    ensures forall v :: v in EligibleVaults(Ticks(b, max, rank, stuck, n)) ==> v in b.vaults && !v.isSettled
    decreases n
  {
    OfClassMembers(b, b.vaults, Eligible);
    if n > 0 {
      var after := Tick(b, max, rank, stuck);
      TicksOnlySettle(after, max, rank, stuck, n - 1);
      forall v | v in after.vaults && !v.isSettled ensures v in b.vaults {
        var i :| 0 <= i < |after.vaults| && after.vaults[i] == v;
        assert v == b.vaults[i];
      }
    }
  }

  lemma EmptyNamesAreStuck(b: Board, max: nat, rank: string -> int, n: nat)
    requires DistinctKeys(b.vaults)
    ensures OnlyEmptyNamesLeft(b, max, rank, n) <==> OnlyStuckLeft(b, max, rank, Unattemptable(b), n)
  {
    TicksOnlySettle(b, max, rank, Unattemptable(b), n);
    forall v | v in b.vaults ensures v.key in Unattemptable(b) <==> !Attemptable(v, AssetByMarket(b.markets)) {
      UnattemptableMeans(b, v);
    }
  }

  /** So, with such passes only, every vault with a name is settled in some tick iff there is none or
      fewer than the ceiling of eligible empty-named ones sort before the last of them. */
  lemma EmptyNamesStarveIff(b: Board, max: nat, rank: string -> int)
    requires DistinctKeys(b.vaults)
    ensures (exists n: nat :: OnlyEmptyNamesLeft(b, max, rank, n))
       <==> Movers(Queue(b, rank), Unattemptable(b)) == 0 || Blockers(Queue(b, rank), Unattemptable(b)) < max
  {
    DrainsIff(b, max, rank, Unattemptable(b));
    forall n: nat ensures OnlyEmptyNamesLeft(b, max, rank, n) <==> OnlyStuckLeft(b, max, rank, Unattemptable(b), n) {
      EmptyNamesAreStuck(b, max, rank, n);
    }
    if n: nat :| OnlyStuckLeft(b, max, rank, Unattemptable(b), n) {
      assert OnlyEmptyNamesLeft(b, max, rank, n);
    }
  }

  // ---- A board that starves, for every ceiling ---------------------------------------------------------------

  /** The k-th of the vaults in front; its market has an empty name. */
  function Nameless(k: nat): Vault {
    Vault(seq(k, _ => 'n'), "e", 0, false, false)
  }

  function Waiting(): Vault {
    Vault("w", "m", 1, false, false)
  }

  function StarvingBoard(max: nat): Board {
    Board(seq(max, k requires 0 <= k < max => Nameless(k)) + [Waiting()],
          [Market("e", ""), Market("m", "BTC")], [Record("", 0), Record("BTC", 1)], 1)
  }

  lemma StarvingNames(max: nat)
    ensures var assets := AssetByMarket(StarvingBoard(max).markets);
      "e" in assets && assets["e"] == "" && "m" in assets && assets["m"] == "BTC"
    ensures HaveRecord(StarvingBoard(max).records) >= {("", 0), ("BTC", 1)}
  {
    var b := StarvingBoard(max);
    AssetOfLastMarket(b.markets, "e");
    AssetOfLastMarket(b.markets, "m");
    assert IsLast(b.markets, 0, "e") && IsLast(b.markets, 1, "m");
    PaddingIsRemoved("", "", "");
    PaddingIsRemoved("BTC", "", "");
    assert "" + "" + "" == "" && "BTC" + "" + "" == "BTC";
    assert b.records[0] in b.records && b.records[1] in b.records;
  }

  lemma {:induction false} AllEligible(b: Board, vaults: seq<Vault>)
    requires forall i :: 0 <= i < |vaults| ==> Classify(b, vaults[i]) == Eligible
    ensures OfClass(b, vaults, Eligible) == vaults
    decreases |vaults|
  {
    if vaults != [] {
      AllEligible(b, vaults[..|vaults| - 1]);
    }
  }

  lemma StarvingKeys(max: nat)
    ensures DistinctKeys(StarvingBoard(max).vaults)
  {
    var vaults := StarvingBoard(max).vaults;
    forall i, j | 0 <= i < j < |vaults| ensures vaults[i].key != vaults[j].key {
      assert |vaults[i].key| == i;
      if j < max {
        assert |vaults[j].key| == j;
      } else if i == 1 {
        assert vaults[i].key[0] == 'n';
      }
    }
  }

  lemma StarvingQueue(b: Board, max: nat, rank: string -> int)
    requires b == StarvingBoard(max)
    ensures EligibleVaults(b) == b.vaults && Queue(b, rank) == b.vaults
  {
    StarvingNames(max);
    AllEligible(b, b.vaults);
    SortOfSorted(b.vaults, PlanKey(rank));
  }

  lemma SortOfSorted(vaults: seq<Vault>, key: Vault -> Key)
    requires Sorted(vaults, key)
    ensures Sort(vaults, key) == vaults
  {
    SortIsStable(vaults, key);
    StableSortIsUnique(vaults, Sort(vaults, key), key);
  }

  /** A ceiling's worth of older vaults with an empty name keeps a vault with a name out of every tick. */
  lemma StarvesForEver(max: nat, rank: string -> int, n: nat)
    ensures Waiting() in EligibleVaults(StarvingBoard(max))
    ensures Attemptable(Waiting(), AssetByMarket(StarvingBoard(max).markets))
    ensures !OnlyEmptyNamesLeft(StarvingBoard(max), max, rank, n)
  {
    var b := StarvingBoard(max);
    StarvingNames(max);
    StarvingKeys(max);
    StarvingQueue(b, max, rank);
    assert b.vaults[max] == Waiting() && b.vaults[..max + 1] == b.vaults;
    UnattemptableMeans(b, Waiting());
    forall v | v in b.vaults[..max] ensures v.key in Unattemptable(b) {
      UnattemptableMeans(b, v);
    }
    NoMoverMeans(b.vaults[..max], Unattemptable(b));
    EmptyNamesStarveIff(b, max, rank);
  }
}
