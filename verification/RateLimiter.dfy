/** The per-IP fixed-window rate limiter, which throws stale buckets away once there are many. */
module RateLimiter {
  import opened Prelude

  datatype Bucket = Bucket(windowStart: int, count: int)

  type Buckets = map<string, Bucket>

  datatype Config = Config(maxPerWindow: int, windowMs: int)

  datatype Request = Request(ip: string, at: int)

  const PRUNE_ABOVE := 10_000

  predicate Stale(b: Bucket, now: int, cfg: Config) {
    now - b.windowStart >= cfg.windowMs
  }

  predicate Opens(bs: Buckets, q: Request, cfg: Config) {
    q.ip !in bs || Stale(bs[q.ip], q.at, cfg)
  }

  /** Admitted iff the request opens a window or its window has room. */
  predicate Admits(bs: Buckets, q: Request, cfg: Config) {
    Opens(bs, q, cfg) || bs[q.ip].count < cfg.maxPerWindow
  }

  /** The buckets after a request, by a limiter that never throws any away. */
  function After(bs: Buckets, q: Request, cfg: Config): Buckets {
    if Opens(bs, q, cfg) then bs[q.ip := Bucket(q.at, 1)]
    else if Admits(bs, q, cfg) then bs[q.ip := Bucket(bs[q.ip].windowStart, bs[q.ip].count + 1)]
    else bs
  }

  function Fresh(bs: Buckets, now: int, cfg: Config): Buckets {
    map ip | ip in bs && !Stale(bs[ip], now, cfg) :: bs[ip]
  }

  /** The same by the limiter at hand. */
  function AfterPruning(bs: Buckets, q: Request, cfg: Config): Buckets {
    var next := After(bs, q, cfg);
    if Opens(bs, q, cfg) && |next| > PRUNE_ABOVE then Fresh(next, q.at, cfg) else next
  }

  class Limiter {
    const cfg: Config
    var buckets: Buckets

    constructor (cfg: Config)
      ensures this.cfg == cfg && buckets == map[]
    {
      this.cfg := cfg;
      buckets := map[];
    }

    method Allow(ip: string, now: int) returns (ok: bool)
      modifies this
      ensures ok == Admits(old(buckets), Request(ip, now), cfg)
      ensures buckets == AfterPruning(old(buckets), Request(ip, now), cfg)
      // Memory: a request that opens a window leaves at most 10,000 buckets, or none that is stale.
      ensures (ip !in old(buckets) || now - old(buckets)[ip].windowStart >= cfg.windowMs) && |buckets| > 10_000 ==>
        forall k :: k in buckets ==> now - buckets[k].windowStart < cfg.windowMs
    {
      if ip !in buckets || now - buckets[ip].windowStart >= cfg.windowMs {
        buckets := buckets[ip := Bucket(now, 1)];
        if |buckets| > PRUNE_ABOVE {
          Prune(now);
        }
        return true;
      }
      var b := buckets[ip];
      if b.count >= cfg.maxPerWindow { return false; }
      buckets := buckets[ip := b.(count := b.count + 1)];
      return true;
    }

    method Prune(now: int)
      modifies this
      ensures buckets == Fresh(old(buckets), now, cfg)
      ensures forall ip :: ip in buckets <==> ip in old(buckets) && now - old(buckets)[ip].windowStart < cfg.windowMs
    {
      ghost var was := buckets;
      var left := buckets.Keys;
      while left != {}
        invariant left <= was.Keys && left <= buckets.Keys
        invariant forall ip :: ip in buckets <==> ip in was && (ip in left || !Stale(was[ip], now, cfg))
        invariant forall ip :: ip in buckets ==> buckets[ip] == was[ip]
        decreases |left|
      {
        var ip :| ip in left;
        left := left - {ip};
        if now - buckets[ip].windowStart >= cfg.windowMs {
          buckets := buckets - {ip};
        }
      }
    }
  }

  // ---- Throwing stale buckets away changes no decision ----------------------------------------

  /** The buckets after a run, and what the run decided, with or without pruning. */
  function State(qs: seq<Request>, prunes: bool, cfg: Config): Buckets {
    if qs == [] then map[]
    else
      var bs, q := State(qs[..|qs| - 1], prunes, cfg), qs[|qs| - 1];
      if prunes then AfterPruning(bs, q, cfg) else After(bs, q, cfg)
  }

  predicate Admitted(qs: seq<Request>, i: nat, prunes: bool, cfg: Config)
    requires i < |qs|
  {
    Admits(State(qs[..i], prunes, cfg), qs[i], cfg)
  }

  ghost predicate ClockRuns(qs: seq<Request>) {
    forall i, j :: 0 <= i < j < |qs| ==> qs[i].at <= qs[j].at
  }

  /** What pruning keeps equal: a bucket is the same or gone, and only stale ones go. */
  ghost predicate Agree(pruned: Buckets, full: Buckets, now: int, cfg: Config) {
    && (forall ip :: ip in pruned ==> ip in full && pruned[ip] == full[ip])
    && (forall ip :: ip in full && ip !in pruned ==> Stale(full[ip], now, cfg))
  }

  lemma AgreeStep(pruned: Buckets, full: Buckets, q: Request, now: int, cfg: Config)
    requires Agree(pruned, full, now, cfg) && now <= q.at
    ensures Admits(pruned, q, cfg) == Admits(full, q, cfg)
    ensures Agree(AfterPruning(pruned, q, cfg), After(full, q, cfg), q.at, cfg)
  {
    assert Agree(After(pruned, q, cfg), After(full, q, cfg), q.at, cfg);
  }

  lemma {:induction false} StatesAgree(qs: seq<Request>, cfg: Config)
    requires ClockRuns(qs)
    ensures Agree(State(qs, true, cfg), State(qs, false, cfg), if qs == [] then 0 else qs[|qs| - 1].at, cfg)
  {
    if qs != [] {
      var init, q := qs[..|qs| - 1], qs[|qs| - 1];
      StatesAgree(init, cfg);
      var now := if init == [] then q.at else init[|init| - 1].at;
      AgreeStep(State(init, true, cfg), State(init, false, cfg), q, now, cfg);
    }
  }

  /** On a clock that never runs back, the pruning limiter decides every request as one that never
      prunes. */
  lemma PruningIsInvisible(qs: seq<Request>, i: nat, cfg: Config)
    requires ClockRuns(qs) && i < |qs|
    ensures Admitted(qs, i, true, cfg) == Admitted(qs, i, false, cfg)
  {
    var before := qs[..i];
    StatesAgree(before, cfg);
    var now := if i == 0 then qs[i].at else before[i - 1].at;
    AgreeStep(State(before, true, cfg), State(before, false, cfg), qs[i], now, cfg);
  }

  // ---- How much one IP gets through -------------------------------------------------------------

  /** The requests of an IP admitted in [a, b). */
  function Count(qs: seq<Request>, ip: string, a: int, b: int, prunes: bool, cfg: Config): nat {
    if qs == [] then 0
    else
      var init, q := qs[..|qs| - 1], qs[|qs| - 1];
      Count(init, ip, a, b, prunes, cfg)
      + if q.ip == ip && a <= q.at < b && Admits(State(init, prunes, cfg), q, cfg) then 1 else 0
  }

  lemma {:induction false} CountSplits(qs: seq<Request>, ip: string, a: int, m: int, b: int, cfg: Config)
    requires a <= m <= b
    ensures Count(qs, ip, a, b, false, cfg) == Count(qs, ip, a, m, false, cfg) + Count(qs, ip, m, b, false, cfg)
  {
    if qs != [] {
      CountSplits(qs[..|qs| - 1], ip, a, m, b, cfg);
    }
  }

  function Room(cfg: Config): nat {
    Max(1, cfg.maxPerWindow)
  }

  /** What holds of an IP's latest window after any run, and of the requests admitted in [a, b). The
      opener of a window is the one request no short interval shares with the next window. */
  ghost predicate Within(qs: seq<Request>, ip: string, a: int, b: int, cfg: Config) {
    var n, bs := Count(qs, ip, a, b, false, cfg), State(qs, false, cfg);
    if ip !in bs then n == 0
    else
      var w := bs[ip];
      && 1 <= w.count <= Room(cfg)
      && (qs != [] ==> w.windowStart <= qs[|qs| - 1].at)
      && (w.windowStart <= a ==> n <= w.count)
      && (w.windowStart < a ==> n <= w.count - 1)
      && (w.windowStart + cfg.windowMs <= a ==> n == 0)
      && (w.windowStart - cfg.windowMs < a && b <= w.windowStart ==> n <= Room(cfg) - 1)
  }

  lemma {:induction false} AlwaysWithin(qs: seq<Request>, ip: string, a: int, b: int, cfg: Config)
    requires ClockRuns(qs) && cfg.windowMs > 0
    ensures Within(qs, ip, a, b, cfg)
  {
    if qs != [] {
      AlwaysWithin(qs[..|qs| - 1], ip, a, b, cfg);
    }
  }

  lemma {:induction false} ShortIntervals(qs: seq<Request>, ip: string, a: int, b: int, cfg: Config)
    requires ClockRuns(qs) && cfg.windowMs > 0 && b <= a + cfg.windowMs
    ensures Count(qs, ip, a, b, false, cfg) <= 2 * Room(cfg) - 1
  {
    if qs != [] {
      ShortIntervals(qs[..|qs| - 1], ip, a, b, cfg);
      AlwaysWithin(qs, ip, a, b, cfg);
      if ip in State(qs, false, cfg) {
        var start := State(qs, false, cfg)[ip].windowStart;
        if a <= start <= b {
          CountSplits(qs, ip, a, start, b, cfg);
          AlwaysWithin(qs, ip, a, start, cfg);
          AlwaysWithin(qs, ip, start, b, cfg);
        }
      }
    }
  }

  /** The requests of an IP the limiter admits in [a, a + windowMs). */
  function Burst(qs: seq<Request>, ip: string, a: int, cfg: Config): nat {
    Count(qs, ip, a, a + cfg.windowMs, true, cfg)
  }

  /** No interval of windowMs admits more than twice the window's room less one, whatever the
      configuration: a window admits its opener even when maxPerWindow is zero or less. */
  lemma AtMostTwoWindows(qs: seq<Request>, ip: string, a: int, cfg: Config)
    requires ClockRuns(qs)
    ensures Burst(qs, ip, a, cfg) <= 2 * Room(cfg) - 1
  {
    CountsAgree(qs, ip, a, a + cfg.windowMs, cfg);
    if cfg.windowMs > 0 {
      ShortIntervals(qs, ip, a, a + cfg.windowMs, cfg);
    } else {
      EmptyInterval(qs, ip, a, a + cfg.windowMs, cfg);
    }
  }

  lemma {:induction false} CountsAgree(qs: seq<Request>, ip: string, a: int, b: int, cfg: Config)
    requires ClockRuns(qs)
    ensures Count(qs, ip, a, b, true, cfg) == Count(qs, ip, a, b, false, cfg)
  {
    if qs != [] {
      CountsAgree(qs[..|qs| - 1], ip, a, b, cfg);
      PruningIsInvisible(qs, |qs| - 1, cfg);
    }
  }

  lemma {:induction false} EmptyInterval(qs: seq<Request>, ip: string, a: int, b: int, cfg: Config)
    requires b <= a
    ensures Count(qs, ip, a, b, false, cfg) == 0
  {
    if qs != [] {
      EmptyInterval(qs[..|qs| - 1], ip, a, b, cfg);
    }
  }

  // ---- No request is refused without cause ---------------------------------------------------------

  /** A bucket counts exactly the requests admitted since its window opened. */
  lemma {:induction false} BucketCounts(qs: seq<Request>, ip: string, b: int, cfg: Config)
    requires ClockRuns(qs) && cfg.windowMs > 0 && ip in State(qs, false, cfg)
    requires forall i :: 0 <= i < |qs| ==> qs[i].at < b
    ensures Count(qs, ip, State(qs, false, cfg)[ip].windowStart, b, false, cfg) == State(qs, false, cfg)[ip].count
  {
    var init, q := qs[..|qs| - 1], qs[|qs| - 1];
    AlwaysWithin(init, ip, q.at, b, cfg);
    if ip in State(init, false, cfg) {
      BucketCounts(init, ip, b, cfg);
      AlwaysWithin(init, ip, State(init, false, cfg)[ip].windowStart, b, cfg);
    }
  }

  /** A request is refused only if at least maxPerWindow requests of its IP were admitted in the
      windowMs up to and including it. */
  lemma RefusedOnlyWhenFull(qs: seq<Request>, i: nat, cfg: Config)
    requires ClockRuns(qs) && i < |qs| && !Admitted(qs, i, true, cfg)
    ensures Count(qs[..i], qs[i].ip, qs[i].at + 1 - cfg.windowMs, qs[i].at + 1, true, cfg) >= cfg.maxPerWindow
  {
    var before, q := qs[..i], qs[i];
    PruningIsInvisible(qs, i, cfg);
    assert ClockRuns(before);
    CountsAgree(before, q.ip, q.at + 1 - cfg.windowMs, q.at + 1, cfg);
    WindowNotInFuture(before, q.ip, cfg);
    var start := State(before, false, cfg)[q.ip].windowStart;
    BucketCounts(before, q.ip, q.at + 1, cfg);
    CountSplits(before, q.ip, q.at + 1 - cfg.windowMs, start, q.at + 1, cfg);
  }

  lemma {:induction false} WindowNotInFuture(qs: seq<Request>, ip: string, cfg: Config)
    requires ClockRuns(qs) && ip in State(qs, false, cfg)
    ensures qs != [] && State(qs, false, cfg)[ip].windowStart <= qs[|qs| - 1].at
  {
    if ip in State(qs[..|qs| - 1], false, cfg) {
      WindowNotInFuture(qs[..|qs| - 1], ip, cfg);
    }
  }

  // ---- The documented bound -------------------------------------------------------------------------

  /** "At most twice maxPerWindow" is therefore right exactly for a positive maxPerWindow. */
  ghost predicate NeverAboveTwice(cfg: Config) {
    forall qs: seq<Request>, ip: string, a: int ::
      ClockRuns(qs) ==> Burst(qs, ip, a, cfg) <= 2 * cfg.maxPerWindow
  }

  lemma NeverAboveTwiceIffPositive(cfg: Config)
    requires cfg.windowMs > 0
    ensures NeverAboveTwice(cfg) <==> cfg.maxPerWindow >= 1
  {
    if cfg.maxPerWindow >= 1 {
      forall qs: seq<Request>, ip: string, a: int | ClockRuns(qs)
        ensures Burst(qs, ip, a, cfg) <= 2 * cfg.maxPerWindow
      {
        AtMostTwoWindows(qs, ip, a, cfg);
      }
    } else {
      var q := Request("", 0);
      Extend([], q, 0, cfg.windowMs, cfg);
      assert [] + [q] == [q];
      CountsAgree([q], "", 0, cfg.windowMs, cfg);
      assert ClockRuns([q]) && Burst([q], "", 0, cfg) == 1;
    }
  }

  // ---- The bound is reached -----------------------------------------------------------------------

  /** One request at 0, more at the last instant of its window, and more still at the next one's first. */
  function Straddle(ip: string, early: nat, late: nat, cfg: Config): seq<Request>
    decreases early + late
  {
    if late > 0 then Straddle(ip, early, late - 1, cfg) + [Request(ip, cfg.windowMs)]
    else if early > 0 then Straddle(ip, early - 1, 0, cfg) + [Request(ip, cfg.windowMs - 1)]
    else [Request(ip, 0)]
  }

  lemma Extend(qs: seq<Request>, q: Request, a: int, b: int, cfg: Config)
    ensures State(qs + [q], false, cfg) == After(State(qs, false, cfg), q, cfg)
    ensures Count(qs + [q], q.ip, a, b, false, cfg) == Count(qs, q.ip, a, b, false, cfg)
         + if a <= q.at < b && Admits(State(qs, false, cfg), q, cfg) then 1 else 0
  {
    assert (qs + [q])[..|qs + [q]| - 1] == qs;
  }

  /** What a run has come to for an IP: its window, and its admitted requests in [a, b). */
  ghost predicate At(qs: seq<Request>, ip: string, w: Bucket, a: int, b: int, n: nat, cfg: Config) {
    && ip in State(qs, false, cfg) && State(qs, false, cfg)[ip] == w
    && Count(qs, ip, a, b, false, cfg) == n
  }

  lemma OneMore(qs: seq<Request>, q: Request, w: Bucket, a: int, b: int, n: nat, cfg: Config)
    requires At(qs, q.ip, w, a, b, n, cfg) && a <= q.at < b && cfg.windowMs > 0
    requires Stale(w, q.at, cfg) || w.count < cfg.maxPerWindow
    ensures At(qs + [q], q.ip, if Stale(w, q.at, cfg) then Bucket(q.at, 1) else w.(count := w.count + 1), a, b, n + 1, cfg)
  {
    Extend(qs, q, a, b, cfg);
  }

  lemma {:induction false} EarlyAdmitted(ip: string, early: nat, cfg: Config)
    requires cfg.windowMs >= 2 && early < cfg.maxPerWindow
    ensures At(Straddle(ip, early, 0, cfg), ip, Bucket(0, 1 + early), cfg.windowMs - 1, 2 * cfg.windowMs - 1, early, cfg)
  {
    var a, b := cfg.windowMs - 1, 2 * cfg.windowMs - 1;
    if early == 0 {
      Extend([], Request(ip, 0), a, b, cfg);
      assert [] + [Request(ip, 0)] == Straddle(ip, 0, 0, cfg);
    } else {
      EarlyAdmitted(ip, early - 1, cfg);
      OneMore(Straddle(ip, early - 1, 0, cfg), Request(ip, a), Bucket(0, early), a, b, early - 1, cfg);
    }
  }

  lemma {:induction false} LateAdmitted(ip: string, early: nat, late: nat, cfg: Config)
    requires cfg.windowMs >= 2 && early < cfg.maxPerWindow && 0 < late <= cfg.maxPerWindow
    ensures At(Straddle(ip, early, late, cfg), ip, Bucket(cfg.windowMs, late),
               cfg.windowMs - 1, 2 * cfg.windowMs - 1, early + late, cfg)
    decreases late
  {
    var a, b, q := cfg.windowMs - 1, 2 * cfg.windowMs - 1, Request(ip, cfg.windowMs);
    if late == 1 {
      EarlyAdmitted(ip, early, cfg);
      OneMore(Straddle(ip, early, 0, cfg), q, Bucket(0, 1 + early), a, b, early, cfg);
    } else {
      LateAdmitted(ip, early, late - 1, cfg);
      OneMore(Straddle(ip, early, late - 1, cfg), q, Bucket(q.at, late - 1), a, b, early + late - 1, cfg);
    }
  }

  lemma {:induction false} StraddleOnClock(ip: string, early: nat, late: nat, cfg: Config)
    requires cfg.windowMs >= 2
    ensures ClockRuns(Straddle(ip, early, late, cfg))
    ensures forall i :: 0 <= i < |Straddle(ip, early, late, cfg)| ==>
      Straddle(ip, early, late, cfg)[i].at <= if late > 0 then cfg.windowMs else cfg.windowMs - 1
    decreases early + late
  {
    if late > 0 {
      StraddleOnClock(ip, early, late - 1, cfg);
    } else if early > 0 {
      StraddleOnClock(ip, early - 1, 0, cfg);
    }
  }

  /** A client that times it right gets 2*maxPerWindow - 1 requests through in one windowMs. */
  lemma TwoWindowsAreReached(ip: string, cfg: Config)
    requires cfg.windowMs >= 2 && cfg.maxPerWindow >= 1
    ensures exists qs: seq<Request>, a: int ::
      ClockRuns(qs) && Burst(qs, ip, a, cfg) == 2 * cfg.maxPerWindow - 1
  {
    var qs := Straddle(ip, cfg.maxPerWindow - 1, cfg.maxPerWindow, cfg);
    StraddleBursts(qs, ip, cfg);
  }

  lemma StraddleBursts(qs: seq<Request>, ip: string, cfg: Config)
    requires cfg.windowMs >= 2 && cfg.maxPerWindow >= 1
    requires qs == Straddle(ip, cfg.maxPerWindow - 1, cfg.maxPerWindow, cfg)
    ensures ClockRuns(qs) && Burst(qs, ip, cfg.windowMs - 1, cfg) == 2 * cfg.maxPerWindow - 1
  {
    LateAdmitted(ip, cfg.maxPerWindow - 1, cfg.maxPerWindow, cfg);
    StraddleOnClock(ip, cfg.maxPerWindow - 1, cfg.maxPerWindow, cfg);
    CountsAgree(qs, ip, cfg.windowMs - 1, 2 * cfg.windowMs - 1, cfg);
  }
}
