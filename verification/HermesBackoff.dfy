/** The adaptive delay against Hermes: the shared helper, and the settle loop's inline copy of it. */
module HermesBackoff {
  import Arith
  import opened Prelude

  const DEFAULT_BASE_MS := 500
  const DEFAULT_CEILING_MS := 10_000
  const MULTIPLIER := 2
  const RECOVER_AFTER_N_OK := 3

  datatype State = State(currentMs: int, consecutiveOk: int)

  datatype Config = Config(baseMs: int, ceilingMs: int, multiplier: int, recoverAfterN: int)

  /** How an attempt ends, as both classifiers see it. */
  datatype Outcome = Success | RateLimit | NoUpdate | Other

  predicate Sane(cfg: Config) {
    1 <= cfg.baseMs && 1 <= cfg.ceilingMs && 1 <= cfg.multiplier && 1 <= cfg.recoverAfterN
  }

  function On429(s: State, cfg: Config): State {
    State(Min(s.currentMs * cfg.multiplier, cfg.ceilingMs), 0)
  }

  function OnOk(s: State, cfg: Config): State {
    if s.currentMs <= cfg.baseMs then s
    else if s.consecutiveOk + 1 >= cfg.recoverAfterN then State(Max(s.currentMs / 2, cfg.baseMs), 0)
    else s.(consecutiveOk := s.consecutiveOk + 1)
  }

  function Step(s: State, o: Outcome, cfg: Config): State {
    match o
    case Success => OnOk(s, cfg)
    case RateLimit => On429(s, cfg)
    case _ => s
  }

  /** The state after these outcomes, from any state. */
  function Continue(s: State, outcomes: seq<Outcome>, cfg: Config): State {
    if outcomes == [] then s
    else Step(Continue(s, outcomes[..|outcomes| - 1], cfg), outcomes[|outcomes| - 1], cfg)
  }

  function Run(outcomes: seq<Outcome>, cfg: Config): State {
    Continue(State(cfg.baseMs, 0), outcomes, cfg)
  }

  // ---- The helper -----------------------------------------------------------------------------------

  class Backoff {
    var currentMs: int
    var consecutiveOk: int

    function Now(): State
      reads this
    {
      State(currentMs, consecutiveOk)
    }

    constructor (baseMs: int)
      ensures Now() == State(baseMs, 0)
    {
      currentMs, consecutiveOk := baseMs, 0;
    }

    method BackoffOn429(cfg: Config)
      modifies this
      ensures Now() == On429(old(Now()), cfg)
    {
      currentMs := Min(currentMs * cfg.multiplier, cfg.ceilingMs);
      consecutiveOk := 0;
    }

    method BackoffOnOk(cfg: Config)
      modifies this
      ensures Now() == OnOk(old(Now()), cfg)
    {
      if currentMs <= cfg.baseMs { return; }
      consecutiveOk := consecutiveOk + 1;
      if consecutiveOk >= cfg.recoverAfterN {
        currentMs := Max(currentMs / 2, cfg.baseMs);
        consecutiveOk := 0;
      }
    }
  }

  // ---- The settle loop ------------------------------------------------------------------------------

  datatype Tick = Tick(errors: nat, rateLimit: nat, noUpdate: nat, other: nat, tuplesProcessed: int)

  function Failures(outcomes: seq<Outcome>, o: Outcome): nat {
    if outcomes == [] then 0
    else Failures(outcomes[..|outcomes| - 1], o) + if outcomes[|outcomes| - 1] == o then 1 else 0
  }

  /** One tick of the settle loop over the expired tuples. `outcomes` is what settling each of them
      would come to; `handled` is how far the loop got before a shutdown. The delay steps exactly as the
      helper's would, and `delays` is what was slept before each attempt. */
  method SettleTuples(ctx: Backoff, outcomes: seq<Outcome>, baseMs: int, ceilingMs: int)
    returns (result: Tick, handled: nat, delays: seq<int>)
    modifies ctx
    ensures var cfg := Config(baseMs, ceilingMs, MULTIPLIER, RECOVER_AFTER_N_OK);
      && handled <= |outcomes| && |delays| == handled
      && ctx.Now() == Continue(old(ctx.Now()), outcomes[..handled], cfg)
      && forall i :: 0 <= i < handled ==> delays[i] == Continue(old(ctx.Now()), outcomes[..i], cfg).currentMs
    ensures result.rateLimit == Failures(outcomes[..handled], RateLimit)
    ensures result.noUpdate == Failures(outcomes[..handled], NoUpdate)
    ensures result.other == Failures(outcomes[..handled], Other)
    ensures result.errors == result.rateLimit + result.noUpdate + result.other
    ensures result.tuplesProcessed == |outcomes| - handled + Failures(outcomes[..handled], Success)
  {
    ghost var cfg := Config(baseMs, ceilingMs, MULTIPLIER, RECOVER_AFTER_N_OK);
    result, handled, delays := Tick(0, 0, 0, 0, 0), 0, [];
    while handled < |outcomes|
      invariant handled <= |outcomes| && |delays| == handled
      invariant ctx.Now() == Continue(old(ctx.Now()), outcomes[..handled], cfg)
      invariant forall i :: 0 <= i < handled ==> delays[i] == Continue(old(ctx.Now()), outcomes[..i], cfg).currentMs
      invariant result.rateLimit == Failures(outcomes[..handled], RateLimit)
      invariant result.noUpdate == Failures(outcomes[..handled], NoUpdate)
      invariant result.other == Failures(outcomes[..handled], Other)
      invariant result.errors == result.rateLimit + result.noUpdate + result.other
      invariant handled == result.errors + Failures(outcomes[..handled], Success)
    {
      var shutdown: bool := *;
      if shutdown { break; }
      delays := delays + [ctx.currentMs];
      match outcomes[handled] {
        case Success =>
          if ctx.currentMs > baseMs {
            ctx.consecutiveOk := ctx.consecutiveOk + 1;
            if ctx.consecutiveOk >= RECOVER_AFTER_N_OK {
              var next := Max(ctx.currentMs / 2, baseMs);
              ctx.currentMs := next;
              ctx.consecutiveOk := 0;
            }
          }
        case RateLimit =>
          result := result.(errors := result.errors + 1, rateLimit := result.rateLimit + 1);
          ctx.currentMs := Min(ctx.currentMs * MULTIPLIER, ceilingMs);
          ctx.consecutiveOk := 0;
        case NoUpdate =>
          result := result.(errors := result.errors + 1, noUpdate := result.noUpdate + 1);
        case Other =>
          result := result.(errors := result.errors + 1, other := result.other + 1);
      }
      assert outcomes[..handled + 1][..handled] == outcomes[..handled];
      handled := handled + 1;
    }
    result := result.(tuplesProcessed := |outcomes| - result.errors);
  }

  // ---- What moves the delay --------------------------------------------------------------------------

  /** The successes and rate limits of a run. */
  function Telling(outcomes: seq<Outcome>): seq<Outcome> {
    if outcomes == [] then []
    else
      var o := outcomes[|outcomes| - 1];
      Telling(outcomes[..|outcomes| - 1]) + if o == NoUpdate || o == Other then [] else [o]
  }

  /** Any other outcome leaves no trace: a run ends as it would without them. */
  lemma {:induction false} NeutralLeavesNoTrace(s: State, outcomes: seq<Outcome>, cfg: Config)
    ensures Continue(s, outcomes, cfg) == Continue(s, Telling(outcomes), cfg)
    ensures forall o :: o in Telling(outcomes) ==> o == Success || o == RateLimit
    decreases |outcomes|
  {
    if outcomes != [] {
      var front, o := outcomes[..|outcomes| - 1], outcomes[|outcomes| - 1];
      NeutralLeavesNoTrace(s, front, cfg);
      assert outcomes == front + [o];
      OneMoreOutcome(s, front, Telling(front), o, cfg);
    }
  }

  lemma OneMoreOutcome(s: State, a: seq<Outcome>, b: seq<Outcome>, o: Outcome, cfg: Config)
    requires Continue(s, a, cfg) == Continue(s, b, cfg)
    ensures Continue(s, a + [o], cfg) == Continue(s, b + (if o == NoUpdate || o == Other then [] else [o]), cfg)
  {
    ContinueSnoc(s, a, o, cfg);
    if o == NoUpdate || o == Other {
      assert b + [] == b;
    } else {
      ContinueSnoc(s, b, o, cfg);
    }
  }

  lemma ContinueSnoc(s: State, a: seq<Outcome>, o: Outcome, cfg: Config)
    ensures Continue(s, a + [o], cfg) == Step(Continue(s, a, cfg), o, cfg)
  {
    assert (a + [o])[..|a|] == a;
  }

  /** k rate limits in a row, or k successes. */
  lemma {:induction false} StreakIs(s: State, k: nat, cfg: Config)
    ensures Continue(s, seq(k, _ => RateLimit), cfg) == RateLimits(s, k, cfg)
    ensures Continue(s, seq(k, _ => Success), cfg) == Oks(s, k, cfg)
  {
    if k > 0 {
      StreakIs(s, k - 1, cfg);
      assert seq(k, _ => RateLimit)[..k - 1] == seq(k - 1, _ => RateLimit);
      assert seq(k, _ => Success)[..k - 1] == seq(k - 1, _ => Success);
    }
  }

  // ---- Bounds -----------------------------------------------------------------------------------------

  ghost predicate Bounded(s: State, cfg: Config) {
    cfg.baseMs <= s.currentMs <= cfg.ceilingMs && 0 <= s.consecutiveOk < cfg.recoverAfterN
  }

  lemma MultiplyGrows(a: int, m: int)
    requires 1 <= a && 1 <= m
    ensures a <= a * m
  {
  }

  lemma {:induction false} AlwaysBounded(outcomes: seq<Outcome>, cfg: Config)
    requires Sane(cfg) && cfg.baseMs <= cfg.ceilingMs
    ensures Bounded(Run(outcomes, cfg), cfg)
  {
    if outcomes != [] {
      AlwaysBounded(outcomes[..|outcomes| - 1], cfg);
      MultiplyGrows(Run(outcomes[..|outcomes| - 1], cfg).currentMs, cfg.multiplier);
    }
  }

  ghost predicate KeepsTheFloor(cfg: Config) {
    forall outcomes :: cfg.baseMs <= Run(outcomes, cfg).currentMs
  }

  /** Nothing checks that the configured ceiling is not below the base. If it is, the first rate limit
      takes the delay below its floor; otherwise no run ever does. */
  lemma KeepsTheFloorIff(cfg: Config)
    requires Sane(cfg)
    ensures KeepsTheFloor(cfg) <==> cfg.baseMs <= cfg.ceilingMs
  {
    if cfg.baseMs <= cfg.ceilingMs {
      forall outcomes ensures cfg.baseMs <= Run(outcomes, cfg).currentMs {
        AlwaysBounded(outcomes, cfg);
      }
    } else {
      var once := [RateLimit];
      assert once[..|once| - 1] == [];
      assert Run(once, cfg).currentMs <= cfg.ceilingMs;
    }
  }

  // ---- Growth -------------------------------------------------------------------------------------------

  /** cur * m^k. */
  function Grown(cur: int, m: int, k: nat): int {
    if k == 0 then cur else Grown(cur, m, k - 1) * m
  }

  function RateLimits(s: State, k: nat, cfg: Config): State {
    if k == 0 then s else On429(RateLimits(s, k - 1, cfg), cfg)
  }

  /** k rate limits in a row multiply the delay k times, up to the ceiling. */
  lemma {:induction false} AfterRateLimits(s: State, k: nat, cfg: Config)
    requires Sane(cfg) && s.currentMs <= cfg.ceilingMs
    ensures RateLimits(s, k, cfg).currentMs == Min(Grown(s.currentMs, cfg.multiplier, k), cfg.ceilingMs)
    ensures k > 0 ==> RateLimits(s, k, cfg).consecutiveOk == 0
  {
    if k > 0 {
      AfterRateLimits(s, k - 1, cfg);
      MultiplyMin(Grown(s.currentMs, cfg.multiplier, k - 1), cfg.ceilingMs, cfg.multiplier);
    }
  }

  lemma MultiplyMin(a: int, c: int, m: int)
    requires 1 <= c && 1 <= m
    ensures Min(Min(a, c) * m, c) == Min(a * m, c)
  {
    if a > c {
      Arith.MulLe(c, a, m);
      MultiplyGrows(c, m);
    }
  }

  // ---- Recovery -----------------------------------------------------------------------------------------

  function Oks(s: State, m: nat, cfg: Config): State {
    if m == 0 then s else OnOk(Oks(s, m - 1, cfg), cfg)
  }

  lemma {:induction false} OksAdd(s: State, a: nat, b: nat, cfg: Config)
    ensures Oks(s, a + b, cfg) == Oks(Oks(s, a, cfg), b, cfg)
  {
    if b > 0 {
      OksAdd(s, a, b - 1, cfg);
    }
  }

  /** Below the threshold, successes are only counted. */
  lemma {:induction false} OksCount(s: State, i: nat, cfg: Config)
    requires cfg.baseMs <= s.currentMs && s.consecutiveOk == 0 && i < cfg.recoverAfterN
    ensures Oks(s, i, cfg) == if s.currentMs > cfg.baseMs then s.(consecutiveOk := i) else s
  {
    if i > 0 {
      OksCount(s, i - 1, cfg);
    }
  }

  function Halved(cur: int, j: nat, base: int): int {
    Max(base, cur / Pow2(j))
  }

  lemma HalveOnce(cur: int, j: nat, base: int)
    requires 1 <= base <= cur
    ensures Halved(cur, j + 1, base) == Max(base, Halved(cur, j, base) / 2)
  {
    Arith.DivTwice(cur, Pow2(j), 2);
  }

  /** Every N successes halve the delay toward the base: the state after N*j + i of them. */
  lemma {:induction false} AfterOks(s: State, j: nat, i: nat, cfg: Config)
    requires Sane(cfg) && cfg.baseMs <= s.currentMs && s.consecutiveOk == 0 && i < cfg.recoverAfterN
    ensures cfg.recoverAfterN * j >= 0
    ensures var cur := Halved(s.currentMs, j, cfg.baseMs);
      Oks(s, cfg.recoverAfterN * j + i, cfg) == State(cur, if cur > cfg.baseMs then i else 0)
    decreases j
  {
    var n := cfg.recoverAfterN;
    if j > 0 {
      AfterOks(s, j - 1, n - 1, cfg);
      HalveOnce(s.currentMs, j - 1, cfg.baseMs);
      assert n * j == n * (j - 1) + (n - 1) + 1;
    }
    OksAdd(s, n * j, i, cfg);
    OksCount(Oks(s, n * j, cfg), i, cfg);
  }

  /** If the delay is at most base * 2^k, then N*k successes bring it exactly to the base, from any
      state a run can reach. */
  lemma Recovers(s: State, k: nat, cfg: Config)
    requires Sane(cfg) && Bounded(s, cfg) && s.currentMs <= cfg.baseMs * Pow2(k)
    ensures cfg.recoverAfterN * k >= 0
    ensures Oks(s, cfg.recoverAfterN * k, cfg).currentMs == cfg.baseMs
  {
    var clean, c := s.(consecutiveOk := 0), s.consecutiveOk;
    AfterOks(clean, k, c, cfg);
    AtMost(s.currentMs, cfg.baseMs, Pow2(k));
    if s.currentMs > cfg.baseMs {
      OksCount(clean, c, cfg);
      OksAdd(clean, c, cfg.recoverAfterN * k, cfg);
    } else {
      StaysAtBase(s, cfg.recoverAfterN * k, cfg);
    }
  }

  lemma AtMost(x: nat, b: nat, p: nat)
    requires x <= b * p && p >= 1
    ensures x / p <= b
  {
    Arith.FloorBounds(x, p);
    Arith.MulLeCancel(x / p, b, p);
  }

  lemma {:induction false} StaysAtBase(s: State, m: nat, cfg: Config)
    requires s.currentMs <= cfg.baseMs
    ensures Oks(s, m, cfg) == s
  {
    if m > 0 {
      StaysAtBase(s, m - 1, cfg);
    }
  }

  /** With the shipped constants one rate limit at the ceiling needs fifteen successes to be forgotten. */
  lemma ShippedRecovery(s: State)
    requires DEFAULT_BASE_MS <= s.currentMs <= DEFAULT_CEILING_MS && 0 <= s.consecutiveOk < RECOVER_AFTER_N_OK
    ensures Oks(s, 15, Config(DEFAULT_BASE_MS, DEFAULT_CEILING_MS, MULTIPLIER, RECOVER_AFTER_N_OK)).currentMs == DEFAULT_BASE_MS
  {
    var cfg := Config(DEFAULT_BASE_MS, DEFAULT_CEILING_MS, MULTIPLIER, RECOVER_AFTER_N_OK);
    assert Pow2(5) == 2 * Pow2(4) && Pow2(4) == 2 * Pow2(3) && Pow2(3) == 8;
    Recovers(s, 5, cfg);
  }
}
