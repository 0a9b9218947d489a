/** The cross-tick account cache: refreshed when too old or when a required key is missing. A `get` is
    asynchronous, so others may run between its decision to fetch and the arrival of the list. */
module AccountCache {
  import opened Prelude

  datatype Account = Account(publicKey: string, account: string)

  type List = seq<Account>

  datatype Reason = Age | Miss

  datatype Stats = Stats(refreshes: nat, ageRefreshes: nat, missRefreshes: nat, hits: nat,
                         lastRefreshMs: int, size: nat)

  datatype State = State(data: Option<List>, keys: set<string>, fetchedAtMs: int, stats: Stats)

  const EMPTY := State(None, {}, 0, Stats(0, 0, 0, 0, 0, 0))

  function KeysOf(list: List): set<string> {
    set e | e in list :: e.publicKey
  }

  /** Why a `get` has to fetch, if it has to. */
  function Need(s: State, required: seq<string>, now: int, ttlMs: int): Option<Reason> {
    if s.data.None? || now - s.fetchedAtMs >= ttlMs then Some(Age)
    else if exists k :: k in required && k !in s.keys then Some(Miss)
    else None
  }

  function AfterHit(s: State): State {
    s.(stats := s.stats.(hits := s.stats.hits + 1))
  }

  /** The state once the list asked for at `t` has arrived. */
  function AfterFetch(s: State, reason: Reason, t: int, list: List): State {
    var st := s.stats;
    State(Some(list), KeysOf(list), t,
          Stats(st.refreshes + 1, st.ageRefreshes + (if reason.Age? then 1 else 0),
                st.missRefreshes + (if reason.Miss? then 1 else 0), st.hits, t, |list|))
  }

  /** Either served from the cache, or on its way to the network. */
  datatype Begun = Served(list: List) | Fetching(reason: Reason, t: int)

  class AccountCache {
    const ttlMs: int
    var data: Option<List>
    var keys: set<string>
    var fetchedAtMs: int
    var stats: Stats

    function Now(): State
      reads this
    {
      State(data, keys, fetchedAtMs, stats)
    }

    constructor (ttlMs: int)
      ensures this.ttlMs == ttlMs && Now() == EMPTY
    {
      this.ttlMs := ttlMs;
      data, keys, fetchedAtMs, stats := None, {}, 0, EMPTY.stats;
    }

    /** `get` up to its await. No `required` at all is the same as an empty one. */
    method BeginGet(required: seq<string>, t: int) returns (b: Begun)
      modifies this
      ensures match Need(old(Now()), required, t, ttlMs)
              case None => old(data).Some? && b == Served(old(data).value) && Now() == AfterHit(old(Now()))
              case Some(why) => b == Fetching(why, t) && Now() == old(Now())
    {
      var reason := None;
      if data.None? {
        reason := Some(Age);
      } else if t - fetchedAtMs >= ttlMs {
        reason := Some(Age);
      } else {
        for i := 0 to |required|
          invariant reason.None? && forall j :: 0 <= j < i ==> required[j] in keys
        {
          if required[i] !in keys { reason := Some(Miss); break; }
        }
      }
      if reason.None? {
        stats := stats.(hits := stats.hits + 1);
        return Served(data.value);
      }
      return Fetching(reason.value, t);
    }

    /** `get` from the fetcher's answer on; None if the fetcher threw. */
    method FinishGet(reason: Reason, t: int, fetched: Option<List>) returns (r: Option<List>)
      modifies this
      ensures r == fetched
      ensures fetched.None? ==> Now() == old(Now())
      ensures fetched.Some? ==> Now() == AfterFetch(old(Now()), reason, t, fetched.value)
    {
      if fetched.None? { return None; }
      var list := fetched.value;
      data := Some(list);
      keys := set e | e in list :: e.publicKey;
      fetchedAtMs := t;
      stats := stats.(refreshes := stats.refreshes + 1, lastRefreshMs := t, size := |list|);
      if reason.Age? {
        stats := stats.(ageRefreshes := stats.ageRefreshes + 1);
      } else {
        stats := stats.(missRefreshes := stats.missRefreshes + 1);
      }
      return fetched;
    }

    method Invalidate()
      modifies this
      ensures Now() == old(Now()).(data := None, keys := {}, fetchedAtMs := 0)
    {
      data, keys, fetchedAtMs := None, {}, 0;
    }
  }

  /** The age a heartbeat reports. */
  function AgeMs(s: State, now: int): int {
    if s.fetchedAtMs == 0 then -1 else now - s.fetchedAtMs
  }

  // ---- Runs of overlapping gets -------------------------------------------------------------------

  datatype Event =
    | Begin(required: seq<string>, now: int)
    | Finish(reason: Reason, t: int, fetched: Option<List>)
    | Invalidate

  function Apply(s: State, e: Event, ttlMs: int): State {
    match e
    case Begin(required, now) => if Need(s, required, now, ttlMs).None? then AfterHit(s) else s
    case Finish(reason, t, fetched) =>
      if fetched.Some? then AfterFetch(s, reason, t, fetched.value) else s
    case Invalidate => s.(data := None, keys := {}, fetchedAtMs := 0)
  }

  function Run(events: seq<Event>, ttlMs: int): State {
    if events == [] then EMPTY
    else Apply(Run(events[..|events| - 1], ttlMs), events[|events| - 1], ttlMs)
  }

  predicate Lands(e: Event) {
    e.Finish? && e.fetched.Some?
  }

  /** Event i brought the list that is still in place. */
  ghost predicate Brought(events: seq<Event>, i: nat, s: State) {
    && i < |events| && Lands(events[i])
    && s.data == events[i].fetched && s.fetchedAtMs == events[i].t
    && forall j :: i < j < |events| ==> !Lands(events[j]) && !events[j].Invalidate?
  }

  /** The key set is always that of the list in place, which the last fetch to land brought, and which
      no invalidation has dropped since. */
  lemma {:induction false} ListInPlace(events: seq<Event>, ttlMs: int) returns (i: nat)
    ensures var s := Run(events, ttlMs);
      s.keys == (if s.data.Some? then KeysOf(s.data.value) else {})
      && (s.data.Some? ==> Brought(events, i, s))
      && (s.data.None? ==> s.fetchedAtMs == 0 && forall j :: 0 <= j < |events| && Lands(events[j]) ==>
            exists k :: j < k < |events| && events[k].Invalidate?)
    decreases |events|
  {
    i := 0;
    if events != [] {
      var n := |events| - 1;
      i := ListInPlace(events[..n], ttlMs);
      if Lands(events[n]) {
        i := n;
      } else if events[n].Invalidate? {
        assert events[n].Invalidate?;
      } else {
        forall j | 0 <= j < |events| && Lands(events[j]) && Run(events, ttlMs).data.None?
          ensures exists k :: j < k < |events| && events[k].Invalidate?
        {
          assert Lands(events[..n][j]);
          var k :| j < k < n && events[..n][k].Invalidate?;
          assert events[k].Invalidate?;
        }
      }
    }
  }

  /** A list served from the cache was asked for less than ttlMs ago, is the last that landed, and has
      every required key. */
  lemma {:induction false} ServedIsFreshAndComplete(events: seq<Event>, required: seq<string>, now: int, ttlMs: int)
    requires Need(Run(events, ttlMs), required, now, ttlMs).None?
    ensures exists i: nat ::
      && Brought(events, i, Run(events, ttlMs)) && now - events[i].t < ttlMs
      && forall k :: k in required ==> HasKey(events[i].fetched.value, k)
  {
    var i := ListInPlace(events, ttlMs);
  }

  /** Some account of the list has this key. */
  predicate HasKey(list: List, key: string) {
    exists e :: e in list && e.publicKey == key
  }

  /** Once a required key is nowhere in the cache, the `get` fetches, however young the list is. */
  lemma {:induction false} MissingKeyIsNeverHidden(events: seq<Event>, required: seq<string>, now: int, ttlMs: int, key: string)
    requires key in required
    ensures var s := Run(events, ttlMs);
      (s.data.Some? ==> !HasKey(s.data.value, key)) ==> Need(s, required, now, ttlMs).Some?
  {
    var i := ListInPlace(events, ttlMs);
  }

  /** Why a `get` fetches, exactly: by age if no list is in place, or one that was asked for ttlMs ago or
      longer, whatever it lacks; by a miss only if the list is younger and a required key is in none of
      its accounts. */
  lemma {:induction false} ReasonIs(events: seq<Event>, required: seq<string>, now: int, ttlMs: int) returns (i: nat)
    ensures var s, need := Run(events, ttlMs), Need(Run(events, ttlMs), required, now, ttlMs);
      && (s.data.Some? ==> Brought(events, i, s))
      && (need == Some(Age) <==> s.data.None? || now - events[i].t >= ttlMs)
      && (need == Some(Miss) <==> s.data.Some? && now - events[i].t < ttlMs
                                  && exists k :: k in required && !HasKey(events[i].fetched.value, k))
  {
    i := ListInPlace(events, ttlMs);
    var s := Run(events, ttlMs);
    if s.data.Some? {
      forall k ensures k in s.keys <==> HasKey(events[i].fetched.value, k) {
      }
    }
  }

  /** The size and the time of the last refresh are those of the last list that landed, dropped since or
      not; before the first one they are zero. */
  lemma {:induction false} LastRefreshIs(events: seq<Event>, ttlMs: int) returns (i: nat)
    ensures var st := Run(events, ttlMs).stats;
      || (st.lastRefreshMs == 0 && st.size == 0 && forall j :: 0 <= j < |events| ==> !Lands(events[j]))
      || (i < |events| && Lands(events[i]) && st.lastRefreshMs == events[i].t && st.size == |events[i].fetched.value|
          && forall j :: i < j < |events| ==> !Lands(events[j]))
    decreases |events|
  {
    i := 0;
    if events != [] {
      var n := |events| - 1;
      i := LastRefreshIs(events[..n], ttlMs);
      if Lands(events[n]) {
        i := n;
      }
    }
  }

  // ---- The counters ---------------------------------------------------------------------------------

  /** The gets that returned a list: those served at once, and those whose fetch landed. */
  function Returned(events: seq<Event>, ttlMs: int): nat {
    if events == [] then 0
    else
      var before, e := events[..|events| - 1], events[|events| - 1];
      var served := e.Begin? && Need(Run(before, ttlMs), e.required, e.now, ttlMs).None?;
      Returned(before, ttlMs) + if served || Lands(e) then 1 else 0
  }

  function Landed(events: seq<Event>, reason: Reason): nat {
    if events == [] then 0
    else
      var e := events[|events| - 1];
      Landed(events[..|events| - 1], reason) + if Lands(e) && e.reason == reason then 1 else 0
  }

  lemma {:induction false} CountersCount(events: seq<Event>, ttlMs: int)
    ensures var st := Run(events, ttlMs).stats;
      && st.hits + st.refreshes == Returned(events, ttlMs)
      && st.ageRefreshes == Landed(events, Age) && st.missRefreshes == Landed(events, Miss)
      && st.refreshes == st.ageRefreshes + st.missRefreshes
    decreases |events|
  {
    if events != [] {
      CountersCount(events[..|events| - 1], ttlMs);
    }
  }

  // ---- What the heartbeat can tell --------------------------------------------------------------------

  /** On a clock that never shows zero or runs back, an age of -1 means that nothing is cached. */
  lemma {:induction false} AgeTells(events: seq<Event>, now: int, ttlMs: int)
    requires forall i :: 0 <= i < |events| && Lands(events[i]) ==> 0 < events[i].t <= now
    ensures AgeMs(Run(events, ttlMs), now) == -1 <==> Run(events, ttlMs).data.None?
    ensures Run(events, ttlMs).data.Some? ==>
      exists i: nat :: Brought(events, i, Run(events, ttlMs)) && AgeMs(Run(events, ttlMs), now) == now - events[i].t >= 0
  {
    var i := ListInPlace(events, ttlMs);
  }

  // ---- What overlapping gets can undo -------------------------------------------------------------------

  type Fetch = (Reason, int)

  /** The fetches under way: begun, and not come back yet. */
  function Pending(events: seq<Event>, ttlMs: int): multiset<Fetch> {
    if events == [] then multiset{}
    else
      var before, e := events[..|events| - 1], events[|events| - 1];
      match e
      case Begin(required, now) =>
        var need := Need(Run(before, ttlMs), required, now, ttlMs);
        Pending(before, ttlMs) + (if need.Some? then multiset{(need.value, now)} else multiset{})
      case Finish(reason, t, _) => Pending(before, ttlMs) - multiset{(reason, t)}
      case Invalidate => Pending(before, ttlMs)
  }

  /** Only fetches that are under way come back. */
  predicate Real(events: seq<Event>, ttlMs: int) {
    events == []
    || (Real(events[..|events| - 1], ttlMs)
        && (events[|events| - 1].Finish? ==>
              (events[|events| - 1].reason, events[|events| - 1].t) in Pending(events[..|events| - 1], ttlMs)))
  }

  /** From here on only fetches under way come back, in any order, each with a list or with an error. */
  predicate Returns(pending: multiset<Fetch>, after: seq<Event>)
    decreases |after|
  {
    after == []
    || (after[0].Finish? && (after[0].reason, after[0].t) in pending
        && Returns(pending - multiset{(after[0].reason, after[0].t)}, after[1..]))
  }

  /** The state once they have. */
  function ComesTo(s: State, after: seq<Event>): State
    requires forall i :: 0 <= i < |after| ==> after[i].Finish?
    decreases |after|
  {
    if after == [] then s
    else
      var e := after[0];
      ComesTo(if e.fetched.Some? then AfterFetch(s, e.reason, e.t, e.fetched.value) else s, after[1..])
  }

  lemma Snoc(events: seq<Event>, e: Event, ttlMs: int)
    ensures Run(events + [e], ttlMs) == Apply(Run(events, ttlMs), e, ttlMs)
    ensures Real(events + [e], ttlMs) <==>
      Real(events, ttlMs) && (e.Finish? ==> (e.reason, e.t) in Pending(events, ttlMs))
    ensures e.Finish? ==> Pending(events + [e], ttlMs) == Pending(events, ttlMs) - multiset{(e.reason, e.t)}
    ensures e.Invalidate? ==> Pending(events + [e], ttlMs) == Pending(events, ttlMs)
  {
    assert (events + [e])[..|events|] == events;
  }

  lemma {:induction false} ReturnsOnlyFinish(pending: multiset<Fetch>, after: seq<Event>)
    requires Returns(pending, after)
    ensures forall i :: 0 <= i < |after| ==> after[i].Finish?
    decreases |after|
  {
    if after != [] {
      ReturnsOnlyFinish(pending - multiset{(after[0].reason, after[0].t)}, after[1..]);
      assert forall i :: 0 < i < |after| ==> after[i] == after[1..][i - 1];
    }
  }

  /** Such continuations are runs: exactly the real ones without a new get. */
  lemma {:induction false} ReturnsAreRuns(events: seq<Event>, after: seq<Event>, all: seq<Event>, ttlMs: int)
    requires Real(events, ttlMs) && Returns(Pending(events, ttlMs), after) && all == events + after
    ensures forall i :: 0 <= i < |after| ==> after[i].Finish?
    ensures Real(all, ttlMs) && Run(all, ttlMs) == ComesTo(Run(events, ttlMs), after)
    decreases |after|
  {
    ReturnsOnlyFinish(Pending(events, ttlMs), after);
    if after == [] {
      assert all == events;
    } else {
      Snoc(events, after[0], ttlMs);
      assert all == events + [after[0]] + after[1..];
      ReturnsAreRuns(events + [after[0]], after[1..], all, ttlMs);
    }
  }

  lemma {:induction false} RealRunsReturn(events: seq<Event>, after: seq<Event>, ttlMs: int)
    requires Real(events + after, ttlMs) && forall i :: 0 <= i < |after| ==> after[i].Finish?
    ensures Real(events, ttlMs) && Returns(Pending(events, ttlMs), after)
    decreases |after|
  {
    if after == [] {
      assert events + after == events;
    } else {
      assert events + [after[0]] + after[1..] == events + after;
      RealRunsReturn(events + [after[0]], after[1..], ttlMs);
      Snoc(events, after[0], ttlMs);
    }
  }

  /** Whatever comes back was under way; and in place is the last list that came back, or what was there. */
  lemma {:induction false} LandedIsPending(s: State, pending: multiset<Fetch>, after: seq<Event>)
    requires Returns(pending, after)
    ensures forall i :: 0 <= i < |after| ==> after[i].Finish? && (after[i].reason, after[i].t) in pending
    ensures var r := ComesTo(s, after);
      || (r.data == s.data && r.fetchedAtMs == s.fetchedAtMs && forall i :: 0 <= i < |after| ==> !Lands(after[i]))
      || (r.data.Some? && exists f :: f in pending && r.fetchedAtMs == f.1)
    decreases |after|
  {
    if after != [] {
      var e := after[0];
      LandedIsPending(if e.fetched.Some? then AfterFetch(s, e.reason, e.t, e.fetched.value) else s,
                      pending - multiset{(e.reason, e.t)}, after[1..]);
      assert (e.reason, e.t) in pending;
      assert forall i :: 0 < i < |after| ==> after[i] == after[1..][i - 1];
    }
  }

  lemma OneReturns(s: State, pending: multiset<Fetch>, f: Fetch, list: List)
    requires f in pending
    ensures Returns(pending, [Finish(f.0, f.1, Some(list))])
    ensures ComesTo(s, [Finish(f.0, f.1, Some(list))]) == AfterFetch(s, f.0, f.1, list)
  {
  }

  lemma TwoReturn(s: State, pending: multiset<Fetch>, f: Fetch, g: Fetch, after: seq<Event>)
    requires f in pending && g in pending - multiset{f}
    requires after == [Finish(f.0, f.1, Some([])), Finish(g.0, g.1, Some([]))]
    ensures Returns(pending, after) && ComesTo(s, after).fetchedAtMs == g.1
  {
    OneReturns(AfterFetch(s, f.0, f.1, []), pending - multiset{f}, g, []);
    assert after[1..] == [Finish(g.0, g.1, Some([]))];
  }

  /** A continuation without a new get: only fetches under way come back. */
  predicate Quiet(events: seq<Event>, after: seq<Event>, ttlMs: int) {
    Real(events + after, ttlMs) && forall i :: 0 <= i < |after| ==> after[i].Finish?
  }

  lemma QuietIff(events: seq<Event>, after: seq<Event>, ttlMs: int)
    requires Real(events, ttlMs)
    ensures Quiet(events, after, ttlMs) <==> Returns(Pending(events, ttlMs), after)
    ensures Quiet(events, after, ttlMs) ==> Run(events + after, ttlMs) == ComesTo(Run(events, ttlMs), after)
  {
    if Quiet(events, after, ttlMs) {
      RealRunsReturn(events, after, ttlMs);
    }
    if Returns(Pending(events, ttlMs), after) {
      ReturnsAreRuns(events, after, events + after, ttlMs);
    }
  }

  /** "So the next get must go to the network": nothing that was under way undoes the invalidation. */
  ghost predicate InvalidationHolds(events: seq<Event>, ttlMs: int) {
    forall after :: Quiet(events + [Invalidate], after, ttlMs) ==> Run(events + [Invalidate] + after, ttlMs).data.None?
  }

  /** That is so iff no fetch is under way when the cache is invalidated. */
  lemma InvalidationHoldsIff(events: seq<Event>, ttlMs: int)
    requires Real(events, ttlMs)
    ensures InvalidationHolds(events, ttlMs) <==> Pending(events, ttlMs) == multiset{}
  {
    var dropped, pending := events + [Invalidate], Pending(events, ttlMs);
    Snoc(events, Invalidate, ttlMs);
    if pending == multiset{} {
      forall after | Quiet(dropped, after, ttlMs) ensures Run(dropped + after, ttlMs).data.None? {
        QuietIff(dropped, after, ttlMs);
        LandedIsPending(Run(dropped, ttlMs), pending, after);
      }
    } else {
      var f :| f in pending;
      var after := [Finish(f.0, f.1, Some([]))];
      OneReturns(Run(dropped, ttlMs), pending, f, []);
      QuietIff(dropped, after, ttlMs);
    }
  }

  /** The list in place only ever gets newer: it was asked for no earlier than any list that came back,
      nor than the one that was there before. */
  predicate NewestAfter(s: State, r: State, after: seq<Event>) {
    && (forall i :: 0 <= i < |after| && Lands(after[i]) ==> after[i].t <= r.fetchedAtMs)
    && (s.data.Some? ==> s.fetchedAtMs <= r.fetchedAtMs)
  }

  ghost predicate NewestStays(events: seq<Event>, ttlMs: int) {
    forall after :: Quiet(events, after, ttlMs) ==>
      NewestAfter(Run(events, ttlMs), Run(events + after, ttlMs), after)
  }

  /** All the fetches under way were begun at one time, and none before the list in place. */
  ghost predicate InStep(s: State, pending: multiset<Fetch>) {
    && (forall f, g :: f in pending && g in pending ==> f.1 == g.1)
    && (s.data.Some? ==> forall f :: f in pending ==> s.fetchedAtMs <= f.1)
  }

  lemma InStepStaysNewest(s: State, pending: multiset<Fetch>, after: seq<Event>)
    requires InStep(s, pending) && Returns(pending, after)
    ensures forall i :: 0 <= i < |after| ==> after[i].Finish?
    ensures NewestAfter(s, ComesTo(s, after), after)
  {
    LandedIsPending(s, pending, after);
    forall i | 0 <= i < |after| && Lands(after[i]) ensures after[i].t <= ComesTo(s, after).fetchedAtMs {
      assert (after[i].reason, after[i].t) in pending;
    }
  }

  /** Out of step: let the newer of two fetches come back first, or one that is older than the list in place. */
  lemma OutOfStepGoesBack(s: State, pending: multiset<Fetch>) returns (after: seq<Event>)
    requires !InStep(s, pending)
    ensures Returns(pending, after) && forall i :: 0 <= i < |after| ==> after[i].Finish?
    ensures !NewestAfter(s, ComesTo(s, after), after)
  {
    if f, g :| f in pending && g in pending && f.1 < g.1 {
      after := [Finish(g.0, g.1, Some([])), Finish(f.0, f.1, Some([]))];
      TwoReturn(s, pending, g, f, after);
      assert Lands(after[0]) && after[0].t == g.1;
    } else {
      var f :| f in pending && f.1 < s.fetchedAtMs;
      OneReturns(s, pending, f, []);
      after := [Finish(f.0, f.1, Some([]))];
    }
  }

  /** The last fetch to land wins; so the list in place never gets older, in whatever order the fetches
      under way come back, iff they are in step. */
  lemma NewestStaysIff(events: seq<Event>, ttlMs: int)
    requires Real(events, ttlMs)
    ensures NewestStays(events, ttlMs) <==> InStep(Run(events, ttlMs), Pending(events, ttlMs))
  {
    var s, pending := Run(events, ttlMs), Pending(events, ttlMs);
    if InStep(s, pending) {
      forall after | Quiet(events, after, ttlMs) ensures NewestAfter(s, Run(events + after, ttlMs), after) {
        QuietIff(events, after, ttlMs);
        InStepStaysNewest(s, pending, after);
      }
    } else {
      var after := OutOfStepGoesBack(s, pending);
      QuietIff(events, after, ttlMs);
    }
  }

  /** With new gets in between as well: after an invalidation nothing is cached until a list lands. */
  lemma EmptyUntilAListLands(events: seq<Event>, after: seq<Event>, required: seq<string>, now: int, ttlMs: int)
    requires forall e :: e in after ==> !e.Invalidate?
    ensures Run(events + [Invalidate] + after, ttlMs).data.None? <==> forall e :: e in after ==> !Lands(e)
    ensures (forall e :: e in after ==> !Lands(e)) ==>
      Need(Run(events + [Invalidate] + after, ttlMs), required, now, ttlMs) == Some(Age)
  {
    var all, n := events + [Invalidate] + after, |events|;
    var i := ListInPlace(all, ttlMs);
    assert all[n].Invalidate? && all[n + 1..] == after;
    if Run(all, ttlMs).data.Some? {
      assert i > n && all[i] == after[i - n - 1];
    }
  }
}
