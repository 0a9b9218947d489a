/** The bounded token-identity cache, the unbounded TTL map it stands for, and its use in resolving a
    query. */
module TokenIdentity {
  import opened JsMap
  import opened JsString
  import opened Prelude

  const CACHE_TTL_MS := 10 * 60_000
  const NEGATIVE_TTL_MS := 60_000
  const CACHE_MAX_ENTRIES := 2000

  datatype Source = Jupiter | JupiterAndTokensXyz

  datatype Identity = Identity(mint: string, symbol: string, name: string, verified: bool, source: Source)

  datatype IdentityResult = Found(identity: Identity) | NotFound | UpstreamError(detail: string)

  datatype Timed = Timed(at: int, value: IdentityResult)

  type Cache = seq<Entry<Timed>>

  predicate Expired(t: Timed, now: int) {
    now - t.at > if t.value.Found? then CACHE_TTL_MS else NEGATIVE_TTL_MS
  }

  // ---- Keys ---------------------------------------------------------------------------------------

  predicate Base58Char(c: char) {
    '1' <= c <= '9' || 'A' <= c <= 'H' || 'J' <= c <= 'N' || 'P' <= c <= 'Z' || 'a' <= c <= 'k' || 'm' <= c <= 'z'
  }

  predicate IsAddress(q: string) {
    32 <= |q| <= 44 && All(q, Base58Char)
  }

  /** Addresses exactly, names folded; `fold` is toLowerCase. */
  function CacheKeyFor(query: string, fold: string -> string): string {
    var q := Trim(query);
    if IsAddress(q) then "a:" + q else "n:" + fold(q)
  }

  /** However names are folded, an address shares its key with nothing but itself, and the trimming
      done by the caller makes no difference. */
  lemma AddressesKeepTheirKeys(q: string, other: string, fold: string -> string)
    requires IsAddress(Trim(q))
    ensures CacheKeyFor(q, fold) == CacheKeyFor(other, fold) <==> Trim(q) == Trim(other)
    ensures CacheKeyFor(Trim(q), fold) == CacheKeyFor(q, fold)
  {
    TrimTwice(q);
    var k, o := CacheKeyFor(q, fold), CacheKeyFor(other, fold);
    assert k[0] == 'a' && k[2..] == Trim(q);
    if IsAddress(Trim(other)) {
      assert o[2..] == Trim(other);
    } else {
      assert o[0] == 'n';
    }
  }

  /** Two names share a key iff they fold to the same, white space around them aside. */
  lemma NamesShareKeysIffFolded(q: string, other: string, fold: string -> string)
    requires !IsAddress(Trim(q)) && !IsAddress(Trim(other))
    ensures CacheKeyFor(q, fold) == CacheKeyFor(other, fold) <==> fold(Trim(q)) == fold(Trim(other))
  {
    var k, o := CacheKeyFor(q, fold), CacheKeyFor(other, fold);
    assert k[2..] == fold(Trim(q)) && o[2..] == fold(Trim(other));
  }

  /** An address is 32 to 44 letters and digits other than 0, O, I and l. */
  lemma AddressMeans(q: string)
    ensures IsAddress(q) <==> 32 <= |q| <= 44 && forall i :: 0 <= i < |q| ==> IsLetterOrDigit(q[i]) && q[i] !in "0OIl"
  {
    forall i | 0 <= i < |q| ensures Base58Char(q[i]) <==> IsLetterOrDigit(q[i]) && q[i] !in "0OIl" {
    }
  }

  predicate IsLetterOrDigit(c: char) {
    '0' <= c <= '9' || 'A' <= c <= 'Z' || 'a' <= c <= 'z'
  }

  // ---- The cache ------------------------------------------------------------------------------------

  /** What a lookup answers. */
  function Hit(es: Cache, key: string, now: int): Option<IdentityResult> {
    match Get(es, key)
    case Some(t) => if Expired(t, now) then None else Some(t.value)
    case None => None
  }

  /** A lookup drops an expired entry and moves a live one to the back. */
  function AfterGet(es: Cache, key: string, now: int): Cache {
    match Get(es, key)
    case Some(t) => if Expired(t, now) then Delete(es, key) else Delete(es, key) + [Entry(key, t)]
    case None => es
  }

  /** A store keeps the place of a present key, and the oldest placed entries make room. */
  function AfterSet(es: Cache, key: string, value: IdentityResult, at: int): Cache {
    if value.UpstreamError? then es
    else
      var stored := Set(es, key, Timed(at, value));
      stored[Max(0, |stored| - CACHE_MAX_ENTRIES)..]
  }

  class IdentityCache {
    var entries: Cache

    constructor ()
      ensures entries == []
    {
      entries := [];
    }

    method CacheGet(key: string, now: int) returns (hit: Option<IdentityResult>)
      requires UniqueKeys(entries)
      modifies this
      ensures hit == Hit(old(entries), key, now)
      ensures entries == AfterGet(old(entries), key, now)
    {
      var e := Get(entries, key);
      if e.None? { return None; }
      var ttl := if e.value.value.Found? then CACHE_TTL_MS else NEGATIVE_TTL_MS;
      if now - e.value.at > ttl {
        entries := Delete(entries, key);
        return None;
      }
      entries := Delete(entries, key);
      GetDelete(old(entries), key, key);
      entries := Set(entries, key, e.value);
      return Some(e.value.value);
    }

    method CacheSet(key: string, value: IdentityResult, now: int)
      modifies this
      ensures entries == AfterSet(old(entries), key, value, now)
    {
      if value.UpstreamError? { return; }
      entries := Set(entries, key, Timed(now, value));
      ghost var stored := entries;
      ghost var dropped := 0;
      while |entries| > CACHE_MAX_ENTRIES
        invariant 0 <= dropped <= Max(0, |stored| - CACHE_MAX_ENTRIES)
        invariant entries == stored[dropped..]
        decreases |entries|
      {
        entries := entries[1..];
        dropped := dropped + 1;
      }
    }
  }

  // ---- Runs ---------------------------------------------------------------------------------------

  /** Lookups happen on the clock; a store carries the time at which its lookup was made. */
  datatype Event = Look(key: string, now: int) | Store(key: string, value: IdentityResult, at: int)

  /** The cache, with a record of at which event a key last went to the back, and of the keys that were
      pushed out and not stored since. */
  datatype World = World(es: Cache, placed: map<string, nat>, evicted: set<string>)

  /** Which keys an event sends to the back: a live one looked up, or a new one stored. */
  predicate Places(es: Cache, e: Event) {
    match e
    case Look(key, now) => Hit(es, key, now).Some?
    case Store(key, value, _) => !value.UpstreamError? && !Has(es, key)
  }

  /** The key a store pushes out. */
  function PushedOut(es: Cache, e: Event): set<string> {
    if Places(es, e) && e.Store? && |es| >= CACHE_MAX_ENTRIES then {es[0].key} else {}
  }

  function Apply(w: World, e: Event, n: nat): World {
    var placed := if Places(w.es, e) then w.placed[e.key := n] else w.placed;
    match e
    case Look(key, now) => World(AfterGet(w.es, key, now), placed, w.evicted)
    case Store(key, value, at) =>
      if value.UpstreamError? then w
      else World(AfterSet(w.es, key, value, at), placed, w.evicted - {key} + PushedOut(w.es, e))
  }

  function Run(events: seq<Event>): World {
    if events == [] then World([], map[], {})
    else Apply(Run(events[..|events| - 1]), events[|events| - 1], |events| - 1)
  }

  predicate Keeps(e: Event, key: string) {
    e.Store? && e.key == key && !e.value.UpstreamError?
  }

  /** The unbounded map: every store that is not an upstream error, and nothing is ever dropped. */
  function Full(events: seq<Event>): map<string, Timed> {
    if events == [] then map[]
    else
      var full, e := Full(events[..|events| - 1]), events[|events| - 1];
      if Keeps(e, e.key) then full[e.key := Timed(e.at, e.value)] else full
  }

  /** What the unbounded map answers. */
  function FullHit(full: map<string, Timed>, key: string, now: int): Option<IdentityResult> {
    if key in full && !Expired(full[key], now) then Some(full[key].value) else None
  }

  /** Every entry is the last value stored under its key. */
  ghost predicate Latest(es: Cache, full: map<string, Timed>) {
    forall i :: 0 <= i < |es| ==> es[i].key in full && full[es[i].key] == es[i].value
  }

  /** The entries stand in the order in which their keys were last placed, all before event n. */
  ghost predicate InOrder(es: Cache, placed: map<string, nat>, n: nat) {
    && (forall i :: 0 <= i < |es| ==> es[i].key in placed && placed[es[i].key] < n)
    && (forall i, j :: 0 <= i < j < |es| ==> placed[es[i].key] < placed[es[j].key])
  }

  ghost predicate NoErrors(full: map<string, Timed>) {
    forall key :: key in full ==> !full[key].value.UpstreamError?
  }

  ghost predicate Kept(es: Cache, full: map<string, Timed>, placed: map<string, nat>, n: nat) {
    && UniqueKeys(es) && |es| <= CACHE_MAX_ENTRIES
    && Latest(es, full) && NoErrors(full) && InOrder(es, placed, n)
  }

  ghost predicate Sound(events: seq<Event>) {
    Kept(Run(events).es, Full(events), Run(events).placed, |events|)
  }

  lemma DeleteKeepsLatest(es: Cache, key: string, full: map<string, Timed>)
    requires UniqueKeys(es) && Latest(es, full)
    ensures UniqueKeys(Delete(es, key)) && Latest(Delete(es, key), full)
    ensures forall i :: 0 <= i < |Delete(es, key)| ==> Delete(es, key)[i].key != key
  {
    GetDelete(es, key, key);
    forall i | 0 <= i < |Delete(es, key)|
      ensures Delete(es, key)[i].key != key && Delete(es, key)[i] in es
    {
      DeleteLeaves(es, key, i);
    }
  }

  lemma DeleteKeepsOrder(es: Cache, key: string, placed: map<string, nat>, n: nat)
    requires UniqueKeys(es) && InOrder(es, placed, n)
    ensures InOrder(Delete(es, key), placed, n)
  {
    var at, d := IndexOf(es, key), Delete(es, key);
    forall i | 0 <= i < |d|
      ensures d[i] == es[if i < at then i else i + 1]
    {
      DeleteLeaves(es, key, i);
    }
  }

  lemma AppendKeepsOrder(es: Cache, e: Entry<Timed>, full: map<string, Timed>, placed: map<string, nat>, n: nat)
    requires UniqueKeys(es) && Latest(es, full) && InOrder(es, placed, n)
    requires forall i :: 0 <= i < |es| ==> es[i].key != e.key
    ensures UniqueKeys(es + [e]) && Latest(es + [e], full[e.key := e.value])
    ensures InOrder(es + [e], placed[e.key := n], n + 1)
  {
  }

  lemma LookKeeps(es: Cache, key: string, now: int, full: map<string, Timed>, placed: map<string, nat>, n: nat)
    requires Kept(es, full, placed, n)
    ensures Kept(AfterGet(es, key, now), full, if Places(es, Look(key, now)) then placed[key := n] else placed, n + 1)
  {
    var i := IndexOf(es, key);
    if i < |es| {
      DeleteKeepsLatest(es, key, full);
      DeleteKeepsOrder(es, key, placed, n);
      AppendKeepsOrder(Delete(es, key), es[i], full, placed, n);
      assert full[key := es[i].value] == full;
    }
  }

  lemma StoreOver(es: Cache, key: string, value: IdentityResult, at: int,
                  full: map<string, Timed>, placed: map<string, nat>, n: nat)
    requires Kept(es, full, placed, n) && Has(es, key) && !value.UpstreamError?
    ensures Kept(AfterSet(es, key, value, at), full[key := Timed(at, value)], placed, n + 1)
  {
    ReplaceKeepsOrder(es, key, Timed(at, value), full, placed, n);
    assert AfterSet(es, key, value, at) == Set(es, key, Timed(at, value));
  }

  lemma StoreNew(es: Cache, key: string, value: IdentityResult, at: int,
                 full: map<string, Timed>, placed: map<string, nat>, n: nat)
    requires Kept(es, full, placed, n) && !Has(es, key) && !value.UpstreamError?
    ensures Kept(AfterSet(es, key, value, at), full[key := Timed(at, value)], placed[key := n], n + 1)
  {
    var t := Timed(at, value);
    var all := es + [Entry(key, t)];
    AppendKeepsOrder(es, Entry(key, t), full, placed, n);
    DropKeepsOrder(all, Max(0, |all| - CACHE_MAX_ENTRIES), full[key := t], placed[key := n], n + 1);
  }

  lemma ReplaceKeepsOrder(es: Cache, key: string, t: Timed, full: map<string, Timed>, placed: map<string, nat>, n: nat)
    requires UniqueKeys(es) && Latest(es, full) && InOrder(es, placed, n) && Has(es, key)
    ensures UniqueKeys(Set(es, key, t)) && Latest(Set(es, key, t), full[key := t]) && InOrder(Set(es, key, t), placed, n)
  {
  }

  lemma DropKeepsOrder(es: Cache, k: nat, full: map<string, Timed>, placed: map<string, nat>, n: nat)
    requires UniqueKeys(es) && Latest(es, full) && InOrder(es, placed, n) && k <= |es|
    ensures UniqueKeys(es[k..]) && Latest(es[k..], full) && InOrder(es[k..], placed, n)
  {
  }

  /** After any run: at most 2000 entries, each the last value stored under its key, none an upstream
      error, in the order in which they were last sent to the back. */
  lemma {:induction false} RunIsSound(events: seq<Event>)
    ensures Sound(events)
  {
    if events != [] {
      var before, e := events[..|events| - 1], events[|events| - 1];
      RunIsSound(before);
      var w, full, n := Run(before), Full(before), |before|;
      if e.Look? {
        LookKeeps(w.es, e.key, e.now, full, w.placed, n);
      } else if !e.value.UpstreamError? {
        if Has(w.es, e.key) {
          StoreOver(w.es, e.key, e.value, e.at, full, w.placed, n);
        } else {
          StoreNew(w.es, e.key, e.value, e.at, full, w.placed, n);
        }
      }
    }
  }

  // ---- The cache against the unbounded map -----------------------------------------------------------

  /** Event i is the last store under the key that was not an upstream error. */
  ghost predicate IsLastStore(events: seq<Event>, key: string, i: nat) {
    && i < |events| && Keeps(events[i], key)
    && forall j :: i < j < |events| ==> !Keeps(events[j], key)
  }

  lemma {:induction false} FullHoldsLastStore(events: seq<Event>, key: string) returns (i: nat)
    requires key in Full(events)
    ensures IsLastStore(events, key, i)
    ensures Full(events)[key] == Timed(events[i].at, events[i].value)
    decreases |events|
  {
    var n := |events| - 1;
    if Keeps(events[n], key) {
      i := n;
    } else {
      i := FullHoldsLastStore(events[..n], key);
    }
  }

  lemma EntryIsFull(events: seq<Event>, key: string)
    requires Has(Run(events).es, key)
    ensures key in Full(events) && Get(Run(events).es, key) == Some(Full(events)[key])
    ensures !Full(events)[key].value.UpstreamError?
  {
    RunIsSound(events);
  }

  /** Whatever the clock does, a hit is the last value stored under the key, no older than its kind's
      TTL, and never an upstream error; the unbounded map would have answered the same. */
  lemma HitIsLastStored(events: seq<Event>, key: string, now: int)
    requires Hit(Run(events).es, key, now).Some?
    ensures Hit(Run(events).es, key, now) == FullHit(Full(events), key, now)
    ensures exists i: nat :: IsLastStore(events, key, i) && Answers(Hit(Run(events).es, key, now), events[i], now)
  {
    EntryIsFull(events, key);
    var i := FullHoldsLastStore(events, key);
  }

  /** The answer is the stored value, and the store is no older than its kind's TTL. */
  predicate Answers(hit: Option<IdentityResult>, e: Event, now: int) {
    e.Store? && hit == Some(e.value) && now - e.at <= if e.value.Found? then 600_000 else 60_000
  }

  lemma HasAfterGet(es: Cache, k: string, now: int, key: string)
    requires UniqueKeys(es)
    ensures Has(AfterGet(es, k, now), key) <==> Has(es, key) && (key == k ==> !Expired(es[IndexOf(es, k)].value, now))
  {
    GetDelete(es, k, key);
    if Has(es, k) && !Expired(es[IndexOf(es, k)].value, now) {
      var d := Delete(es, k);
      var all := d + [es[IndexOf(es, k)]];
      if key == k {
        IndexIs(all, k, |d|);
      } else {
        IndexIs(all, key, if Has(d, key) then IndexOf(d, key) else |all|);
      }
    }
  }

  lemma HasAfterDrop(es: Cache, key: string)
    requires UniqueKeys(es) && es != []
    ensures Has(es[1..], key) <==> Has(es, key) && key != es[0].key
  {
    IndexIs(es[1..], key, if key == es[0].key || !Has(es, key) then |es| - 1 else IndexOf(es, key) - 1);
  }

  lemma HasAfterSet(es: Cache, k: string, value: IdentityResult, at: int, key: string)
    requires UniqueKeys(es) && |es| <= CACHE_MAX_ENTRIES && !value.UpstreamError?
    ensures Has(AfterSet(es, k, value, at), key)
       <==> (Has(es, key) || key == k) && key !in PushedOut(es, Store(k, value, at))
  {
    var stored := Set(es, k, Timed(at, value));
    GetSet(es, k, Timed(at, value), key);
    assert Has(stored, key) <==> Has(es, key) || key == k;
    if |stored| > CACHE_MAX_ENTRIES {
      SetDistinct(es, k, Timed(at, value));
      HasAfterDrop(stored, key);
      assert stored[0] == es[0];
    }
  }

  /** A key missing although the unbounded map holds it was pushed out, or has expired. */
  ghost predicate Lost(w: World, full: map<string, Timed>, key: string, now: int) {
    key in full && !Has(w.es, key) ==> key in w.evicted || Expired(full[key], now)
  }

  lemma LookLoses(w: World, full: map<string, Timed>, k: string, t: int, key: string, now: int, n: nat)
    requires Kept(w.es, full, w.placed, n) && Lost(w, full, key, now) && t <= now
    ensures Lost(Apply(w, Look(k, t), n), full, key, now)
  {
    HasAfterGet(w.es, k, t, key);
  }

  lemma StoreLoses(w: World, full: map<string, Timed>, e: Event, key: string, now: int, n: nat)
    requires Kept(w.es, full, w.placed, n) && Lost(w, full, key, now) && Keeps(e, e.key)
    ensures Lost(Apply(w, e, n), full[e.key := Timed(e.at, e.value)], key, now)
  {
    HasAfterSet(w.es, e.key, e.value, e.at, key);
  }

  lemma {:induction false} MissingIsLost(events: seq<Event>, key: string, now: int)
    requires forall i :: 0 <= i < |events| && events[i].Look? ==> events[i].now <= now
    ensures Lost(Run(events), Full(events), key, now)
    decreases |events|
  {
    if events != [] {
      var before, e := events[..|events| - 1], events[|events| - 1];
      MissingIsLost(before, key, now);
      RunIsSound(before);
      if e.Look? {
        LookLoses(Run(before), Full(before), e.key, e.now, key, now, |before|);
      } else if Keeps(e, e.key) {
        StoreLoses(Run(before), Full(before), e, key, now, |before|);
      }
    }
  }

  /** The cache answers less than the unbounded map only for keys it pushed out and has not stored since. */
  lemma {:induction false} OnlyEvictionLoses(events: seq<Event>, key: string, now: int)
    requires forall i :: 0 <= i < |events| && events[i].Look? ==> events[i].now <= now
    requires FullHit(Full(events), key, now).Some? && Hit(Run(events).es, key, now).None?
    ensures key in Run(events).evicted
  {
    MissingIsLost(events, key, now);
    if Has(Run(events).es, key) {
      EntryIsFull(events, key);
    }
  }

  /** And the other way round: what was stored last under a key is found until its TTL has passed, unless
      the key was pushed out since. */
  lemma KeptIsFound(events: seq<Event>, key: string, i: nat, now: int)
    requires forall j :: 0 <= j < |events| && events[j].Look? ==> events[j].now <= now
    requires IsLastStore(events, key, i) && key !in Run(events).evicted
    ensures Hit(Run(events).es, key, now)
         == if now - events[i].at <= (if events[i].value.Found? then 600_000 else 60_000) then Some(events[i].value) else None
  {
    StoredIsFull(events, key, i);
    if FullHit(Full(events), key, now).Some? {
      if Hit(Run(events).es, key, now).None? {
        OnlyEvictionLoses(events, key, now);
      }
      HitIsLastStored(events, key, now);
    } else if Has(Run(events).es, key) {
      EntryIsFull(events, key);
    }
  }

  lemma {:induction false} StoredIsFull(events: seq<Event>, key: string, i: nat)
    requires IsLastStore(events, key, i)
    ensures key in Full(events) && Full(events)[key] == Timed(events[i].at, events[i].value)
    decreases |events|
  {
    var n := |events| - 1;
    if i < n {
      StoredIsFull(events[..n], key, i);
    }
  }

  // ---- Which key is pushed out ------------------------------------------------------------------------

  /** Event j sent this key to the back. */
  predicate PlacedAt(events: seq<Event>, j: nat, key: string)
    requires j < |events|
  {
    SentBack(Run(events[..j]).es, events[j], key)
  }

  /** A lookup that found the key, or a store under it when it was not there. */
  predicate SentBack(es: Cache, e: Event, key: string) {
    && e.key == key
    && (e.Look? ==> Hit(es, key, e.now).Some?)
    && (e.Store? ==> !e.value.UpstreamError? && Get(es, key).None?)
  }

  /** Event m was the last to send this key to the back. */
  ghost predicate LastPlacing(events: seq<Event>, key: string, m: nat) {
    && m < |events| && PlacedAt(events, m, key)
    && forall j :: m < j < |events| ==> !PlacedAt(events, j, key)
  }

  lemma PlacedAtPrefix(events: seq<Event>, n: nat, j: nat, key: string)
    requires j < n <= |events|
    ensures PlacedAt(events[..n], j, key) == PlacedAt(events, j, key)
  {
    assert events[..n][..j] == events[..j];
  }

  lemma StillLast(events: seq<Event>, n: nat, key: string, m: nat)
    requires |events| == n + 1 && !PlacedAt(events, n, key) && LastPlacing(events[..n], key, m)
    ensures LastPlacing(events, key, m)
  {
    forall j | 0 <= j < n
      ensures PlacedAt(events[..n], j, key) == PlacedAt(events, j, key)
    {
      PlacedAtPrefix(events, n, j, key);
    }
  }

  lemma PlacedStep(w: World, e: Event, n: nat, key: string)
    ensures e.key == key && Places(w.es, e) ==> key in Apply(w, e, n).placed && Apply(w, e, n).placed[key] == n
    ensures !(e.key == key && Places(w.es, e)) && key in Apply(w, e, n).placed ==>
      key in w.placed && Apply(w, e, n).placed[key] == w.placed[key]
  {
  }

  lemma PlacedByLast(events: seq<Event>, n: nat, key: string)
    requires |events| == n + 1
    ensures PlacedAt(events, n, key) ==> key in Run(events).placed && Run(events).placed[key] == n
    ensures !PlacedAt(events, n, key) && key in Run(events).placed ==>
      key in Run(events[..n]).placed && Run(events).placed[key] == Run(events[..n]).placed[key]
  {
    PlacedStep(Run(events[..n]), events[n], n, key);
  }

  /** `placed` is the last event that sent the key to the back. */
  lemma {:induction false} PlacedMeans(events: seq<Event>, key: string, m: nat)
    requires key in Run(events).placed && m == Run(events).placed[key]
    ensures LastPlacing(events, key, m)
    decreases |events|
  {
    var n := |events| - 1;
    PlacedByLast(events, n, key);
    if !PlacedAt(events, n, key) {
      PlacedMeans(events[..n], key, m);
      StillLast(events, n, key, m);
    }
  }

  /** A key is pushed out only by a new key, and only while 1999 other keys, all looked up live or
      newly stored after it, are in the cache. */
  lemma PushesOutLeastRecent(events: seq<Event>, e: Event, key: string)
    requires key in PushedOut(Run(events).es, e)
    ensures var w := Run(events);
      && |w.es| == CACHE_MAX_ENTRIES && w.es[0].key == key && !Has(w.es, e.key)
      && key in w.placed
      && forall i :: 0 < i < |w.es| ==> w.es[i].key in w.placed && w.placed[key] < w.placed[w.es[i].key]
  {
    RunIsSound(events);
  }

  /** Storing over a present key refreshes its age but not its place: it may be the next to go. */
  lemma JustStoredIsPushedOut(es: Cache, value: IdentityResult, at: int, other: string, value': IdentityResult, at': int)
    requires UniqueKeys(es) && |es| == CACHE_MAX_ENTRIES && !Has(es, other)
    requires !value.UpstreamError? && !value'.UpstreamError?
    ensures Hit(AfterSet(es, es[0].key, value, at), es[0].key, at) == Some(value)
    ensures !Has(AfterSet(AfterSet(es, es[0].key, value, at), other, value', at'), es[0].key)
  {
    var key := es[0].key;
    IndexIs(es, key, 0);
    var stored := AfterSet(es, key, value, at);
    assert stored == es[0 := Entry(key, Timed(at, value))];
    IndexIs(stored, other, |stored|);
    IndexIs(stored, key, 0);
    HasAfterSet(stored, other, value', at', key);
  }
}
