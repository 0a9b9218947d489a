/** Planning of the second settle leg: who is eligible, in which order, in which batches. */
module SettlePlan {
  import opened JsString
  import opened Prelude
  import opened StableSort

  const FANOUT_CHUNK_SIZE := 4
  const FANOUT_MAX_PER_TICK := 150

  datatype Vault = Vault(key: string, market: string, expiry: int, isSettled: bool, voided: bool)
  datatype Market = Market(key: string, assetName: string)
  datatype Record = Record(assetName: string, expiry: int)

  // ---- Asset names ---------------------------------------------------------------------

  predicate IsNul(c: char) { c == '\0' }

  function CleanAssetName(s: string): string {
    TrimEnd(TrimEnd(s, IsNul), IsSpace)
  }

  /** Space padding and then NUL padding is removed exactly, so padded names compare equal. */
  lemma PaddingIsRemoved(base: string, spaces: string, nuls: string)
    requires All(spaces, IsSpace) && All(nuls, IsNul)
    requires !EndsWith(base, IsSpace) && !EndsWith(base, IsNul)
    ensures CleanAssetName(base + spaces + nuls) == base
  {
    assert !EndsWith(base + spaces, IsNul) by {
      if spaces != [] {
        assert IsSpace(spaces[|spaces| - 1]);
      }
    }
    TrimEndPadding(base + spaces, nuls, IsNul);
    TrimEndPadding(base, spaces, IsSpace);
  }

  /** Cleaning twice changes nothing iff the cleaned name does not end in a NUL. */
  lemma CleanIsIdempotentIff(s: string)
    ensures CleanAssetName(CleanAssetName(s)) == CleanAssetName(s) <==> !EndsWith(CleanAssetName(s), IsNul)
  {
    var c := CleanAssetName(s);
    var _ := TrimEndSplits(TrimEnd(s, IsNul), IsSpace);
    if EndsWith(c, IsNul) {
      var pad := TrimEndSplits(c, IsNul);
      var pad' := TrimEndSplits(TrimEnd(c, IsNul), IsSpace);
      assert |CleanAssetName(c)| <= |TrimEnd(c, IsNul)| < |c|;
    }
  }

  /** A NUL in front of the spaces survives: NULs are only looked for at the very end. */
  lemma NulBeforeSpacesSurvives(base: string, spaces: string)
    requires spaces != [] && All(spaces, IsSpace)
    ensures CleanAssetName(base + "\0" + spaces) == base + "\0"
  {
    var s := base + "\0" + spaces;
    assert s[|s| - 1] == spaces[|spaces| - 1];
    TrimEndPadding(s, [], IsNul);
    assert s + [] == s;
    TrimEndPadding(base + "\0", spaces, IsSpace);
  }

  // ---- Eligibility ------------------------------------------------------------------------

  datatype Class = Eligible | NotExpired | AlreadySettled | Voided | NoRecord | UnknownMarket

  /** The Map filled in a loop: a later market with the same key wins. */
  function AssetByMarket(markets: seq<Market>): map<string, string> {
    if markets == [] then map[]
    else
      var m := markets[|markets| - 1];
      AssetByMarket(markets[..|markets| - 1])[m.key := CleanAssetName(m.assetName)]
  }

  function HaveRecord(records: seq<Record>): set<(string, int)> {
    set r | r in records :: (CleanAssetName(r.assetName), r.expiry)
  }

  datatype Board = Board(vaults: seq<Vault>, markets: seq<Market>, records: seq<Record>, nowSecs: int)

  function Classify(b: Board, v: Vault): Class {
    var assets := AssetByMarket(b.markets);
    if v.expiry > b.nowSecs then NotExpired
    else if v.isSettled then AlreadySettled
    else if v.voided then Voided
    else if v.market !in assets then UnknownMarket
    else if (assets[v.market], v.expiry) !in HaveRecord(b.records) then NoRecord
    else Eligible
  }

  /** The vaults of one class, in board order. */
  function OfClass(b: Board, vaults: seq<Vault>, c: Class): seq<Vault> {
    if vaults == [] then []
    else
      var v := vaults[|vaults| - 1];
      OfClass(b, vaults[..|vaults| - 1], c) + (if Classify(b, v) == c then [v] else [])
  }

  function EligibleVaults(b: Board): seq<Vault> {
    OfClass(b, b.vaults, Eligible)
  }

  datatype Skips = Skips(notExpired: nat, alreadySettled: nat, voided: nat, noRecord: nat, unknownMarket: nat)

  datatype Plan = Plan(targets: seq<Vault>, skipped: Skips, eligibleTotal: nat)

  function SkipsOf(b: Board, vaults: seq<Vault>): Skips {
    Skips(|OfClass(b, vaults, NotExpired)|, |OfClass(b, vaults, AlreadySettled)|, |OfClass(b, vaults, Voided)|,
          |OfClass(b, vaults, NoRecord)|, |OfClass(b, vaults, UnknownMarket)|)
  }

  /** Oldest expiry first, ties by the collation rank of the market. */
  function PlanKey(rank: string -> int): Vault -> Key {
    (v: Vault) => Key(v.expiry, rank(v.market))
  }

  /** Array.prototype.slice(0, n). */
  function SliceTo<T>(s: seq<T>, n: int): seq<T> {
    if n < 0 then s[..Max(0, |s| + n)] else s[..Min(n, |s|)]
  }

  /** planSettleFanout: the market map, the loop over the vaults, the sort, the ceiling. */
  method PlanSettleFanout(b: Board, maxPerTick: Option<int>, rank: string -> int) returns (plan: Plan)
    ensures plan.eligibleTotal == |EligibleVaults(b)| && plan.skipped == SkipsOf(b, b.vaults)
    ensures plan.targets == SliceTo(Sort(EligibleVaults(b), PlanKey(rank)),
                                    if maxPerTick.Some? then maxPerTick.value else FANOUT_MAX_PER_TICK)
    // The first ones: at most as many as asked for, 150 by default; a negative number leaves that many out.
    ensures plan.targets <= Sort(EligibleVaults(b), PlanKey(rank))
    ensures |plan.targets| == match maxPerTick
                              case None => Min(150, plan.eligibleTotal)
                              case Some(n) => if n >= 0 then Min(n, plan.eligibleTotal) else Max(0, plan.eligibleTotal + n)
  {
    var assetByMarket: map<string, string> := map[];
    for i := 0 to |b.markets|
      invariant assetByMarket == AssetByMarket(b.markets[..i])
    {
      assetByMarket := assetByMarket[b.markets[i].key := CleanAssetName(b.markets[i].assetName)];
      assert b.markets[..i + 1][..i] == b.markets[..i];
    }
    assert b.markets[..|b.markets|] == b.markets;
    var eligible, skipped := Partition(b, assetByMarket, HaveRecord(b.records));
    var sorted := Sort(eligible, PlanKey(rank));
    var ceiling := if maxPerTick.Some? then maxPerTick.value else FANOUT_MAX_PER_TICK;
    plan := Plan(SliceTo(sorted, ceiling), skipped, |eligible|);
  }

  method Partition(b: Board, assetByMarket: map<string, string>, haveRecord: set<(string, int)>)
    returns (eligible: seq<Vault>, skipped: Skips)
    requires assetByMarket == AssetByMarket(b.markets) && haveRecord == HaveRecord(b.records)
    ensures eligible == EligibleVaults(b) && skipped == SkipsOf(b, b.vaults)
  {
    skipped := Skips(0, 0, 0, 0, 0);
    eligible := [];
    for i := 0 to |b.vaults|
      invariant eligible == EligibleUpTo(b, i) && skipped == SkipsOf(b, b.vaults[..i])
    {
      var v := b.vaults[i];
      OneMoreVault(b, i);
      if v.expiry > b.nowSecs { skipped := skipped.(notExpired := skipped.notExpired + 1); continue; }
      if v.isSettled { skipped := skipped.(alreadySettled := skipped.alreadySettled + 1); continue; }
      if v.voided { skipped := skipped.(voided := skipped.voided + 1); continue; }
      if v.market !in assetByMarket { skipped := skipped.(unknownMarket := skipped.unknownMarket + 1); continue; }
      var asset := assetByMarket[v.market];
      if (asset, v.expiry) !in haveRecord { skipped := skipped.(noRecord := skipped.noRecord + 1); continue; }
      eligible := eligible + [v];
    }
    assert b.vaults[..|b.vaults|] == b.vaults;
  }

  lemma OneMoreVault(b: Board, i: nat)
    requires i < |b.vaults|
    ensures var c, was, now := Classify(b, b.vaults[i]), SkipsOf(b, b.vaults[..i]), SkipsOf(b, b.vaults[..i + 1]);
      && now.notExpired == was.notExpired + (if c == NotExpired then 1 else 0)
      && now.alreadySettled == was.alreadySettled + (if c == AlreadySettled then 1 else 0)
      && now.voided == was.voided + (if c == Voided then 1 else 0)
      && now.noRecord == was.noRecord + (if c == NoRecord then 1 else 0)
      && now.unknownMarket == was.unknownMarket + (if c == UnknownMarket then 1 else 0)
      && EligibleUpTo(b, i + 1) == EligibleUpTo(b, i) + (if c == Eligible then [b.vaults[i]] else [])
  {
    assert b.vaults[..i + 1][..i] == b.vaults[..i];
  }

  function EligibleUpTo(b: Board, i: nat): seq<Vault>
    requires i <= |b.vaults|
  {
    OfClass(b, b.vaults[..i], Eligible)
  }

  /** Every vault is counted exactly once: skipped for one reason, or eligible. */
  lemma {:induction false} EveryVaultCounted(b: Board, vaults: seq<Vault>)
    ensures var s := SkipsOf(b, vaults);
      s.notExpired + s.alreadySettled + s.voided + s.noRecord + s.unknownMarket
      + |OfClass(b, vaults, Eligible)| == |vaults|
    decreases |vaults|
  {
    if vaults != [] {
      EveryVaultCounted(b, vaults[..|vaults| - 1]);
    }
  }

  lemma {:induction false} OfClassMembers(b: Board, vaults: seq<Vault>, c: Class)
    ensures forall v :: v in OfClass(b, vaults, c) <==> v in vaults && Classify(b, v) == c
    decreases |vaults|
  {
    if vaults != [] {
      var n := |vaults| - 1;
      OfClassMembers(b, vaults[..n], c);
      assert vaults == vaults[..n] + [vaults[n]];
    }
  }

  predicate IsLast(markets: seq<Market>, i: int, key: string) {
    0 <= i < |markets| && markets[i].key == key && forall j :: i < j < |markets| ==> markets[j].key != key
  }

  lemma {:induction false} KnownMarkets(markets: seq<Market>, key: string)
    ensures key in AssetByMarket(markets) <==> exists m :: m in markets && m.key == key
    decreases |markets|
  {
    if markets != [] {
      var n := |markets| - 1;
      KnownMarkets(markets[..n], key);
      assert markets == markets[..n] + [markets[n]];
    }
  }

  /** The map knows exactly the listed markets, and the last entry of a key wins. */
  lemma {:induction false} AssetOfLastMarket(markets: seq<Market>, key: string)
    ensures key in AssetByMarket(markets) <==> exists m :: m in markets && m.key == key
    ensures forall i :: IsLast(markets, i, key) ==>
      key in AssetByMarket(markets) && AssetByMarket(markets)[key] == CleanAssetName(markets[i].assetName)
  {
    KnownMarkets(markets, key);
    forall i | IsLast(markets, i, key)
      ensures key in AssetByMarket(markets) && AssetByMarket(markets)[key] == CleanAssetName(markets[i].assetName)
    {
      LastWins(markets, key, i);
    }
  }

  lemma {:induction false} LastWins(markets: seq<Market>, key: string, i: int)
    requires IsLast(markets, i, key)
    ensures key in AssetByMarket(markets) && AssetByMarket(markets)[key] == CleanAssetName(markets[i].assetName)
    decreases |markets|
  {
    if i < |markets| - 1 {
      LastWins(markets[..|markets| - 1], key, i);
    }
  }

  /** Every listed key has a last entry. */
  lemma {:induction false} LastMarket(markets: seq<Market>, key: string)
    ensures (exists i :: IsLast(markets, i, key)) <==> exists m :: m in markets && m.key == key
    decreases |markets|
  {
    if markets != [] {
      var n := |markets| - 1;
      LastMarket(markets[..n], key);
      if markets[n].key == key {
        assert IsLast(markets, n, key);
      } else if i :| IsLast(markets[..n], i, key) {
        assert IsLast(markets, i, key);
      }
    }
  }

  /** A vault is eligible iff it is on the board, expired, neither settled nor voided, and some record
      has its expiry and the cleaned name of its market, by that market's last entry. Nothing else, in
      particular no oracle source, is asked. */
  lemma EligibleExactly(b: Board, v: Vault)
    ensures v in EligibleVaults(b) <==>
      && v in b.vaults && v.expiry <= b.nowSecs && !v.isSettled && !v.voided
      && exists i, r :: IsLast(b.markets, i, v.market) && r in b.records
           && CleanAssetName(b.markets[i].assetName) == CleanAssetName(r.assetName) && r.expiry == v.expiry
  {
    OfClassMembers(b, b.vaults, Eligible);
    AssetOfLastMarket(b.markets, v.market);
    LastMarket(b.markets, v.market);
    if v.market in AssetByMarket(b.markets) {
      var asset := AssetByMarket(b.markets)[v.market];
      var i :| IsLast(b.markets, i, v.market);
      assert CleanAssetName(b.markets[i].assetName) == asset;
      if (asset, v.expiry) in HaveRecord(b.records) {
        var r :| r in b.records && (CleanAssetName(r.assetName), r.expiry) == (asset, v.expiry);
      }
    }
  }

  /** Why a vault is skipped, in terms of the board alone, each reason before the next. */
  lemma SkippedBecause(b: Board, v: Vault)
    ensures Classify(b, v) == NotExpired <==> v.expiry > b.nowSecs
    ensures Classify(b, v) == AlreadySettled <==> v.expiry <= b.nowSecs && v.isSettled
    ensures Classify(b, v) == Voided <==> v.expiry <= b.nowSecs && !v.isSettled && v.voided
    ensures Classify(b, v) == UnknownMarket <==> Open(b, v) && Unlisted(b, v)
    ensures Classify(b, v) == NoRecord <==> Open(b, v) && Unrecorded(b, v)
  {
    AssetOfLastMarket(b.markets, v.market);
    LastMarket(b.markets, v.market);
    if v.market in AssetByMarket(b.markets) {
      var i :| IsLast(b.markets, i, v.market);
      RecordOf(b, i, v);
      forall j | IsLast(b.markets, j, v.market) ensures j == i {
      }
    }
  }

  /** Expired, and neither settled nor voided. */
  predicate Open(b: Board, v: Vault) {
    v.expiry <= b.nowSecs && !v.isSettled && !v.voided
  }

  /** Its market is not listed. */
  ghost predicate Unlisted(b: Board, v: Vault) {
    forall m :: m in b.markets ==> m.key != v.market
  }

  /** Its market is listed, and no record has its expiry and the cleaned name of the market's last entry. */
  ghost predicate Unrecorded(b: Board, v: Vault) {
    exists i :: IsLast(b.markets, i, v.market) && NoRecordOf(b, i, v)
  }

  ghost predicate NoRecordOf(b: Board, i: int, v: Vault)
    requires 0 <= i < |b.markets|
  {
    forall r :: r in b.records ==>
      r.expiry != v.expiry || CleanAssetName(r.assetName) != CleanAssetName(b.markets[i].assetName)
  }

  lemma RecordOf(b: Board, i: int, v: Vault)
    requires 0 <= i < |b.markets|
    ensures NoRecordOf(b, i, v) <==> (CleanAssetName(b.markets[i].assetName), v.expiry) !in HaveRecord(b.records)
  {
    var asset := CleanAssetName(b.markets[i].assetName);
    if (asset, v.expiry) in HaveRecord(b.records) {
      var r :| r in b.records && (CleanAssetName(r.assetName), r.expiry) == (asset, v.expiry);
    }
  }

  /** The places on the board of the vaults of one class. */
  ghost function PlacesOf(b: Board, vaults: seq<Vault>, c: Class): set<int> {
    set i | 0 <= i < |vaults| && Classify(b, vaults[i]) == c
  }

  lemma {:induction false} ClassCount(b: Board, vaults: seq<Vault>, c: Class)
    ensures |OfClass(b, vaults, c)| == |PlacesOf(b, vaults, c)|
    decreases |vaults|
  {
    if vaults == [] {
      assert PlacesOf(b, vaults, c) == {};
    } else {
      var n := |vaults| - 1;
      ClassCount(b, vaults[..n], c);
      OneMore(PlacesOf(b, vaults[..n], c), PlacesOf(b, vaults, c), n, Classify(b, vaults[n]) == c);
    }
  }

  /** Every skip counter counts places on the board, by the vaults' own fields, the markets and the
      records. */
  lemma SkipsMean(b: Board)
    ensures var s, n, vs := SkipsOf(b, b.vaults), |b.vaults|, b.vaults;
      && s.notExpired == |set i | 0 <= i < n && vs[i].expiry > b.nowSecs|
      && s.alreadySettled == |set i | 0 <= i < n && vs[i].expiry <= b.nowSecs && vs[i].isSettled|
      && s.voided == |set i | 0 <= i < n && vs[i].expiry <= b.nowSecs && !vs[i].isSettled && vs[i].voided|
      && s.unknownMarket == |set i | 0 <= i < n && Open(b, vs[i]) && Unlisted(b, vs[i])|
      && s.noRecord == |set i | 0 <= i < n && Open(b, vs[i]) && Unrecorded(b, vs[i])|
  {
    var n, vs := |b.vaults|, b.vaults;
    forall i | 0 <= i < n { SkippedBecause(b, vs[i]); }
    forall c { ClassCount(b, vs, c); }
    assert PlacesOf(b, vs, NotExpired) == set i | 0 <= i < n && vs[i].expiry > b.nowSecs;
    assert PlacesOf(b, vs, AlreadySettled) == set i | 0 <= i < n && vs[i].expiry <= b.nowSecs && vs[i].isSettled;
    assert PlacesOf(b, vs, Voided) == set i | 0 <= i < n && vs[i].expiry <= b.nowSecs && !vs[i].isSettled && vs[i].voided;
    assert PlacesOf(b, vs, UnknownMarket)
        == set i | 0 <= i < n && Open(b, vs[i]) && Unlisted(b, vs[i]);
    assert PlacesOf(b, vs, NoRecord)
        == set i | 0 <= i < n && Open(b, vs[i]) && Unrecorded(b, vs[i]);
  }

  lemma {:induction false} ClassPlaces(b: Board, vaults: seq<Vault>, c: Class) returns (places: seq<nat>)
    ensures Selects(vaults, OfClass(b, vaults, c), places)
    ensures forall i :: 0 <= i < |vaults| ==> (i in places <==> Classify(b, vaults[i]) == c)
    decreases |vaults|
  {
    places := [];
    if vaults != [] {
      var n := |vaults| - 1;
      var before := ClassPlaces(b, vaults[..n], c);
      assert vaults == vaults[..n] + [vaults[n]];
      places := SelectsMore(vaults[..n], vaults[n], OfClass(b, vaults[..n], c), before, Classify(b, vaults[n]) == c);
    }
  }

  /** The places on the board of the queued vaults, in the order of the queue. */
  ghost predicate Queued(b: Board, q: seq<Vault>, places: seq<nat>) {
    && |places| == |q| && Distinct(places)
    && (forall k :: 0 <= k < |q| ==> places[k] < |b.vaults| && q[k] == b.vaults[places[k]])
    && (forall i :: 0 <= i < |b.vaults| ==> (i in places <==> b.vaults[i] in EligibleVaults(b)))
  }

  /** The vault at `p` is served before the one at `q`: it expired earlier, or at the same time and its
      market's key comes first, or both agree and it was read first. */
  ghost predicate ServedBefore(vaults: seq<Vault>, rank: string -> int, p: nat, q: nat)
    requires p < |vaults| && q < |vaults|
  {
    || vaults[p].expiry < vaults[q].expiry
    || (vaults[p].expiry == vaults[q].expiry
        && (rank(vaults[p].market) < rank(vaults[q].market)
            || (rank(vaults[p].market) == rank(vaults[q].market) && p < q)))
  }

  /** The order in which all eligible vaults of a board are served. */
  lemma QueueOrder(b: Board, rank: string -> int) returns (places: seq<nat>)
    ensures Queued(b, Sort(EligibleVaults(b), PlanKey(rank)), places)
    ensures forall j, k :: 0 <= j < k < |places| ==> ServedBefore(b.vaults, rank, places[j], places[k])
  {
    var e := EligibleVaults(b);
    var chosen := ClassPlaces(b, b.vaults, Eligible);
    var sorted := SortPlaces(e, PlanKey(rank));
    OfClassMembers(b, b.vaults, Eligible);
    places := Composed(b, e, Sort(e, PlanKey(rank)), rank, chosen, sorted);
  }

  lemma Composed(b: Board, e: seq<Vault>, q: seq<Vault>, rank: string -> int, chosen: seq<nat>, sorted: seq<nat>)
    returns (places: seq<nat>)
    requires Selects(b.vaults, e, chosen) && forall i :: 0 <= i < |b.vaults| ==> (i in chosen <==> b.vaults[i] in e)
    requires Rearranges(e, q, sorted) && KeyOrder(e, PlanKey(rank), sorted)
    requires e == EligibleVaults(b)
    ensures Queued(b, q, places)
    ensures forall j, k :: 0 <= j < k < |places| ==> ServedBefore(b.vaults, rank, places[j], places[k])
  {
    places := seq(|sorted|, k requires 0 <= k < |sorted| => chosen[sorted[k]]);
    forall j, k | 0 <= j < k < |places|
      ensures places[j] != places[k] && ServedBefore(b.vaults, rank, places[j], places[k])
    {
      assert Before(e, PlanKey(rank), sorted[j], sorted[k]);
    }
    forall m: nat | m < |chosen| ensures chosen[m] in places {
      var k := PlaceOf(sorted, m);
      assert places[k] == chosen[m];
    }
    forall i | i in places ensures i in chosen {
    }
  }

  /** The plan is fair: the targets are eligible vaults in order of (expiry, market), and no eligible
      vault that was left out is older than a target. */
  lemma PlanIsFair(b: Board, max: nat, rank: string -> int)
    ensures var sorted := Sort(EligibleVaults(b), PlanKey(rank));
      var targets := SliceTo(sorted, max);
      && StablePermutation(EligibleVaults(b), sorted, PlanKey(rank))
      && Sorted(targets, PlanKey(rank))
      && |targets| == Min(max, |EligibleVaults(b)|)
      && forall t, left :: t in targets && left in sorted[|targets|..] ==> t.expiry <= left.expiry
  {
    SortIsStable(EligibleVaults(b), PlanKey(rank));
  }

  /** If different markets have different ranks, vaults of one tuple stand next to each other. */
  lemma SameTupleAdjacent(b: Board, rank: string -> int, i: nat, j: nat, k: nat)
    requires forall m, m' :: rank(m) == rank(m') ==> m == m'
    requires i < j < k < |EligibleVaults(b)|
    requires var s := Sort(EligibleVaults(b), PlanKey(rank)); s[i].market == s[k].market && s[i].expiry == s[k].expiry
    ensures var s := Sort(EligibleVaults(b), PlanKey(rank)); s[j].market == s[i].market && s[j].expiry == s[i].expiry
  {
    var key := PlanKey(rank);
    var s := Sort(EligibleVaults(b), key);
    SortIsStable(EligibleVaults(b), key);
    assert Le(key(s[i]), key(s[j])) && Le(key(s[j]), key(s[k]));
  }

  predicate DistinctKeys(vaults: seq<Vault>) {
    forall i, j :: 0 <= i < j < |vaults| ==> vaults[i].key != vaults[j].key
  }

  // ---- Batches --------------------------------------------------------------------------------

  function Flatten<T>(chunks: seq<seq<T>>): seq<T> {
    if chunks == [] then [] else Flatten(chunks[..|chunks| - 1]) + chunks[|chunks| - 1]
  }

  datatype ChunkError = SizeBelowOne

  /** chunkTargets: the chunks concatenate back, and all but the last have exactly `size` elements. */
  method ChunkTargets<T>(targets: seq<T>, size: int) returns (r: Result<seq<seq<T>>, ChunkError>)
    ensures r.Err? <==> size < 1
    ensures r.Ok? ==> Flatten(r.value) == targets
    ensures r.Ok? ==> forall k :: 0 <= k < |r.value| ==>
      1 <= |r.value[k]| <= size && (k + 1 < |r.value| ==> |r.value[k]| == size)
  {
    if size < 1 { return Err(SizeBelowOne); }
    var out := [];
    var i := 0;
    while i < |targets|
      invariant 0 <= i
      invariant Flatten(out) == targets[..Min(i, |targets|)]
      invariant forall k :: 0 <= k < |out| ==> 1 <= |out[k]| <= size && (k + 1 < |out| ==> |out[k]| == size)
      invariant i < |targets| && out != [] ==> |out[|out| - 1]| == size
    {
      var chunk := targets[i..Min(i + size, |targets|)];
      assert targets[..Min(i + size, |targets|)] == targets[..i] + chunk;
      assert (out + [chunk])[..|out|] == out;
      out := out + [chunk];
      i := i + size;
    }
    r := Ok(out);
  }
}
