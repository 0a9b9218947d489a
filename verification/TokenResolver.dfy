/** Resolving a query to a token through the cache. Requests overlap: between the lookup and the store
    of one request, any number of others may look up and store. */
module TokenResolver {
  import opened JsMap
  import opened JsString
  import opened Prelude
  import opened TokenIdentity

  datatype Row = Row(id: string, symbol: string, name: string, isVerified: Option<bool>, tags: seq<string>)

  /** The catalog's answer: a failed fetch, or rows, best match first. */
  datatype Reply = Failed(detail: string) | Rows(rows: seq<Row>)

  function MapJupiterRow(row: Row): Identity {
    Identity(row.id, row.symbol, row.name, if row.isVerified.Some? then row.isVerified.value else "verified" in row.tags,
             Jupiter)
  }

  /** The second directory may override `verified` and nothing else. */
  function EnrichWithTokensXyz(identity: Identity, verdict: Option<bool>): Identity {
    match verdict
    case Some(v) => identity.(verified := v, source := JupiterAndTokensXyz)
    case None => identity
  }

  /** The row that answers: for an address the first one with exactly that id, for a name the first. */
  ghost predicate IsPicked(q: string, rows: seq<Row>, i: int) {
    && 0 <= i < |rows|
    && if IsAddress(q) then rows[i].id == q && forall j :: 0 <= j < i ==> rows[j].id != q else i == 0
  }

  /** The identity is this row's; the second directory's verdict counts first, then the explicit flag, and
      the tag only without one. */
  ghost predicate Shows(identity: Identity, row: Row, verdict: Option<bool>) {
    && identity.mint == row.id && identity.symbol == row.symbol && identity.name == row.name
    && (verdict.Some? ==> identity.verified == verdict.value && identity.source == JupiterAndTokensXyz)
    && (verdict.None? ==> identity.source == Jupiter)
    && (verdict.None? && row.isVerified.Some? ==> identity.verified == row.isVerified.value)
    && (verdict.None? && row.isVerified.None? ==> (identity.verified <==> "verified" in row.tags))
  }

  /** The first half of a request: answered at once, or the catalog has to be asked. */
  datatype Begun = Answered(result: IdentityResult) | Asked(q: string, key: string, now: int)

  /** No address is ever bound to another token's identity, and no upstream error is ever kept. */
  ghost predicate Truthful(es: Cache) {
    forall i :: 0 <= i < |es| ==>
      && !es[i].value.value.UpstreamError?
      && (es[i].value.value.Found? && "a:" <= es[i].key ==> Trim(es[i].value.value.identity.mint) == es[i].key[2..])
  }

  ghost predicate Good(es: Cache) {
    UniqueKeys(es) && |es| <= CACHE_MAX_ENTRIES && Truthful(es)
  }

  /** What may be stored under a key. */
  ghost predicate MayStand(key: string, value: IdentityResult) {
    value.Found? && "a:" <= key ==> Trim(value.identity.mint) == key[2..]
  }

  lemma KeyMayStand(q: string, fold: string -> string, value: IdentityResult)
    requires value.Found? && IsAddress(Trim(q)) ==> Trim(value.identity.mint) == Trim(q)
    ensures MayStand(CacheKeyFor(q, fold), value)
  {
    var key := CacheKeyFor(q, fold);
    if IsAddress(Trim(q)) {
      assert key[2..] == Trim(q);
    } else {
      assert key[0] == 'n';
    }
  }

  lemma DeleteKeepsGood(es: Cache, key: string)
    requires Good(es)
    ensures Good(Delete(es, key))
    ensures forall i :: 0 <= i < |Delete(es, key)| ==> Delete(es, key)[i].key != key
  {
    GetDelete(es, key, key);
    forall i | 0 <= i < |Delete(es, key)|
      ensures Delete(es, key)[i] in es && Delete(es, key)[i].key != key
    {
      DeleteLeaves(es, key, i);
    }
  }

  lemma GetKeepsGood(es: Cache, key: string, now: int)
    requires Good(es)
    ensures Good(AfterGet(es, key, now))
    ensures Hit(es, key, now).Some? ==> !Hit(es, key, now).value.UpstreamError? && MayStand(key, Hit(es, key, now).value)
  {
    DeleteKeepsGood(es, key);
    if Has(es, key) {
      AppendKeepsGood(Delete(es, key), es[IndexOf(es, key)]);
    }
  }

  lemma AppendKeepsGood(es: Cache, e: Entry<Timed>)
    requires Good(es) && |es| < CACHE_MAX_ENTRIES && !e.value.value.UpstreamError? && MayStand(e.key, e.value.value)
    requires forall i :: 0 <= i < |es| ==> es[i].key != e.key
    ensures Good(es + [e])
  {
  }

  lemma SetKeepsGood(es: Cache, key: string, value: IdentityResult, at: int)
    requires Good(es) && MayStand(key, value)
    ensures Good(AfterSet(es, key, value, at))
  {
    if !value.UpstreamError? {
      var stored := Set(es, key, Timed(at, value));
      SetDistinct(es, key, Timed(at, value));
      assert Truthful(stored);
    }
  }

  /** What is stored is found again until its TTL has passed, ten minutes for a token and one for a miss,
      and not any longer, however full the cache was. */
  lemma SetThenGet(es: Cache, key: string, value: IdentityResult, at: int, now: int)
    requires Good(es) && !value.UpstreamError?
    ensures Hit(AfterSet(es, key, value, at), key, now)
         == if now - at <= (if value.Found? then 600_000 else 60_000) then Some(value) else None
  {
    var t := Timed(at, value);
    var stored := Set(es, key, t);
    GetSet(es, key, t, key);
    SetDistinct(es, key, t);
    var i := IndexOf(stored, key);
    assert stored[i] == Entry(key, t);
    if |stored| > CACHE_MAX_ENTRIES {
      assert i == |es|;
      IndexIs(stored[1..], key, i - 1);
    }
  }

  class Resolver {
    const cache: IdentityCache
    const fold: string -> string

    constructor (fold: string -> string)
      ensures fresh(cache) && cache.entries == [] && this.fold == fold
    {
      cache := new IdentityCache();
      this.fold := fold;
    }

    /** Up to the request to the catalog. */
    method Begin(query: string, now: int) returns (b: Begun)
      requires Good(cache.entries)
      modifies cache
      ensures Good(cache.entries)
      ensures Trim(query) == "" ==> b == Answered(NotFound) && cache.entries == old(cache.entries)
      ensures Trim(query) != "" ==>
        var key := CacheKeyFor(query, fold);
        && cache.entries == AfterGet(old(cache.entries), key, now)
        && match Hit(old(cache.entries), key, now)
           case Some(v) => b == Answered(v)
           case None => b == Asked(Trim(query), key, now)
      ensures b.Answered? && IsAddress(Trim(query)) && b.result.Found? ==> Trim(b.result.identity.mint) == Trim(query)
      ensures b.Answered? ==> !b.result.UpstreamError?
    {
      var q := Trim(query);
      if q == "" { return Answered(NotFound); }
      TrimTwice(query);
      var key := CacheKeyFor(q, fold);
      GetKeepsGood(cache.entries, key, now);
      var hit := cache.CacheGet(key, now);
      if hit.Some? { return Answered(hit.value); }
      return Asked(q, key, now);
    }

    /** `rows.find` for an address, the best match for a name. */
    method PickRow(q: string, rows: seq<Row>) returns (row: Option<Row>)
      ensures row.Some? ==> exists i :: IsPicked(q, rows, i) && rows[i] == row.value
      ensures row.None? <==> forall i :: !IsPicked(q, rows, i)
    {
      if !IsAddress(q) {
        assert rows != [] ==> IsPicked(q, rows, 0);
        return if rows == [] then None else Some(rows[0]);
      }
      for i := 0 to |rows|
        invariant forall j :: 0 <= j < i ==> rows[j].id != q
      {
        if rows[i].id == q {
          assert IsPicked(q, rows, i);
          return Some(rows[i]);
        }
      }
      return None;
    }

    /** From the catalog's answer on; the stores carry the time of the lookup. */
    method Finish(q: string, key: string, now: int, reply: Reply, verdict: Option<bool>) returns (r: IdentityResult)
      requires Good(cache.entries) && q == Trim(q) && key == CacheKeyFor(q, fold)
      modifies cache
      ensures Good(cache.entries)
      ensures r.UpstreamError? <==> reply.Failed?
      ensures r.UpstreamError? ==> cache.entries == old(cache.entries)
      ensures r.NotFound? ==> cache.entries == AfterSet(old(cache.entries), key, r, now)
      ensures r.Found? && IsAddress(q) ==> r.identity.mint == q && cache.entries == AfterSet(old(cache.entries), key, r, now)
      ensures r.Found? && !IsAddress(q) ==>
        var stored := AfterSet(old(cache.entries), key, r, now);
        cache.entries == if r.identity.mint == "" then stored
                         else AfterSet(stored, CacheKeyFor(r.identity.mint, fold), r, now)
      // Field by field, the answer is the first row with that id, or the best match for a name.
      ensures r.Found? ==> exists i :: IsPicked(q, reply.rows, i) && Shows(r.identity, reply.rows[i], verdict)
      ensures r.NotFound? <==> reply.Rows? && forall i :: !IsPicked(q, reply.rows, i)
      // Found is remembered under its own address for ten minutes and no longer, a miss for one.
      ensures r.Found? && r.identity.mint != "" ==> forall t {:trigger Hit(cache.entries, CacheKeyFor(r.identity.mint, fold), t)} ::
        Hit(cache.entries, CacheKeyFor(r.identity.mint, fold), t) == if t <= now + 600_000 then Some(r) else None
      ensures r.NotFound? ==> forall t {:trigger Hit(cache.entries, key, t)} ::
        Hit(cache.entries, key, t) == if t <= now + 60_000 then Some(NotFound) else None
    {
      if reply.Failed? { return UpstreamError(reply.detail); }
      var row := PickRow(q, reply.rows);
      if row.None? {
        SetKeepsGood(cache.entries, key, NotFound, now);
        forall t { SetThenGet(cache.entries, key, NotFound, now, t); }
        cache.CacheSet(key, NotFound, now);
        return NotFound;
      }
      var identity := EnrichWithTokensXyz(MapJupiterRow(row.value), verdict);
      r := Found(identity);
      KeyMayStand(q, fold, r);
      SetKeepsGood(cache.entries, key, r, now);
      ghost var was := cache.entries;
      cache.CacheSet(key, r, now);
      if !IsAddress(q) && identity.mint != "" {
        KeyMayStand(identity.mint, fold, r);
        SetKeepsGood(cache.entries, CacheKeyFor(identity.mint, fold), r, now);
        was := cache.entries;
        cache.CacheSet(CacheKeyFor(identity.mint, fold), r, now);
      }
      if identity.mint != "" {
        forall t { SetThenGet(was, CacheKeyFor(identity.mint, fold), r, now, t); }
      }
    }
  }
}
