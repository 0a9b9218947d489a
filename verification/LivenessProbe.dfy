/** The recursive split that isolates unknown feed ids: one request for a chunk, and on failure one
    for each half. */
module LivenessProbe {
  import opened Prelude

  type Id = string

  /** What the server makes of a request for these ids: None if it fails, else the publish times. */
  type Server = seq<Id> -> Option<map<Id, int>>

  /** The halves of a chunk: `ids.length >> 1` and the rest. */
  function Mid(ids: seq<Id>): nat {
    |ids| / 2
  }

  /** The number of requests made for a chunk. */
  function Requests(ids: seq<Id>, server: Server): nat
    decreases |ids|
  {
    if ids == [] then 0
    else if server(ids).Some? || |ids| == 1 then 1
    else 1 + Requests(ids[..Mid(ids)], server) + Requests(ids[Mid(ids)..], server)
  }

  /** What those requests add to the map. */
  function Found(ids: seq<Id>, server: Server): map<Id, int>
    decreases |ids|
  {
    if ids == [] then map[]
    else if server(ids).Some? then server(ids).value
    else if |ids| == 1 then map[]
    else Found(ids[..Mid(ids)], server) + Found(ids[Mid(ids)..], server)
  }

  class Probe {
    var out: map<Id, int>
    var requests: nat

    constructor ()
      ensures out == map[] && requests == 0
    {
      out, requests := map[], 0;
    }

    /** probePythInto fills `out` in place. */
    method ProbePythInto(ids: seq<Id>, server: Server)
      modifies this
      ensures out == old(out) + Found(ids, server)
      ensures requests == old(requests) + Requests(ids, server)
      decreases |ids|
    {
      if |ids| == 0 { return; }
      requests := requests + 1;
      var answer := server(ids);
      if answer.Some? {
        out := out + answer.value;
      }
      if answer.Some? || |ids| == 1 { return; }
      var mid := |ids| / 2;
      ProbePythInto(ids[..mid], server);
      ProbePythInto(ids[mid..], server);
    }
  }

  // ---- Contracts of the server ---------------------------------------------------------------

  /** What the server knows of the requested ids. */
  function Known(ids: seq<Id>, truth: map<Id, int>): map<Id, int> {
    map id | id in ids && id in truth :: truth[id]
  }

  /** A request fails iff one of its ids is unknown, and otherwise answers for all of them. */
  ghost predicate FailsOnUnknown(server: Server, truth: map<Id, int>) {
    forall ids: seq<Id> {:trigger server(ids)} ::
      server(ids) == if forall k :: 0 <= k < |ids| ==> ids[k] in truth then Some(Known(ids, truth)) else None
  }

  /** A request may fail for any other reason as well, and an answer may leave ids out, but it never
      lies. */
  ghost predicate NeverLies(server: Server, truth: map<Id, int>) {
    forall ids: seq<Id> {:trigger server(ids)} ::
      server(ids).Some? ==> Within(server(ids).value, Known(ids, truth))
  }

  predicate Within(part: map<Id, int>, whole: map<Id, int>) {
    forall id :: id in part ==> id in whole && part[id] == whole[id]
  }

  /** One of the requests the probe of these ids makes. */
  predicate Asks(ids: seq<Id>, server: Server, chunk: seq<Id>)
    decreases |ids|
  {
    && ids != []
    && (chunk == ids
        || (server(ids).None? && |ids| > 1
            && (Asks(ids[..Mid(ids)], server, chunk) || Asks(ids[Mid(ids)..], server, chunk))))
  }

  /** A request that loses this id: it failed for the id alone, or its answer left the id out. */
  predicate Misses(server: Server, chunk: seq<Id>, id: Id) {
    id in chunk && if server(chunk).None? then chunk == [id] else id !in server(chunk).value
  }

  // ---- Exactness --------------------------------------------------------------------------------

  lemma KnownSplits(ids: seq<Id>, m: nat, truth: map<Id, int>)
    requires m <= |ids|
    ensures Known(ids, truth) == Known(ids[..m], truth) + Known(ids[m..], truth)
  {
    assert ids == ids[..m] + ids[m..];
  }

  /** If a request fails iff it contains an unknown id, exactly the known ids are found, each with
      its publish time. */
  lemma {:induction false} FindsExactlyTheKnown(ids: seq<Id>, server: Server, truth: map<Id, int>)
    requires FailsOnUnknown(server, truth)
    ensures Found(ids, server) == Known(ids, truth)
    decreases |ids|
  {
    if ids != [] && server(ids).None? && |ids| > 1 {
      FindsExactlyTheKnown(ids[..Mid(ids)], server, truth);
      FindsExactlyTheKnown(ids[Mid(ids)..], server, truth);
      KnownSplits(ids, Mid(ids), truth);
    }
  }

  /** With any further failures and omissions: nothing false is ever found, and an id goes missing only
      if the request made for it alone failed or the answer to one that was made left it out. */
  lemma {:induction false} FindsNothingFalse(ids: seq<Id>, server: Server, truth: map<Id, int>, id: Id)
    requires NeverLies(server, truth)
    ensures id in Found(ids, server) ==> id in ids && id in truth && Found(ids, server)[id] == truth[id]
    ensures id in ids && id !in Found(ids, server) ==>
      exists chunk :: Asks(ids, server, chunk) && Misses(server, chunk, id)
    decreases |ids|
  {
    if ids != [] {
      if server(ids).Some? {
        assert id in ids && id !in Found(ids, server) ==> Asks(ids, server, ids) && Misses(server, ids, id);
      } else if |ids| == 1 {
        assert ids == [ids[0]];
        assert id in ids ==> Asks(ids, server, ids) && Misses(server, ids, id);
      } else {
        var m := Mid(ids);
        FindsNothingFalse(ids[..m], server, truth, id);
        FindsNothingFalse(ids[m..], server, truth, id);
        assert ids == ids[..m] + ids[m..];
      }
    }
  }

  // ---- The number of requests ---------------------------------------------------------------------

  /** At most 2n-1 requests, however the server behaves. */
  lemma {:induction false} AtMostTwicePerId(ids: seq<Id>, server: Server)
    requires ids != []
    ensures 1 <= Requests(ids, server) <= 2 * |ids| - 1
    decreases |ids|
  {
    if server(ids).None? && |ids| > 1 {
      AtMostTwicePerId(ids[..Mid(ids)], server);
      AtMostTwicePerId(ids[Mid(ids)..], server);
    }
  }

  /** The smallest c with n <= 2^c. */
  function CeilLog2(n: nat): nat
    requires n > 0
  {
    if n == 1 then 0 else 1 + CeilLog2((n + 1) / 2)
  }

  lemma {:induction false} CeilLog2Means(n: nat)
    requires n > 0
    ensures n <= Pow2(CeilLog2(n)) && (n > 1 ==> Pow2(CeilLog2(n) - 1) < n)
  {
    if n > 1 {
      CeilLog2Means((n + 1) / 2);
    }
  }

  lemma {:induction false} CeilLog2Monotone(m: nat, n: nat)
    requires 0 < m <= n
    ensures CeilLog2(m) <= CeilLog2(n)
    decreases n
  {
    if m > 1 {
      CeilLog2Monotone((m + 1) / 2, (n + 1) / 2);
    }
  }

  /** The number of unknown ids. */
  function Unknown(ids: seq<Id>, truth: map<Id, int>): nat {
    if ids == [] then 0
    else Unknown(ids[..|ids| - 1], truth) + (if ids[|ids| - 1] in truth then 0 else 1)
  }

  lemma {:induction false} UnknownSplits(a: seq<Id>, b: seq<Id>, truth: map<Id, int>)
    ensures Unknown(a + b, truth) == Unknown(a, truth) + Unknown(b, truth)
    decreases |b|
  {
    if b == [] {
      assert a + b == a;
    } else {
      UnknownSplits(a, b[..|b| - 1], truth);
      assert (a + b)[..|a + b| - 1] == a + b[..|b| - 1];
    }
  }

  lemma {:induction false} NoneUnknown(ids: seq<Id>, truth: map<Id, int>)
    ensures Unknown(ids, truth) == 0 <==> forall k :: 0 <= k < |ids| ==> ids[k] in truth
    decreases |ids|
  {
    if ids != [] {
      NoneUnknown(ids[..|ids| - 1], truth);
    }
  }

  /** The claimed number of requests for n ids, b of them unknown. */
  function Bound(b: nat, n: nat): nat
    requires n > 0
  {
    1 + 2 * Times(b, CeilLog2(n))
  }

  lemma {:induction false} TimesGrows(b: nat, c: nat, d: nat)
    requires c <= d
    ensures Times(b, c) <= Times(b, d)
    ensures Times(b, 1 + c) == b + Times(b, c)
  {
    if b > 0 {
      TimesGrows(b - 1, c, d);
    }
  }

  lemma {:induction false} TimesAdds(a: nat, b: nat, c: nat)
    ensures Times(a + b, c) == Times(a, c) + Times(b, c)
  {
    if a > 0 {
      TimesAdds(a - 1, b, c);
    }
  }

  /** A failed chunk pays one request more than its halves, and halving makes room for it: the depth
      drops by one, and with it one per unknown id. */
  lemma BoundSplits(bl: nat, br: nat, l: nat, r: nat)
    requires 0 < l <= r <= l + 1 && bl + br > 0
    ensures 1 + Bound(bl, l) + Bound(br, r) <= Bound(bl + br, l + r)
  {
    CeilLog2OfHalves(l, r);
    HalvesFit(bl, br, CeilLog2(l), CeilLog2(r), CeilLog2(l + r));
  }

  lemma CeilLog2OfHalves(l: nat, r: nat)
    requires 0 < l <= r <= l + 1
    ensures CeilLog2(l) <= CeilLog2(r) && CeilLog2(l + r) == 1 + CeilLog2(r)
  {
    CeilLog2Monotone(l, r);
    assert (l + r + 1) / 2 == r;
  }

  lemma HalvesFit(bl: nat, br: nat, cl: nat, c: nat, cn: nat)
    requires cl <= c && cn == 1 + c && bl + br > 0
    ensures 1 + (1 + 2 * Times(bl, cl)) + (1 + 2 * Times(br, c)) <= 1 + 2 * Times(bl + br, cn)
  {
    TimesGrows(bl, cl, c);
    TimesAdds(bl, br, c);
    TimesGrows(bl + br, c, c);
  }

  lemma AddUp(cost: nat, b: nat, n: nat, costL: nat, bl: nat, l: nat, costR: nat, br: nat, r: nat)
    requires 0 < l <= r <= l + 1 && n == l + r
    requires b == bl + br && b > 0
    requires costL <= Bound(bl, l) && costR <= Bound(br, r) && cost == 1 + costL + costR
    ensures cost <= Bound(b, n)
  {
    BoundSplits(bl, br, l, r);
  }

  lemma SomeUnknown(ids: seq<Id>, server: Server, truth: map<Id, int>)
    requires FailsOnUnknown(server, truth) && server(ids).None?
    ensures Unknown(ids, truth) > 0
  {
    NoneUnknown(ids, truth);
  }

  lemma SplitRequests(ids: seq<Id>, server: Server, truth: map<Id, int>)
    requires |ids| > 1 && server(ids).None?
    ensures Requests(ids, server) == 1 + Requests(ids[..Mid(ids)], server) + Requests(ids[Mid(ids)..], server)
    ensures Unknown(ids, truth) == Unknown(ids[..Mid(ids)], truth) + Unknown(ids[Mid(ids)..], truth)
  {
    assert ids[..Mid(ids)] + ids[Mid(ids)..] == ids;
    UnknownSplits(ids[..Mid(ids)], ids[Mid(ids)..], truth);
  }

  lemma {:induction false} RequestsWithinBound(ids: seq<Id>, server: Server, truth: map<Id, int>)
    requires ids != [] && FailsOnUnknown(server, truth)
    ensures Requests(ids, server) <= Bound(Unknown(ids, truth), |ids|)
    decreases |ids|
  {
    if server(ids).None? && |ids| > 1 {
      var left, right := ids[..Mid(ids)], ids[Mid(ids)..];
      RequestsWithinBound(left, server, truth);
      RequestsWithinBound(right, server, truth);
      SomeUnknown(ids, server, truth);
      SplitRequests(ids, server, truth);
      var bl, br := Unknown(left, truth), Unknown(right, truth);
      AddUp(Requests(ids, server), Unknown(ids, truth), |ids|,
            Requests(left, server), bl, |left|, Requests(right, server), br, |right|);
    }
  }

  /** With b unknown ids among n, at most 1 + 2*b*ceil(log2 n) requests. */
  lemma CheapWhenFewUnknown(ids: seq<Id>, server: Server, truth: map<Id, int>)
    requires ids != [] && FailsOnUnknown(server, truth)
    ensures Requests(ids, server) <= 1 + 2 * (Unknown(ids, truth) * CeilLog2(|ids|))
  {
    RequestsWithinBound(ids, server, truth);
    TimesIsProduct(Unknown(ids, truth), CeilLog2(|ids|));
  }
}
