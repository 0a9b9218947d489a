/** A JavaScript Map: entries in insertion order, one per key. Setting a present key keeps its place. */
module JsMap {
  import opened Prelude

  datatype Entry<+V> = Entry(key: string, value: V)

  predicate UniqueKeys<V>(es: seq<Entry<V>>) {
    forall i, j :: 0 <= i < j < |es| ==> es[i].key != es[j].key
  }

  /** The place of a key; the length if it is absent. */
  function IndexFrom<V>(es: seq<Entry<V>>, k: string, i: nat): (r: nat)
    requires i <= |es|
    ensures i <= r <= |es| && (r < |es| ==> es[r].key == k)
    ensures forall j :: i <= j < r ==> es[j].key != k
    decreases |es| - i
  {
    if i == |es| || es[i].key == k then i else IndexFrom(es, k, i + 1)
  }

  function IndexOf<V>(es: seq<Entry<V>>, k: string): (r: nat)
    ensures r <= |es| && (r < |es| ==> es[r].key == k)
    ensures forall j :: 0 <= j < r ==> es[j].key != k
  {
    IndexFrom(es, k, 0)
  }

  predicate Has<V>(es: seq<Entry<V>>, k: string) {
    IndexOf(es, k) < |es|
  }

  function Get<V>(es: seq<Entry<V>>, k: string): Option<V> {
    if Has(es, k) then Some(es[IndexOf(es, k)].value) else None
  }

  function Set<V>(es: seq<Entry<V>>, k: string, v: V): (r: seq<Entry<V>>)
    ensures |r| == |es| + (if Has(es, k) then 0 else 1)
    ensures forall i :: 0 <= i < |es| ==> r[i].key == es[i].key
  {
    var i := IndexOf(es, k);
    if i < |es| then es[i := Entry(k, v)] else es + [Entry(k, v)]
  }

  function Delete<V>(es: seq<Entry<V>>, k: string): (r: seq<Entry<V>>)
    ensures |r| == |es| - (if Has(es, k) then 1 else 0)
  {
    var i := IndexOf(es, k);
    if i < |es| then es[..i] + es[i + 1..] else es
  }

  lemma IndexIs<V>(es: seq<Entry<V>>, k: string, i: nat)
    requires i <= |es| && (i < |es| ==> es[i].key == k)
    requires forall j :: 0 <= j < i ==> es[j].key != k
    ensures IndexOf(es, k) == i
  {
  }

  lemma GetEntry<V>(es: seq<Entry<V>>, i: nat)
    requires UniqueKeys(es) && i < |es|
    ensures Get(es, es[i].key) == Some(es[i].value)
  {
    IndexIs(es, es[i].key, i);
  }

  lemma GetSet<V>(es: seq<Entry<V>>, k: string, v: V, q: string)
    ensures Get(Set(es, k, v), q) == if q == k then Some(v) else Get(es, q)
  {
    var i := IndexOf(es, k);
    if q == k {
      IndexIs(Set(es, k, v), q, i);
    } else if Has(es, q) {
      IndexIs(Set(es, k, v), q, IndexOf(es, q));
    } else {
      IndexIs(Set(es, k, v), q, |Set(es, k, v)|);
    }
  }

  /** A new key comes last. */
  lemma SetNew<V>(es: seq<Entry<V>>, e: Entry<V>)
    requires UniqueKeys(es + [e])
    ensures Set(es, e.key, e.value) == es + [e]
  {
    forall j | 0 <= j < |es| ensures es[j].key != e.key {
      assert (es + [e])[j].key != (es + [e])[|es|].key;
    }
    IndexIs(es, e.key, |es|);
  }

  lemma SetDistinct<V>(es: seq<Entry<V>>, k: string, v: V)
    requires UniqueKeys(es)
    ensures UniqueKeys(Set(es, k, v))
  {
  }

  lemma GetDelete<V>(es: seq<Entry<V>>, k: string, q: string)
    requires UniqueKeys(es)
    ensures Get(Delete(es, k), q) == if q == k then None else Get(es, q)
    ensures UniqueKeys(Delete(es, k))
  {
    var i, d := IndexOf(es, k), Delete(es, k);
    if i < |es| {
      var j := IndexOf(es, q);
      if q == k {
        IndexIs(d, q, |d|);
      } else {
        IndexIs(d, q, if j < i then j else j - 1);
      }
    }
  }

  /** What is left after a deletion, entry by entry. */
  lemma DeleteLeaves<V>(es: seq<Entry<V>>, k: string, i: nat)
    requires UniqueKeys(es) && i < |Delete(es, k)|
    ensures Delete(es, k)[i] == es[if i < IndexOf(es, k) then i else i + 1]
    ensures Delete(es, k)[i].key != k
  {
    var at := IndexOf(es, k);
    if at < |es| {
      DropAt(es, at, i);
    }
  }

  lemma DropAt<V>(es: seq<Entry<V>>, at: nat, i: nat)
    requires at < |es| && i < |es| - 1
    ensures (es[..at] + es[at + 1..])[i] == es[if i < at then i else i + 1]
  {
  }
}
