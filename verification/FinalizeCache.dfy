/** The disk-backed cache of vaults that looked finished. Membership alone never suppresses a scan. */
module FinalizeCache {
  import opened Prelude
  import opened JsMap

  const MAX_ENTRIES := 100_000

  /** `markedAtSec` of an entry: a finite number, or anything else. */
  datatype Mark = At(sec: int) | Malformed

  datatype Gate = Gate(isSettled: bool, collateralRemaining: int)

  type Entries = seq<Entry<Mark>>

  datatype File = Missing | Unrecognised | Versioned(entries: Entries)

  predicate EntryMaySuppressScan(entry: Option<Mark>, state: Gate, nowSec: int, maxAgeSec: int) {
    if entry.None? then false
    else if !state.isSettled then false
    else if state.collateralRemaining > 0 then false
    else if entry.value.Malformed? || entry.value.sec <= 0 then false
    else if entry.value.sec > nowSec then false
    else nowSec - entry.value.sec <= maxAgeSec
  }

  predicate MaySuppressIn(es: Entries, k: string, g: Gate, t: int, maxAge: int) {
    EntryMaySuppressScan(Get(es, k), g, t, maxAge)
  }

  // ---- The operations, as functions of the entries -----------------------------------------

  /** A new key is not added to a full cache. */
  predicate Accepts(es: Entries, k: string) {
    |es| < MAX_ENTRIES || Get(es, k).Some?
  }

  function Added(es: Entries, k: string, t: int): Entries {
    if Accepts(es, k) then Set(es, k, At(t)) else es
  }

  predicate Expired(m: Mark, t: int, maxAge: int) {
    m.At? && t - m.sec > maxAge
  }

  function Pruned(es: Entries, t: int, maxAge: int): Entries {
    if es == [] then []
    else
      var last := es[|es| - 1];
      Pruned(es[..|es| - 1], t, maxAge) + (if Expired(last.value, t, maxAge) then [] else [last])
  }

  /** The first MAX_ENTRIES well-formed entries of a file. */
  function LoadedEntries(es: Entries): Entries {
    if es == [] then []
    else
      var front, last := LoadedEntries(es[..|es| - 1]), es[|es| - 1];
      if |front| >= MAX_ENTRIES || last.value.Malformed? then front else Set(front, last.key, last.value)
  }

  function Loaded(f: File): Entries {
    if f.Versioned? then LoadedEntries(f.entries) else []
  }

  // ---- The class ------------------------------------------------------------------------------

  class Disk {
    var file: File

    constructor (f: File)
      ensures file == f
    {
      file := f;
    }
  }

  class PersistentFinalizeCache {
    var entries: Entries
    var dirty: bool
    const maxAgeSec: int
    const disk: Disk

    ghost function State(): Node
      reads this, disk
    {
      Node(entries, dirty, disk.file)
    }

    constructor Load(d: Disk, maxAge: int)
      ensures fresh(this) && disk == d && maxAgeSec == maxAge
      ensures State() == Node(Loaded(d.file), false, d.file)
      ensures d.file.Missing? || d.file.Unrecognised? ==> entries == []
    {
      entries, dirty, maxAgeSec, disk := [], false, maxAge, d;
      new;
      if d.file.Versioned? {
        var es := d.file.entries;
        for i := 0 to |es|
          invariant !dirty && disk == d && maxAgeSec == maxAge
          invariant entries == LoadedEntries(es[..i])
        {
          assert es[..i + 1][..i] == es[..i];
          if |entries| < MAX_ENTRIES && es[i].value.At? {
            entries := Set(entries, es[i].key, es[i].value);
          }
        }
        assert es[..|es|] == es;
      }
    }

    method MaySuppress(vaultKey: string, state: Gate, nowSec: int) returns (r: bool)
      ensures r == MaySuppressIn(entries, vaultKey, state, nowSec, maxAgeSec)
      // Membership alone is not enough: the vault is settled with nothing left, and its mark is a time
      // that has come and lies within the trust window.
      ensures r <==> state.isSettled && state.collateralRemaining <= 0 && exists sec ::
        Get(entries, vaultKey) == Some(At(sec)) && 0 < sec <= nowSec && nowSec - sec <= maxAgeSec
    {
      r := EntryMaySuppressScan(Get(entries, vaultKey), state, nowSec, maxAgeSec);
    }

    method Add(vaultKey: string, nowSec: int)
      modifies this
      ensures State() == old(State()).Apply(Op.Add(vaultKey, nowSec), maxAgeSec)
    {
      if |entries| >= MAX_ENTRIES && Get(entries, vaultKey).None? { return; }
      entries := Set(entries, vaultKey, At(nowSec));
      dirty := true;
    }

    method Prune(nowSec: int) returns (removed: nat)
      modifies this
      ensures State() == old(State()).Apply(Op.Prune(nowSec), maxAgeSec)
      ensures removed == |old(entries)| - |entries|
    {
      var kept := [];
      removed := 0;
      for i := 0 to |entries|
        invariant kept == Pruned(entries[..i], nowSec, maxAgeSec) && removed == i - |kept|
      {
        assert entries[..i + 1][..i] == entries[..i];
        if Expired(entries[i].value, nowSec, maxAgeSec) {
          removed := removed + 1;
        } else {
          kept := kept + [entries[i]];
        }
      }
      assert entries[..|entries|] == entries;
      PrunedSize(entries, nowSec, maxAgeSec);
      entries := kept;
      if removed > 0 { dirty := true; }
    }

    /** Write a temporary file and rename it over the target; `works` is false if any of it throws. */
    method Flush(works: bool)
      modifies this, disk
      ensures State() == old(State()).Apply(Op.Flush(works), maxAgeSec)
    {
      if !dirty { return; }
      if works {
        disk.file := Versioned(entries);
        dirty := false;
      }
    }
  }

  /** All that is kept of `es` is what was not marked longer than `maxAge` before `t`, in its order. */
  ghost predicate KeptInOrder(es: Entries, kept: Entries, t: int, maxAge: int) {
    exists places :: Selects(es, kept, places) && StillYoung(es, places, t, maxAge)
  }

  ghost predicate StillYoung(es: Entries, places: seq<nat>, t: int, maxAge: int) {
    forall i :: 0 <= i < |es| ==> (i in places <==> !(es[i].value.At? && t - es[i].value.sec > maxAge))
  }

  /** What a prune takes out is exactly what was marked longer ago than the trust window. */
  lemma PrunedKeepsOrder(es: Entries, t: int, maxAge: int)
    ensures KeptInOrder(es, Pruned(es, t, maxAge), t, maxAge)
  {
    var places := PrunedPlaces(es, t, maxAge);
  }

  lemma {:induction false} PrunedPlaces(es: Entries, t: int, maxAge: int) returns (places: seq<nat>)
    ensures Selects(es, Pruned(es, t, maxAge), places) && StillYoung(es, places, t, maxAge)
    decreases |es|
  {
    places := [];
    if es != [] {
      var n := |es| - 1;
      var before := PrunedPlaces(es[..n], t, maxAge);
      assert es == es[..n] + [es[n]];
      places := SelectsMore(es[..n], es[n], Pruned(es[..n], t, maxAge), before,
                            !(es[n].value.At? && t - es[n].value.sec > maxAge));
    }
  }

  lemma {:induction false} PrunedSize(es: Entries, t: int, maxAge: int)
    ensures |Pruned(es, t, maxAge)| <= |es|
    ensures |Pruned(es, t, maxAge)| == |es| ==> Pruned(es, t, maxAge) == es
    decreases |es|
  {
    if es != [] {
      var front, last := es[..|es| - 1], es[|es| - 1];
      PrunedSize(front, t, maxAge);
      if Expired(last.value, t, maxAge) {
        assert Pruned(front, t, maxAge) + [] == Pruned(front, t, maxAge);
      } else {
        assert es == front + [last];
      }
    }
  }

  // ---- Runs -------------------------------------------------------------------------------------

  datatype Op = Add(key: string, t: int) | Prune(t: int) | Flush(works: bool) | CrashReload

  /** The process's memory and the file it left on disk. */
  datatype Node = Node(entries: Entries, dirty: bool, file: File) {
    function Apply(op: Op, maxAge: int): Node {
      match op
      case Add(k, t) => if Accepts(entries, k) then Node(Set(entries, k, At(t)), true, file) else this
      case Prune(t) =>
        var kept := Pruned(entries, t, maxAge);
        Node(kept, dirty || |kept| < |entries|, file)
      case Flush(works) => if dirty && works then Node(entries, false, Versioned(entries)) else this
      case CrashReload => Node(Loaded(file), false, file)
    }

    /** The same without the crash: what a process that never died would hold. */
    function Survive(op: Op, maxAge: int): Node {
      if op.CrashReload? then this else Apply(op, maxAge)
    }
  }

  const Boot := Node([], false, Missing)

  function Run(ops: seq<Op>, maxAge: int): Node {
    if ops == [] then Boot else Run(ops[..|ops| - 1], maxAge).Apply(ops[|ops| - 1], maxAge)
  }

  function Uncrashed(ops: seq<Op>, maxAge: int): Node {
    if ops == [] then Boot else Uncrashed(ops[..|ops| - 1], maxAge).Survive(ops[|ops| - 1], maxAge)
  }

  function OpTime(op: Op, clock: int): int {
    match op
    case Add(_, t) => t
    case Prune(t) => t
    case _ => clock
  }

  /** The clock after a run; it never went backwards iff `Monotone`. */
  function Clock(ops: seq<Op>): int {
    if ops == [] then 0 else OpTime(ops[|ops| - 1], Clock(ops[..|ops| - 1]))
  }

  predicate Monotone(ops: seq<Op>) {
    ops == []
    || (Monotone(ops[..|ops| - 1]) && Clock(ops[..|ops| - 1]) <= Clock(ops))
  }

  /** Entries as add and load make them. */
  predicate Proper(es: Entries) {
    UniqueKeys(es) && |es| <= MAX_ENTRIES && forall i :: 0 <= i < |es| ==> es[i].value.At?
  }

  lemma {:induction false} LoadIsIdentity(es: Entries)
    requires Proper(es)
    ensures LoadedEntries(es) == es
    decreases |es|
  {
    if es != [] {
      var n := |es| - 1;
      LoadIsIdentity(es[..n]);
      assert es == es[..n] + [es[n]];
      LoadOneMore(es[..n], es[n]);
    }
  }

  lemma LoadOneMore(front: Entries, e: Entry<Mark>)
    requires LoadedEntries(front) == front && |front| < MAX_ENTRIES && e.value.At? && UniqueKeys(front + [e])
    ensures LoadedEntries(front + [e]) == front + [e]
  {
    assert (front + [e])[..|front|] == front;
    SetNew(front, e);
  }

  /** A file's well-formed entries are loaded in order up to the cap of 100,000, and no others. */
  lemma {:induction false} LoadedPlaces(es: Entries) returns (places: seq<nat>)
    requires UniqueKeys(es)
    ensures Selects(es, LoadedEntries(es), places) && |places| <= 100_000
    ensures forall i :: i in places ==> es[i].value.At?
    ensures forall i :: 0 <= i < |es| && es[i].value.At? && i !in places ==>
      |places| == 100_000 && forall k :: k in places ==> k < i
    decreases |es|
  {
    places := [];
    if es != [] {
      var n := |es| - 1;
      var before := LoadedPlaces(es[..n]);
      var keep := |before| < MAX_ENTRIES && es[n].value.At?;
      assert es == es[..n] + [es[n]];
      places := SelectsMore(es[..n], es[n], LoadedEntries(es[..n]), before, keep);
      if keep {
        LoadedKeysStayUnique(es[..n], LoadedEntries(es[..n]), before, es[n]);
        SetNew(LoadedEntries(es[..n]), es[n]);
      }
    }
  }

  lemma LoadedKeysStayUnique(es: Entries, part: Entries, places: seq<nat>, e: Entry<Mark>)
    requires UniqueKeys(es + [e]) && Selects(es, part, places)
    ensures UniqueKeys(part + [e])
  {
    forall i, j | 0 <= i < j < |part + [e]| ensures (part + [e])[i].key != (part + [e])[j].key {
      assert (es + [e])[places[i]] == part[i];
      var q := if j < |part| then places[j] else |es|;
      assert (es + [e])[q] == (part + [e])[j];
    }
  }

  lemma {:induction false} PrunedMembers(es: Entries, t: int, maxAge: int)
    ensures forall e :: e in Pruned(es, t, maxAge) <==> e in es && !Expired(e.value, t, maxAge)
    decreases |es|
  {
    if es != [] {
      var n := |es| - 1;
      PrunedMembers(es[..n], t, maxAge);
      assert es == es[..n] + [es[n]];
    }
  }

  lemma {:induction false} PrunedDistinct(es: Entries, t: int, maxAge: int)
    requires UniqueKeys(es)
    ensures UniqueKeys(Pruned(es, t, maxAge))
    decreases |es|
  {
    if es != [] {
      var n := |es| - 1;
      PrunedDistinct(es[..n], t, maxAge);
      PrunedMembers(es[..n], t, maxAge);
      var front := Pruned(es[..n], t, maxAge);
      forall i | 0 <= i < |front| ensures front[i].key != es[n].key {
        assert front[i] in front;
        assert front[i] in es[..n];
      }
    }
  }

  lemma PrunedKeeps(es: Entries, t: int, maxAge: int)
    requires Proper(es)
    ensures Proper(Pruned(es, t, maxAge))
  {
    PrunedSize(es, t, maxAge);
    PrunedDistinct(es, t, maxAge);
    PrunedMembers(es, t, maxAge);
    var p := Pruned(es, t, maxAge);
    forall i | 0 <= i < |p| ensures p[i].value.At? {
      assert p[i] in es;
    }
  }

  lemma SetKeepsProper(es: Entries, k: string, t: int)
    requires Proper(es) && Accepts(es, k)
    ensures Proper(Set(es, k, At(t)))
  {
    SetDistinct(es, k, At(t));
  }

  /** The memory is proper, the file is missing or proper, and a clean cache is exactly what the file
      holds. */
  predicate Tidy(n: Node) {
    && Proper(n.entries) && !n.file.Unrecognised?
    && (n.file.Versioned? ==> Proper(n.file.entries))
    && (!n.dirty ==> Loaded(n.file) == n.entries)
  }

  lemma ApplyKeepsTidy(n: Node, op: Op, maxAge: int)
    requires Tidy(n)
    ensures Tidy(n.Apply(op, maxAge))
    ensures op == Flush(true) ==> Loaded(n.Apply(op, maxAge).file) == n.entries
  {
    if n.file.Versioned? { LoadIsIdentity(n.file.entries); }
    match op
    case Add(k, t) => if Accepts(n.entries, k) { SetKeepsProper(n.entries, k, t); }
    case Prune(t) => PrunedKeeps(n.entries, t, maxAge); PrunedSize(n.entries, t, maxAge);
    case Flush(works) => LoadIsIdentity(n.entries);
    case CrashReload =>
  }

  /** Over every run the cache stays tidy. */
  lemma {:induction false} RunIsTidy(ops: seq<Op>, maxAge: int)
    ensures Tidy(Run(ops, maxAge))
    decreases |ops|
  {
    if ops != [] {
      RunIsTidy(ops[..|ops| - 1], maxAge);
      ApplyKeepsTidy(Run(ops[..|ops| - 1], maxAge), ops[|ops| - 1], maxAge);
    }
  }

  /** So a flush that works, dirty or not, leaves a file that reloads to the very same cache. */
  lemma FlushThenReload(ops: seq<Op>, maxAge: int)
    ensures Run(ops + [Flush(true), CrashReload], maxAge).entries == Run(ops, maxAge).entries
  {
    RunIsTidy(ops, maxAge);
    ApplyKeepsTidy(Run(ops, maxAge), Flush(true), maxAge);
    var flushed := ops + [Flush(true)];
    assert flushed[..|ops|] == ops;
    assert ops + [Flush(true), CrashReload] == flushed + [CrashReload];
    assert (flushed + [CrashReload])[..|flushed|] == flushed;
  }

  // ---- Pruning is invisible -------------------------------------------------------------------------

  lemma GetPruned(es: Entries, t: int, maxAge: int, k: string)
    requires UniqueKeys(es)
    ensures Get(Pruned(es, t, maxAge), k)
         == if Get(es, k).Some? && Expired(Get(es, k).value, t, maxAge) then None else Get(es, k)
  {
    var p := Pruned(es, t, maxAge);
    PrunedMembers(es, t, maxAge);
    PrunedDistinct(es, t, maxAge);
    if Has(p, k) {
      var e := p[IndexOf(p, k)];
      assert e in p;
      var i :| 0 <= i < |es| && es[i] == e;
      GetEntry(es, i);
    } else if Has(es, k) {
      assert es[IndexOf(es, k)] in es;
    }
  }

  /** Pruning never changes a present or a later answer. */
  lemma PruneIsInvisible(es: Entries, t: int, maxAge: int, k: string, g: Gate, later: int)
    requires UniqueKeys(es) && t <= later
    ensures MaySuppressIn(Pruned(es, t, maxAge), k, g, later, maxAge) == MaySuppressIn(es, k, g, later, maxAge)
  {
    GetPruned(es, t, maxAge, k);
  }

  // ---- Crash conservatism ------------------------------------------------------------------------------

  /** A mark that can no longer suppress anything, or that the other cache holds at least as fresh. */
  predicate CoveredMark(k: string, m: int, twin: Entries, clock: int, maxAge: int) {
    || m <= 0
    || clock - m > maxAge
    || (Get(twin, k).Some? && Get(twin, k).value.At? && m <= Get(twin, k).value.sec <= clock)
  }

  ghost predicate Covered(es: Entries, twin: Entries, clock: int, maxAge: int) {
    forall k :: Get(es, k).Some? && Get(es, k).value.At? ==> CoveredMark(k, Get(es, k).value.sec, twin, clock, maxAge)
  }

  /** The uncrashed twin covers both the memory and what a reload would bring back. */
  ghost predicate Simulates(n: Node, twin: Node, clock: int, maxAge: int) {
    && Proper(n.entries) && Proper(twin.entries)
    && (n.file.Versioned? ==> Proper(n.file.entries))
    && Covered(n.entries, twin.entries, clock, maxAge)
    && Covered(Loaded(n.file), twin.entries, clock, maxAge)
  }

  /** Whatever `es` may suppress from `now` on, `twin` may suppress too. */
  ghost predicate Dominated(es: Entries, twin: Entries, now: int, maxAge: int) {
    forall k, g, t :: now <= t && MaySuppressIn(es, k, g, t, maxAge) ==> MaySuppressIn(twin, k, g, t, maxAge)
  }

  lemma CoveredIsDominated(es: Entries, twin: Entries, clock: int, maxAge: int)
    requires Covered(es, twin, clock, maxAge)
    ensures Dominated(es, twin, clock, maxAge)
  {
    forall k, g, t | clock <= t && MaySuppressIn(es, k, g, t, maxAge) ensures MaySuppressIn(twin, k, g, t, maxAge) {
      assert CoveredMark(k, Get(es, k).value.sec, twin, clock, maxAge);
    }
  }

  /** An add is harmless unless the twin is full for a key the crashed cache still has room for. */
  predicate TwinKeepsUp(n: Node, twin: Node, op: Op) {
    op.Add? ==> Accepts(twin.entries, op.key) || !Accepts(n.entries, op.key)
  }

  lemma CoveredAfterAdd(es: Entries, twin: Entries, clock: int, maxAge: int, k: string, t: int)
    requires Covered(es, twin, clock, maxAge) && clock <= t
    ensures Covered(es, Added(twin, k, t), t, maxAge)
    ensures Accepts(twin, k) || !Accepts(es, k) ==> Covered(Added(es, k, t), Added(twin, k, t), t, maxAge)
  {
    forall q | Get(es, q).Some? && Get(es, q).value.At?
      ensures CoveredMark(q, Get(es, q).value.sec, Added(twin, k, t), t, maxAge)
    {
      assert CoveredMark(q, Get(es, q).value.sec, twin, clock, maxAge);
      GetSet(twin, k, At(t), q);
    }
    if Accepts(es, k) && Accepts(twin, k) {
      forall q | Get(Added(es, k, t), q).Some? && Get(Added(es, k, t), q).value.At?
        ensures CoveredMark(q, Get(Added(es, k, t), q).value.sec, Added(twin, k, t), t, maxAge)
      {
        GetSet(es, k, At(t), q);
        GetSet(twin, k, At(t), q);
      }
    }
  }

  lemma CoveredAfterPrune(es: Entries, twin: Entries, clock: int, maxAge: int, t: int)
    requires Covered(es, twin, clock, maxAge) && clock <= t && UniqueKeys(es) && UniqueKeys(twin)
    ensures Covered(es, Pruned(twin, t, maxAge), t, maxAge)
    ensures Covered(Pruned(es, t, maxAge), Pruned(twin, t, maxAge), t, maxAge)
  {
    forall q | Get(es, q).Some? && Get(es, q).value.At?
      ensures CoveredMark(q, Get(es, q).value.sec, Pruned(twin, t, maxAge), t, maxAge)
    {
      assert CoveredMark(q, Get(es, q).value.sec, twin, clock, maxAge);
      GetPruned(twin, t, maxAge, q);
    }
    forall q | Get(Pruned(es, t, maxAge), q).Some?
      ensures Get(Pruned(es, t, maxAge), q) == Get(es, q)
    {
      GetPruned(es, t, maxAge, q);
    }
  }

  lemma StepSimulates(n: Node, twin: Node, op: Op, clock: int, maxAge: int)
    requires Simulates(n, twin, clock, maxAge) && clock <= OpTime(op, clock) && TwinKeepsUp(n, twin, op)
    ensures Simulates(n.Apply(op, maxAge), twin.Survive(op, maxAge), OpTime(op, clock), maxAge)
  {
    if n.file.Versioned? { LoadIsIdentity(n.file.entries); }
    match op
    case Add(k, t) =>
      CoveredAfterAdd(n.entries, twin.entries, clock, maxAge, k, t);
      CoveredAfterAdd(Loaded(n.file), twin.entries, clock, maxAge, k, t);
      if Accepts(n.entries, k) { SetKeepsProper(n.entries, k, t); }
      if Accepts(twin.entries, k) { SetKeepsProper(twin.entries, k, t); }
    case Prune(t) =>
      CoveredAfterPrune(n.entries, twin.entries, clock, maxAge, t);
      CoveredAfterPrune(Loaded(n.file), twin.entries, clock, maxAge, t);
      PrunedKeeps(n.entries, t, maxAge);
      PrunedKeeps(twin.entries, t, maxAge);
    case Flush(works) => LoadIsIdentity(n.entries);
    case CrashReload =>
  }

  /** In the whole run the uncrashed cache never turns away a key the crashed one takes. */
  predicate NeverTurnedAway(ops: seq<Op>, maxAge: int) {
    ops == []
    || (NeverTurnedAway(ops[..|ops| - 1], maxAge)
        && TwinKeepsUp(Run(ops[..|ops| - 1], maxAge), Uncrashed(ops[..|ops| - 1], maxAge), ops[|ops| - 1]))
  }

  lemma {:induction false} RunSimulates(ops: seq<Op>, maxAge: int)
    requires Monotone(ops) && NeverTurnedAway(ops, maxAge)
    ensures Simulates(Run(ops, maxAge), Uncrashed(ops, maxAge), Clock(ops), maxAge)
    decreases |ops|
  {
    if ops != [] {
      var init := ops[..|ops| - 1];
      RunSimulates(init, maxAge);
      StepSimulates(Run(init, maxAge), Uncrashed(init, maxAge), ops[|ops| - 1], Clock(init), maxAge);
    }
  }

  /** Over every run of adds, prunes, flushes that work or fail, and crashes, with a clock that never goes
      back, anything the crashed and reloaded cache may suppress, now or later, the cache of a process
      that never died would suppress too, unless the cap made it turn a key away. */
  lemma ConservativeUnlessTurnedAway(ops: seq<Op>, maxAge: int)
    requires Monotone(ops) && NeverTurnedAway(ops, maxAge)
    ensures Dominated(Run(ops, maxAge).entries, Uncrashed(ops, maxAge).entries, Clock(ops), maxAge)
    ensures Dominated(Loaded(Run(ops, maxAge).file), Uncrashed(ops, maxAge).entries, Clock(ops), maxAge)
  {
    RunSimulates(ops, maxAge);
    CoveredIsDominated(Run(ops, maxAge).entries, Uncrashed(ops, maxAge).entries, Clock(ops), maxAge);
    CoveredIsDominated(Loaded(Run(ops, maxAge).file), Uncrashed(ops, maxAge).entries, Clock(ops), maxAge);
  }

  /** The condition on the cap is exact: from related caches, an add keeps the dominance iff the twin
      takes the key or the crashed cache turns it away as well. */
  lemma AddKeepsDominanceIff(n: Node, twin: Node, k: string, t: int, clock: int, maxAge: int)
    requires Simulates(n, twin, clock, maxAge) && clock <= t && 0 < t && 0 <= maxAge
    ensures Dominated(n.Apply(Add(k, t), maxAge).entries, twin.Survive(Add(k, t), maxAge).entries, t, maxAge)
        <==> TwinKeepsUp(n, twin, Add(k, t))
  {
    var es, es' := n.Apply(Add(k, t), maxAge).entries, twin.Survive(Add(k, t), maxAge).entries;
    if TwinKeepsUp(n, twin, Add(k, t)) {
      StepSimulates(n, twin, Add(k, t), clock, maxAge);
      CoveredIsDominated(es, es', t, maxAge);
    } else {
      GetSet(n.entries, k, At(t), k);
      assert MaySuppressIn(es, k, Gate(true, 0), t, maxAge) && !MaySuppressIn(es', k, Gate(true, 0), t, maxAge);
    }
  }

  /** With no condition at all: every mark in memory or on disk was really added at that time, so
      nothing is ever suppressed on the strength of a mark nobody made. */
  lemma {:induction false} MarksWereAdded(ops: seq<Op>, maxAge: int, e: Entry<Mark>)
    requires e in Run(ops, maxAge).entries || e in Loaded(Run(ops, maxAge).file)
    ensures e.value.At? && Op.Add(e.key, e.value.sec) in ops
    decreases |ops|
  {
    RunIsTidy(ops, maxAge);
    if ops != [] {
      var init, op := ops[..|ops| - 1], ops[|ops| - 1];
      assert ops == init + [op];
      RunIsTidy(init, maxAge);
      var n := Run(init, maxAge);
      LoadIsIdentity(n.entries);
      if op.Prune? {
        PrunedMembers(n.entries, op.t, maxAge);
      }
      if e in n.entries || e in Loaded(n.file) {
        MarksWereAdded(init, maxAge, e);
      }
    }
  }

  // ---- When the cap cannot be reached ---------------------------------------------------------------------

  function AddedKeys(ops: seq<Op>): set<string> {
    set op | op in ops && op.Add? :: op.key
  }

  ghost function EntryKeys(es: Entries): set<string> {
    set e | e in es :: e.key
  }

  lemma {:induction false} EntryKeyCount(es: Entries)
    requires UniqueKeys(es)
    ensures |EntryKeys(es)| == |es|
    decreases |es|
  {
    if es != [] {
      var n := |es| - 1;
      EntryKeyCount(es[..n]);
      assert es == es[..n] + [es[n]];
      assert EntryKeys(es) == EntryKeys(es[..n]) + {es[n].key};
      assert es[n].key !in EntryKeys(es[..n]);
    }
  }

  lemma SubsetSize(a: set<string>, b: set<string>)
    requires a <= b
    ensures |a| <= |b|
  {
    assert b == a + (b - a);
  }

  lemma AddedKeysGrow(init: seq<Op>, op: Op)
    ensures AddedKeys(init + [op]) == AddedKeys(init) + (if op.Add? then {op.key} else {})
  {
    assert op.Add? ==> op in init + [op];
  }

  lemma {:induction false} UncrashedIsProper(ops: seq<Op>, maxAge: int)
    ensures Proper(Uncrashed(ops, maxAge).entries)
    decreases |ops|
  {
    if ops != [] {
      var init, op := ops[..|ops| - 1], ops[|ops| - 1];
      UncrashedIsProper(init, maxAge);
      var es := Uncrashed(init, maxAge).entries;
      if op.Add? && Accepts(es, op.key) { SetKeepsProper(es, op.key, op.t); }
      if op.Prune? { PrunedKeeps(es, op.t, maxAge); }
    }
  }

  lemma {:induction false} UncrashedHoldsAddedKeys(ops: seq<Op>, maxAge: int, e: Entry<Mark>)
    requires e in Uncrashed(ops, maxAge).entries
    ensures e.key in AddedKeys(ops)
    decreases |ops|
  {
    var init, op := ops[..|ops| - 1], ops[|ops| - 1];
    assert ops == init + [op];
    AddedKeysGrow(init, op);
    var es := Uncrashed(init, maxAge).entries;
    if op.Prune? { PrunedMembers(es, op.t, maxAge); }
    if e in es {
      UncrashedHoldsAddedKeys(init, maxAge, e);
    }
  }

  /** A process that never died has room for a new key while there are vaults to spare. */
  lemma RoomForOneMore(ops: seq<Op>, maxAge: int, key: string, all: set<string>)
    requires AddedKeys(ops) + {key} <= all && |all| <= MAX_ENTRIES
    ensures Accepts(Uncrashed(ops, maxAge).entries, key)
  {
    var es := Uncrashed(ops, maxAge).entries;
    UncrashedIsProper(ops, maxAge);
    if !Has(es, key) {
      forall e | e in es ensures e.key in AddedKeys(ops) {
        UncrashedHoldsAddedKeys(ops, maxAge, e);
      }
      EntryKeyCount(es);
      SubsetSize(EntryKeys(es) + {key}, all);
      assert key !in EntryKeys(es);
    }
  }

  /** As long as no more than MAX_ENTRIES different vaults are ever marked, no key is turned away. */
  lemma {:induction false} FewVaultsNeverTurnedAway(ops: seq<Op>, maxAge: int)
    requires |AddedKeys(ops)| <= MAX_ENTRIES
    ensures NeverTurnedAway(ops, maxAge)
    decreases |ops|
  {
    if ops != [] {
      var init, op := ops[..|ops| - 1], ops[|ops| - 1];
      assert ops == init + [op];
      AddedKeysGrow(init, op);
      SubsetSize(AddedKeys(init), AddedKeys(ops));
      FewVaultsNeverTurnedAway(init, maxAge);
      if op.Add? {
        RoomForOneMore(init, maxAge, op.key, AddedKeys(ops));
      }
    }
  }

  // ---- Exactly when a run may be trusted ---------------------------------------------------------------

  /** Every run that marks only these vaults, on a clock that never goes back, is conservative: what the
      process holds, and what a reload would bring back, suppresses nothing that a process that never
      died would not. */
  ghost predicate ConservativeOver(keys: set<string>, maxAge: int) {
    forall ops :: Monotone(ops) && AddedKeys(ops) <= keys ==> Conservative(ops, maxAge)
  }

  ghost predicate Conservative(ops: seq<Op>, maxAge: int) {
    && Dominated(Run(ops, maxAge).entries, Uncrashed(ops, maxAge).entries, Clock(ops), maxAge)
    && Dominated(Loaded(Run(ops, maxAge).file), Uncrashed(ops, maxAge).entries, Clock(ops), maxAge)
  }

  /** Mark these vaults at time 1. */
  function Fill(keys: seq<string>): seq<Op> {
    if keys == [] then [] else Fill(keys[..|keys| - 1]) + [Op.Add(keys[|keys| - 1], 1)]
  }

  function Marked(keys: seq<string>): Entries {
    seq(|keys|, i requires 0 <= i < |keys| => Entry(keys[i], At(1)))
  }

  lemma RunSnoc(ops: seq<Op>, op: Op, maxAge: int)
    ensures Run(ops + [op], maxAge) == Run(ops, maxAge).Apply(op, maxAge)
    ensures Uncrashed(ops + [op], maxAge) == Uncrashed(ops, maxAge).Survive(op, maxAge)
    ensures Clock(ops + [op]) == OpTime(op, Clock(ops))
    ensures Monotone(ops + [op]) <==> Monotone(ops) && Clock(ops) <= OpTime(op, Clock(ops))
    ensures AddedKeys(ops + [op]) == AddedKeys(ops) + (if op.Add? then {op.key} else {})
  {
    assert (ops + [op])[..|ops|] == ops;
    AddedKeysGrow(ops, op);
  }

  lemma MarkOneMore(keys: seq<string>)
    requires Distinct(keys) && keys != [] && |keys| <= MAX_ENTRIES
    ensures var n := |keys| - 1;
      Accepts(Marked(keys[..n]), keys[n]) && Set(Marked(keys[..n]), keys[n], At(1)) == Marked(keys)
  {
    var n := |keys| - 1;
    IndexIs(Marked(keys[..n]), keys[n], n);
  }

  /** Filling: nothing is on disk yet, and both processes hold the marks, in order. */
  lemma {:induction false} FillMarks(keys: seq<string>, maxAge: int)
    requires Distinct(keys) && |keys| <= MAX_ENTRIES
    ensures Run(Fill(keys), maxAge) == Uncrashed(Fill(keys), maxAge) == Node(Marked(keys), keys != [], Missing)
    ensures Monotone(Fill(keys)) && Clock(Fill(keys)) == (if keys == [] then 0 else 1)
    ensures AddedKeys(Fill(keys)) <= set k | k in keys
    decreases |keys|
  {
    if keys != [] {
      var n := |keys| - 1;
      FillMarks(keys[..n], maxAge);
      MarkOneMore(keys);
      RunSnoc(Fill(keys[..n]), Op.Add(keys[n], 1), maxAge);
    }
  }

  /** Mark as many vaults as the cache holds, die before a flush, and mark one more after the restart. */
  function CapRun(keys: seq<string>): seq<Op>
    requires keys != []
  {
    Fill(keys[..|keys| - 1]) + [CrashReload] + [Op.Add(keys[|keys| - 1], 1)]
  }

  /** The reachable failure: one vault more than the cap, and the restarted process suppresses a vault that
      the one that never died has turned away. */
  lemma CapBreaksConservatism(keys: seq<string>, maxAge: int)
    requires Distinct(keys) && |keys| == MAX_ENTRIES + 1 && 0 <= maxAge
    ensures Monotone(CapRun(keys)) && AddedKeys(CapRun(keys)) <= set k | k in keys
    ensures !Dominated(Run(CapRun(keys), maxAge).entries, Uncrashed(CapRun(keys), maxAge).entries, Clock(CapRun(keys)), maxAge)
  {
    var n := |keys| - 1;
    var fill, last := keys[..n], keys[n];
    FillMarks(fill, maxAge);
    RunSnoc(Fill(fill), CrashReload, maxAge);
    RunSnoc(Fill(fill) + [CrashReload], Op.Add(last, 1), maxAge);
    assert forall k :: k in fill ==> k in keys;
    IndexIs(Marked(fill), last, n);
    var es, twin := Run(CapRun(keys), maxAge).entries, Uncrashed(CapRun(keys), maxAge).entries;
    assert es == [Entry(last, At(1))] && twin == Marked(fill);
    IndexIs(es, last, 0);
    assert MaySuppressIn(es, last, Gate(true, 0), 1, maxAge) && !MaySuppressIn(twin, last, Gate(true, 0), 1, maxAge);
  }

  lemma {:induction false} ListSome(keys: set<string>, n: nat) returns (list: seq<string>)
    requires n <= |keys|
    ensures |list| == n && Distinct(list) && forall k :: k in list ==> k in keys
  {
    if n == 0 {
      list := [];
    } else {
      var k :| k in keys;
      var rest := ListSome(keys - {k}, n - 1);
      list := rest + [k];
    }
  }

  /** A cache with a negative trust window suppresses nothing. */
  lemma NothingTrusted(ops: seq<Op>, maxAge: int)
    requires maxAge < 0
    ensures Conservative(ops, maxAge)
  {
  }

  /** Crash conservatism, with the exact condition, which a caller can check before any run: every run of
      adds, prunes, flushes that work or fail, and crashes over a set of vaults is conservative iff there
      are no more of them than the cap (or nothing is trusted at all). */
  lemma CrashConservatism(keys: set<string>, maxAge: int)
    ensures ConservativeOver(keys, maxAge) <==> |keys| <= MAX_ENTRIES || maxAge < 0
  {
    if |keys| <= MAX_ENTRIES || maxAge < 0 {
      forall ops | Monotone(ops) && AddedKeys(ops) <= keys ensures Conservative(ops, maxAge) {
        if maxAge < 0 {
          NothingTrusted(ops, maxAge);
        } else {
          SubsetSize(AddedKeys(ops), keys);
          FewVaultsNeverTurnedAway(ops, maxAge);
          ConservativeUnlessTurnedAway(ops, maxAge);
        }
      }
    } else {
      var list := ListSome(keys, MAX_ENTRIES + 1);
      CapBreaksConservatism(list, maxAge);
      assert AddedKeys(CapRun(list)) <= keys;
      assert !Conservative(CapRun(list), maxAge);
    }
  }
}
