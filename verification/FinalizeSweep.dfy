/** The finalize sweep of one tick: which vaults are skipped, which are scanned by the four passes,
    and which are marked; over any run of sweeps and crashes. */
module FinalizeSweep {
  import opened Prelude
  import opened JsMap
  import opened FinalizeCache

  const FINALIZE_CACHE_FLUSH_EVERY := 200

  /** The listings or orders pass: crashed, or its report, what it found and what it sent. */
  datatype Pass = Crashed | Ran(found: nat, txSent: nat)

  /** The writer pass may also have created token accounts. */
  datatype WriterPass = WriterCrashed | WriterRan(found: nat, txSent: nat, atasCreated: nat)

  /** The holder accounts of one mint. If the scan of the mint failed it is left out of the report. */
  datatype MintScan = MintScan(succeeded: bool, live: nat, filtered: nat)

  datatype HolderPass = HolderCrashed | HolderRan(mints: seq<MintScan>, txSent: nat, atasCreated: nat)

  /** holdersTotal and holdersFiltered of the report. */
  function Totals(mints: seq<MintScan>): (nat, nat) {
    if mints == [] then (0, 0)
    else
      var (total, filtered) := Totals(mints[..|mints| - 1]);
      var m := mints[|mints| - 1];
      if m.succeeded then (total + m.live + m.filtered, filtered + m.filtered) else (total, filtered)
  }

  predicate LooksEmpty(mints: seq<MintScan>) {
    Totals(mints).0 - Totals(mints).1 == 0
  }

  predicate NoHolders(mints: seq<MintScan>) {
    forall i :: 0 <= i < |mints| ==> mints[i].live == 0
  }

  /** "Empty" means that no mint whose scan succeeded has a holder left. */
  lemma {:induction false} LooksEmptyMeans(mints: seq<MintScan>)
    ensures Totals(mints).0 >= Totals(mints).1
    ensures LooksEmpty(mints) <==> forall i :: 0 <= i < |mints| && mints[i].succeeded ==> mints[i].live == 0
    decreases |mints|
  {
    if mints != [] {
      var n := |mints| - 1;
      LooksEmptyMeans(mints[..n]);
      assert mints == mints[..n] + [mints[n]];
    }
  }

  /** Which of the scans succeeded. */
  function Pattern(mints: seq<MintScan>): seq<bool> {
    seq(|mints|, i requires 0 <= i < |mints| => mints[i].succeeded)
  }

  /** gpaCalls of the report: the scans that succeeded. The report also says how many mints there are. */
  function GpaCalls(ok: seq<bool>): (r: nat)
    ensures r <= |ok|
  {
    if ok == [] then 0 else GpaCalls(ok[..|ok| - 1]) + if ok[|ok| - 1] then 1 else 0
  }

  lemma {:induction false} AllScannedIffCounted(ok: seq<bool>)
    ensures GpaCalls(ok) == |ok| <==> forall i :: 0 <= i < |ok| ==> ok[i]
    decreases |ok|
  {
    if ok != [] {
      AllScannedIffCounted(ok[..|ok| - 1]);
    }
  }

  /** With these scans succeeding, an empty report is right whatever accounts the mints have. */
  ghost predicate EmptyIsTrue(ok: seq<bool>) {
    forall mints :: Pattern(mints) == ok && LooksEmpty(mints) ==> NoHolders(mints)
  }

  /** That is so iff every scan succeeded, which the report shows: gpaCalls equals mintsScanned. */
  lemma EmptyIsTrueIff(ok: seq<bool>)
    ensures EmptyIsTrue(ok) <==> GpaCalls(ok) == |ok|
  {
    AllScannedIffCounted(ok);
    if GpaCalls(ok) == |ok| {
      forall mints: seq<MintScan> | Pattern(mints) == ok && LooksEmpty(mints) ensures NoHolders(mints) {
        LooksEmptyMeans(mints);
        assert forall i :: 0 <= i < |mints| ==> mints[i].succeeded == ok[i];
      }
    } else {
      // One holder behind a failed scan, nobody elsewhere.
      var k :| 0 <= k < |ok| && !ok[k];
      var mints := seq(|ok|, i requires 0 <= i < |ok| => MintScan(ok[i], if i == k then 1 else 0, 0));
      LooksEmptyMeans(mints);
      assert Pattern(mints) == ok && mints[k].live > 0;
    }
  }

  /** One failed scan hides any number of holders. */
  lemma FailedScanLooksEmpty(holders: nat)
    requires holders > 0
    ensures LooksEmpty([MintScan(false, holders, 0)]) && !NoHolders([MintScan(false, holders, 0)])
  {
    LooksEmptyMeans([MintScan(false, holders, 0)]);
    assert [MintScan(false, holders, 0)][0].live > 0;
  }

  // ---- One vault's turn ----------------------------------------------------------------------

  /** Where a shutdown request, if any, is noticed. */
  datatype Shutdown = Never | AtTop | BeforeHolders | BeforeWriters

  datatype Passes = Passes(listings: Pass, orders: Pass, holders: HolderPass, writers: WriterPass)

  /** A vault as read from the chain, with what the sweep will meet on its turn. `killed`: the
      process dies here. */
  datatype Turn = Turn(key: string, gate: Gate, passes: Passes, shutdown: Shutdown, flushWorks: bool, killed: bool)

  /** All four passes reported an empty scan and sent nothing. */
  predicate AllQuiet(p: Passes) {
    && p.listings == Ran(0, 0)
    && p.orders == Ran(0, 0)
    && p.holders.HolderRan? && LooksEmpty(p.holders.mints) && p.holders.txSent + p.holders.atasCreated == 0
    && p.writers == WriterRan(0, 0, 0)
  }

  /** Some pass did not come back with an empty report: it crashed, or found something (a listing, an
      order, a live holder of a mint whose scan succeeded, a writer), or sent or created something. */
  ghost predicate Loud(p: Passes) {
    || p.listings.Crashed? || p.orders.Crashed? || p.holders.HolderCrashed? || p.writers.WriterCrashed?
    || p.listings.found > 0 || p.orders.found > 0 || p.writers.found > 0
    || (exists i :: 0 <= i < |p.holders.mints| && p.holders.mints[i].succeeded && p.holders.mints[i].live > 0)
    || p.listings.txSent > 0 || p.orders.txSent > 0 || p.holders.txSent > 0 || p.writers.txSent > 0
    || p.holders.atasCreated > 0 || p.writers.atasCreated > 0
  }

  lemma QuietIff(p: Passes)
    ensures AllQuiet(p) <==> !Loud(p)
  {
    if p.holders.HolderRan? {
      LooksEmptyMeans(p.holders.mints);
    }
  }

  /** A scan that really took place: all four passes of this vault were run at this time. */
  datatype Scan = Scan(key: string, time: int, passes: Passes)

  datatype Skip = Skip(key: string, time: int, gate: Gate)

  ghost predicate Backed(e: Entry<Mark>, scans: seq<Scan>) {
    e.value.At? && exists sc :: sc in scans && sc.key == e.key && sc.time == e.value.sec && AllQuiet(sc.passes)
  }

  /** A skip at time t is of a settled vault with nothing left, and rests on a real scan, with all
      four passes quiet, no more than the trust window before t. */
  ghost predicate Justified(s: Skip, scans: seq<Scan>, maxAge: int) {
    && s.gate.isSettled && s.gate.collateralRemaining <= 0
    && exists sc :: sc in scans && sc.key == s.key && AllQuiet(sc.passes) && 0 < sc.time <= s.time <= sc.time + maxAge
  }

  /** The four passes of one vault. A crash of the first two is only logged; a crash of the holder or
      writer pass ends the vault's turn. */
  method RunPasses(t: Turn) returns (ended: bool, completed: bool, quiet: bool)
    ensures ended == NoticesShutdown(t) && completed == RunsAllPasses(t)
    ensures completed ==> quiet == AllQuiet(t.passes)
    ensures completed ==> quiet == !Loud(t.passes)
  {
    QuietIff(t.passes);
    var p, shutdown := t.passes, t.shutdown;
    var listingsProgressed, listingsEmptyScan := false, false;
    if p.listings.Ran? {
      listingsProgressed, listingsEmptyScan := p.listings.txSent > 0, p.listings.found == 0;
    }
    var sweepProgressed, sweepEmptyScan := false, false;
    if p.orders.Ran? {
      sweepProgressed, sweepEmptyScan := p.orders.txSent > 0, p.orders.found == 0;
    }
    if shutdown == BeforeHolders { return true, false, false; }
    if p.holders.HolderCrashed? { return false, false, false; }
    var holderProgressed := p.holders.txSent > 0 || p.holders.atasCreated > 0;
    var totals := Totals(p.holders.mints);
    var holderEmptyScan := totals.0 - totals.1 == 0;
    if shutdown == BeforeWriters { return true, false, false; }
    if p.writers.WriterCrashed? { return false, false, false; }
    var writerProgressed := p.writers.txSent > 0 || p.writers.atasCreated > 0;
    var writerEmptyScan := p.writers.found == 0;
    ended, completed := false, true;
    quiet := listingsEmptyScan && sweepEmptyScan && holderEmptyScan && writerEmptyScan
      && !listingsProgressed && !sweepProgressed && !holderProgressed && !writerProgressed;
  }

  class Crank {
    var cache: PersistentFinalizeCache
    var cachedDone: nat
    var marksSinceFlush: nat
    const dryRun: bool
    ghost var scans: seq<Scan>
    ghost var skips: seq<Skip>

    /** Everything remembered, in memory or on disk, comes from a scan, and every skip so far was justified. */
    ghost predicate Valid()
      reads this, cache, cache.disk
    {
      && Tidy(cache.State())
      && (forall e :: e in cache.entries ==> Backed(e, scans))
      && (cache.disk.file.Versioned? ==> forall e :: e in cache.disk.file.entries ==> Backed(e, scans))
      && forall s :: s in skips ==> Justified(s, scans, cache.maxAgeSec)
    }

    ghost function Remembered(): Memory
      reads this, cache
    {
      Memory(cache.entries, skips, scans)
    }

    /** A process that starts with no file. */
    constructor (maxAge: int, dry: bool)
      ensures Valid() && fresh(cache) && fresh(cache.disk) && cache.maxAgeSec == maxAge
      ensures scans == [] && skips == [] && dryRun == dry
    {
      var disk := new Disk(Missing);
      cache := new PersistentFinalizeCache.Load(disk, maxAge);
      cachedDone, marksSinceFlush, dryRun := 0, 0, dry;
      scans, skips := [], [];
    }

    /** The process died and starts again: only the file is left. */
    method Reload()
      requires Valid()
      modifies this`cache
      ensures Valid() && fresh(cache) && cache.disk == old(cache.disk) && cache.maxAgeSec == old(cache.maxAgeSec)
      ensures cache.entries == Loaded(cache.disk.file)
    {
      ghost var file := cache.disk.file;
      ApplyKeepsTidy(cache.State(), CrashReload, cache.maxAgeSec);
      cache := new PersistentFinalizeCache.Load(cache.disk, cache.maxAgeSec);
      if file.Versioned? {
        LoadIsIdentity(file.entries);
      }
    }

    /** One vault's turn. Returns false if the sweep ends here. */
    method TakeTurn(t: Turn, nowSec: int) returns (goOn: bool)
      requires Valid()
      modifies this`cachedDone, this`marksSinceFlush, this`scans, this`skips, cache, cache.disk
      ensures Valid() && goOn == !TurnEnds(old(cache.entries), t, nowSec, cache.maxAgeSec)
      ensures Remembered() == TurnTaken(old(Remembered()), t, nowSec, cache.maxAgeSec, dryRun)
      ensures old(skips) <= skips && old(scans) <= scans
    {
      if t.shutdown == AtTop { return false; }
      if !t.gate.isSettled { return true; }
      var suppressed := cache.MaySuppress(t.key, t.gate, nowSec);
      if suppressed {
        SuppressedIsJustified(cache.entries, t.key, t.gate, nowSec, cache.maxAgeSec, scans);
        cachedDone := cachedDone + 1;
        skips := skips + [Skip(t.key, nowSec, t.gate)];
        return true;
      }
      var ended, completed, quiet := RunPasses(t);
      if ended { return false; }
      if completed { Conclude(t, nowSec, quiet); }
      goOn := true;
    }

    /** What follows when all four passes have run: the mark, and a flush every so many marks. */
    method Conclude(t: Turn, nowSec: int, quiet: bool)
      requires Valid() && quiet == AllQuiet(t.passes)
      modifies this`marksSinceFlush, this`scans, cache, cache.disk
      ensures Valid() && scans == old(scans) + [Scan(t.key, nowSec, t.passes)]
      ensures cache.entries == (if quiet && !dryRun then Added(old(cache.entries), t.key, nowSec) else old(cache.entries))
    {
      MoreScansBack(scans, Scan(t.key, nowSec, t.passes), cache.entries, cache.disk.file, skips, cache.maxAgeSec);
      scans := scans + [Scan(t.key, nowSec, t.passes)];
      if !dryRun && quiet {
        MarkDone(t.key, nowSec, t.flushWorks, t.passes);
      }
    }

    method MarkDone(key: string, nowSec: int, flushWorks: bool, ghost passes: Passes)
      requires Valid() && Scan(key, nowSec, passes) in scans && AllQuiet(passes)
      modifies this`marksSinceFlush, cache, cache.disk
      ensures Valid() && cache.entries == Added(old(cache.entries), key, nowSec)
      // Every 200th mark writes the file, the others do not touch it.
      ensures marksSinceFlush == if old(marksSinceFlush) >= 199 then 0 else old(marksSinceFlush) + 1
      ensures old(marksSinceFlush) >= 199 && flushWorks ==> Loaded(cache.disk.file) == cache.entries
      ensures old(marksSinceFlush) < 199 ==> cache.disk.file == old(cache.disk.file)
    {
      AddedIsBacked(cache.entries, key, nowSec, scans, passes);
      ApplyKeepsTidy(cache.State(), Op.Add(key, nowSec), cache.maxAgeSec);
      cache.Add(key, nowSec);
      marksSinceFlush := marksSinceFlush + 1;
      if marksSinceFlush >= FINALIZE_CACHE_FLUSH_EVERY {
        ApplyKeepsTidy(cache.State(), Op.Flush(flushWorks), cache.maxAgeSec);
        cache.Flush(flushWorks);
        marksSinceFlush := 0;
      }
    }

    /** Phase 2 of a tick. The process may die at any vault's turn or before the end; then nothing
        more is written and the caller has to reload. */
    method Sweep(turns: seq<Turn>, nowSec: int, endFlushWorks: bool, killedAtEnd: bool) returns (died: bool)
      requires Valid()
      modifies this`cachedDone, this`marksSinceFlush, this`scans, this`skips, cache, cache.disk
      ensures Valid() && old(scans) <= scans && old(skips) <= skips
      ensures died ==> killedAtEnd || exists t :: t in turns && t.killed
      // A sweep that is not killed skips, scans, marks and prunes as specified, and a working flush
      // makes the file hold exactly that.
      ensures !died ==>
        var m := Swept(old(Remembered()), turns, nowSec, cache.maxAgeSec, dryRun);
        && Remembered() == m.(entries := Pruned(m.entries, nowSec, cache.maxAgeSec))
        && (endFlushWorks ==> Loaded(cache.disk.file) == cache.entries)
    {
      marksSinceFlush := 0;
      died := Walk(turns, nowSec);
      if died || killedAtEnd { return true; }
      Finish(nowSec, endFlushWorks);
    }

    /** The loop over the vaults. */
    method Walk(turns: seq<Turn>, nowSec: int) returns (died: bool)
      requires Valid()
      modifies this`cachedDone, this`marksSinceFlush, this`scans, this`skips, cache, cache.disk
      ensures Valid() && old(scans) <= scans && old(skips) <= skips
      ensures died ==> exists t :: t in turns && t.killed
      ensures !died ==> Remembered() == Swept(old(Remembered()), turns, nowSec, cache.maxAgeSec, dryRun)
    {
      ghost var whole, rest := Swept(Remembered(), turns, nowSec, cache.maxAgeSec, dryRun), turns;
      for i := 0 to |turns|
        invariant Valid() && old(scans) <= scans && old(skips) <= skips && rest == turns[i..]
        invariant Swept(Remembered(), rest, nowSec, cache.maxAgeSec, dryRun) == whole
      {
        var t := turns[i];
        if t.killed { return true; }
        var goOn := TakeTurn(t, nowSec);
        if !goOn {
          assert Remembered() == whole;
          return false;
        }
        rest := rest[1..];
      }
      died := false;
    }

    method Finish(nowSec: int, flushWorks: bool)
      requires Valid()
      modifies cache, cache.disk
      ensures Valid() && cache.entries == Pruned(old(cache.entries), nowSec, cache.maxAgeSec)
      ensures flushWorks ==> Loaded(cache.disk.file) == cache.entries
    {
      PrunedIsBacked(cache.entries, nowSec, cache.maxAgeSec, scans);
      ApplyKeepsTidy(cache.State(), Op.Prune(nowSec), cache.maxAgeSec);
      var _ := cache.Prune(nowSec);
      ApplyKeepsTidy(cache.State(), Op.Flush(flushWorks), cache.maxAgeSec);
      cache.Flush(flushWorks);
    }
  }

  /** A shutdown is noticed before the holder pass or, if that did not crash, before the writer pass. */
  predicate NoticesShutdown(t: Turn) {
    t.shutdown == BeforeHolders || (t.shutdown == BeforeWriters && t.passes.holders.HolderRan?)
  }

  predicate RunsAllPasses(t: Turn) {
    !NoticesShutdown(t) && t.passes.holders.HolderRan? && t.passes.writers.WriterRan?
  }

  lemma SuppressedIsJustified(es: Entries, k: string, g: Gate, t: int, maxAge: int, scans: seq<Scan>)
    requires forall e :: e in es ==> Backed(e, scans)
    requires MaySuppressIn(es, k, g, t, maxAge)
    ensures Justified(Skip(k, t, g), scans, maxAge)
  {
    var e := es[IndexOf(es, k)];
    assert e in es && e.key == k;
    var sc :| sc in scans && sc.key == e.key && sc.time == e.value.sec && AllQuiet(sc.passes);
  }

  lemma MoreScansBack(scans: seq<Scan>, s: Scan, es: Entries, f: File, skips: seq<Skip>, maxAge: int)
    ensures forall e :: e in es && Backed(e, scans) ==> Backed(e, scans + [s])
    ensures f.Versioned? ==> forall e :: e in f.entries && Backed(e, scans) ==> Backed(e, scans + [s])
    ensures forall k :: k in skips && Justified(k, scans, maxAge) ==> Justified(k, scans + [s], maxAge)
  {
    forall k | k in skips && Justified(k, scans, maxAge) ensures Justified(k, scans + [s], maxAge) {
      var sc :| sc in scans && sc.key == k.key && AllQuiet(sc.passes) && 0 < sc.time <= k.time <= sc.time + maxAge;
      assert sc in scans + [s];
    }
    forall e | Backed(e, scans) ensures Backed(e, scans + [s]) {
      var sc :| sc in scans && sc.key == e.key && sc.time == e.value.sec && AllQuiet(sc.passes);
      assert sc in scans + [s];
    }
  }

  lemma AddedIsBacked(es: Entries, k: string, t: int, scans: seq<Scan>, p: Passes)
    requires forall e :: e in es ==> Backed(e, scans)
    requires Scan(k, t, p) in scans && AllQuiet(p)
    ensures forall e :: e in Added(es, k, t) ==> Backed(e, scans)
  {
    forall e | e in Added(es, k, t) ensures Backed(e, scans) {
      assert e in es || e == Entry(k, At(t));
      assert Scan(k, t, p).key == k;
    }
  }

  lemma PrunedIsBacked(es: Entries, t: int, maxAge: int, scans: seq<Scan>)
    requires forall e :: e in es ==> Backed(e, scans)
    ensures forall e :: e in Pruned(es, t, maxAge) ==> Backed(e, scans)
  {
    PrunedMembers(es, t, maxAge);
  }

  /** The cached entries, the skips taken and the scans made so far. */
  datatype Memory = Memory(entries: Entries, skips: seq<Skip>, scans: seq<Scan>)

  predicate Suppressed(es: Entries, t: Turn, now: int, maxAge: int) {
    MaySuppressIn(es, t.key, t.gate, now, maxAge)
  }

  /** One vault's turn: unsettled vaults are passed over, settled ones skipped or scanned, and
      marked if the scan was complete and quiet. */
  function TurnTaken(m: Memory, t: Turn, now: int, maxAge: int, dryRun: bool): Memory {
    if t.shutdown == AtTop || !t.gate.isSettled then m
    else if Suppressed(m.entries, t, now, maxAge) then m.(skips := m.skips + [Skip(t.key, now, t.gate)])
    else if !RunsAllPasses(t) then m
    else m.(entries := if AllQuiet(t.passes) && !dryRun then Added(m.entries, t.key, now) else m.entries,
            scans := m.scans + [Scan(t.key, now, t.passes)])
  }

  /** The sweep ends at this turn because a shutdown was noticed. */
  predicate TurnEnds(es: Entries, t: Turn, now: int, maxAge: int) {
    || t.shutdown == AtTop
    || (t.gate.isSettled && !Suppressed(es, t, now, maxAge) && NoticesShutdown(t))
  }

  function Swept(m: Memory, turns: seq<Turn>, now: int, maxAge: int, dryRun: bool): Memory
    decreases |turns|
  {
    if turns == [] then m
    else
      var m' := TurnTaken(m, turns[0], now, maxAge, dryRun);
      if TurnEnds(m.entries, turns[0], now, maxAge) then m' else Swept(m', turns[1..], now, maxAge, dryRun)
  }

  /** A vault is marked only if it was settled, no shutdown was noticed on its turn, and every pass came
      back with an empty report; otherwise the cache stays as it was. */
  lemma LoudTurnMarksNothing(m: Memory, t: Turn, now: int, maxAge: int, dryRun: bool)
    requires Loud(t.passes) || t.shutdown != Never || !t.gate.isSettled || dryRun
    ensures TurnTaken(m, t, now, maxAge, dryRun).entries == m.entries
  {
    QuietIff(t.passes);
  }

  /** A settled vault whose turn is not cut short is scanned, unless nothing is left in it and its mark is
      within the trust window; then it is skipped. */
  lemma ScannedOrSkipped(m: Memory, t: Turn, now: int, maxAge: int, dryRun: bool)
    requires t.gate.isSettled && t.shutdown == Never && t.passes.holders.HolderRan? && t.passes.writers.WriterRan?
    ensures var m' := TurnTaken(m, t, now, maxAge, dryRun);
      if t.gate.collateralRemaining <= 0 && MarkedWithin(m.entries, t.key, now, maxAge)
      then m'.skips == m.skips + [Skip(t.key, now, t.gate)] && m'.scans == m.scans
      else m'.skips == m.skips && m'.scans == m.scans + [Scan(t.key, now, t.passes)]
  {
  }

  ghost predicate MarkedWithin(es: Entries, key: string, now: int, maxAge: int) {
    exists sec :: Get(es, key) == Some(At(sec)) && 0 < sec <= now && now - sec <= maxAge
  }

  /** And if all that holds, it is marked with the time of the sweep, unless it is being skipped or the
      cache is full. */
  lemma QuietTurnMarks(m: Memory, t: Turn, now: int, maxAge: int)
    requires !Loud(t.passes) && t.shutdown == Never && t.gate.isSettled
    requires !Suppressed(m.entries, t, now, maxAge)
    requires |m.entries| < 100_000 || Get(m.entries, t.key).Some?
    ensures forall k :: Get(TurnTaken(m, t, now, maxAge, false).entries, k)
                     == if k == t.key then Some(At(now)) else Get(m.entries, k)
  {
    QuietIff(t.passes);
    forall k { GetSet(m.entries, t.key, At(now), k); }
  }

  /** A shutdown noticed at the top of a turn, or before the holder pass of a vault that is scanned, ends
      the sweep: it is as if the turns from there on had not been due. */
  lemma {:induction false} ShutdownEndsSweep(m: Memory, turns: seq<Turn>, i: nat, now: int, maxAge: int, dryRun: bool)
    requires i < |turns|
    requires var before := Swept(m, turns[..i], now, maxAge, dryRun);
      || turns[i].shutdown == AtTop
      || (turns[i].shutdown == BeforeHolders && turns[i].gate.isSettled && !Suppressed(before.entries, turns[i], now, maxAge))
    ensures Swept(m, turns, now, maxAge, dryRun) == Swept(m, turns[..i], now, maxAge, dryRun)
    decreases i
  {
    if i > 0 && !TurnEnds(m.entries, turns[0], now, maxAge) {
      assert turns[..i][1..] == turns[1..][..i - 1];
      ShutdownEndsSweep(TurnTaken(m, turns[0], now, maxAge, dryRun), turns[1..], i - 1, now, maxAge, dryRun);
    }
  }

  /** The saving: a quiet scan of a drained vault suppresses its scans for the whole trust window, and
      while it is being skipped its mark stays what it was. */
  lemma QuietScanSuppresses(m: Memory, t: Turn, now: int, later: int, maxAge: int)
    requires t.gate.isSettled && t.gate.collateralRemaining <= 0 && t.shutdown == Never
    requires AllQuiet(t.passes) && Accepts(m.entries, t.key) && 0 < now <= later <= now + maxAge
    requires !Suppressed(m.entries, t, now, maxAge)
    ensures var m' := TurnTaken(m, t, now, maxAge, false);
      && Get(m'.entries, t.key) == Some(At(now))
      && Suppressed(m'.entries, t, later, maxAge)
      && TurnTaken(m', t, later, maxAge, false).entries == m'.entries
  {
    GetSet(m.entries, t.key, At(now), t.key);
  }

  /** The scan a skip rests on: of the same vault, no longer ago than the trust window, and no pass of it
      crashed, found or sent anything. */
  ghost predicate Behind(sc: Scan, s: Skip, maxAge: int) {
    sc.key == s.key && 0 < sc.time <= s.time && s.time - sc.time <= maxAge && !Loud(sc.passes)
  }

  // ---- Any run of sweeps and crashes -------------------------------------------------------------

  datatype Step = SweepAt(turns: seq<Turn>, nowSec: int, flushWorks: bool, killed: bool) | CrashBetween

  /** Bounded scan gap: over any run of sweeps, each of which the process may not survive, every
      vault ever skipped was settled with nothing left, and had really been scanned, with all four
      passes quiet, no more than the trust window before. */
  method RunSweeps(crank: Crank, steps: seq<Step>)
    requires crank.Valid()
    modifies crank, crank.cache, crank.cache.disk
    ensures crank.Valid() && old(crank.skips) <= crank.skips
    ensures crank.cache.maxAgeSec == old(crank.cache.maxAgeSec)
    ensures forall s :: s in crank.skips ==> Justified(s, crank.scans, crank.cache.maxAgeSec)
    // Pass by pass: what the scan behind a skip saw.
    ensures forall s :: s in crank.skips ==>
      && s.gate.isSettled && s.gate.collateralRemaining <= 0
      && exists sc :: sc in crank.scans && Behind(sc, s, crank.cache.maxAgeSec)
  {
    ghost var disk := crank.cache.disk;
    for i := 0 to |steps|
      invariant crank.Valid() && old(crank.skips) <= crank.skips
      invariant crank.cache.maxAgeSec == old(crank.cache.maxAgeSec) && crank.cache.disk == disk
      invariant crank.cache == old(crank.cache) || fresh(crank.cache)
    {
      match steps[i]
      case CrashBetween => crank.Reload();
      case SweepAt(turns, now, works, killed) =>
        var died := crank.Sweep(turns, now, works, killed);
        if died { crank.Reload(); }
    }
    SkipsSawNothing(crank.skips, crank.scans, crank.cache.maxAgeSec);
  }

  lemma SkipsSawNothing(skips: seq<Skip>, scans: seq<Scan>, maxAge: int)
    requires forall s :: s in skips ==> Justified(s, scans, maxAge)
    ensures forall s :: s in skips ==>
      s.gate.isSettled && s.gate.collateralRemaining <= 0 && exists sc :: sc in scans && Behind(sc, s, maxAge)
  {
    forall s | s in skips ensures exists sc :: sc in scans && Behind(sc, s, maxAge) {
      var sc :| sc in scans && sc.key == s.key && AllQuiet(sc.passes) && 0 < sc.time <= s.time <= sc.time + maxAge;
      QuietIff(sc.passes);
      assert Behind(sc, s, maxAge);
    }
  }
}
