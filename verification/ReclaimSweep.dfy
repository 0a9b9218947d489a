/** The sweep that drives reclaimVault: which vaults are candidates, what one pass over them does and
    reports, and what later ticks can still do. */
module ReclaimSweep {
  import opened Prelude
  import opened Reclaim

  const RECLAIM_GRACE_WINDOW_S := 604_800

  /** What the sweep sees of one vault, from a list fetched earlier: asset is None for an unknown
      market, record None when the settlement probe failed. */
  datatype View = View(isSettled: bool, voided: bool, expiry: int, asset: Option<string>, record: Option<bool>)

  /** clusterNow is None when the cluster time could not be read. */
  predicate Candidate(view: View, clusterNow: Option<int>) {
    && clusterNow.Some?
    && !view.isSettled && !view.voided
    && view.expiry + RECLAIM_GRACE_WINDOW_S < clusterNow.value
    && view.asset.Some? && view.asset.value != ""
    && view.record == Some(false)
  }

  // ---- One pass over the vaults -------------------------------------------------------------------

  /** The vault's token balance as read before and after its turn; None if the read throws. */
  datatype Balances = Balances(before: Option<int>, after: Option<int>)

  /** One vault when the sweep comes to it. */
  datatype Turn = Turn(chain: Chain, order: seq<nat>, tape: seq<Answer>, view: View, balances: Balances)

  datatype Outcome = Skipped | Blocked | Crashed | Processed(reclaims: nat, drawn: int)

  datatype SweepResult = SweepResult(candidates: nat, voided: nat, writersReclaimed: nat, usdcMoved: int, errors: nat)

  predicate TurnsInRange(turns: seq<Turn>) {
    forall i :: 0 <= i < |turns| ==> InRange(turns[i].chain, turns[i].order)
  }

  /** How a candidate's turn ends once its first balance was read. */
  function Concluded(report: Option<Report>, b: Balances, dryRun: bool): Outcome
    requires dryRun || b.before.Some?
  {
    if report.None? || (!dryRun && b.after.None?) then Crashed
    else Processed(report.value.reclaims, if dryRun then 0 else b.before.value - b.after.value)
  }

  /** The first balance is read outside the try block, everything after it inside. */
  function OutcomeOf(t: Turn, clusterNow: Option<int>, dryRun: bool): Outcome
    requires InRange(t.chain, t.order)
  {
    if !Candidate(t.view, clusterNow) then Skipped
    else if !dryRun && t.balances.before.None? then Blocked
    else Concluded(RunOnce(t.chain, t.order, t.tape, dryRun).report, t.balances, dryRun)
  }

  function ChainAfter(t: Turn, clusterNow: Option<int>, dryRun: bool): Chain
    requires InRange(t.chain, t.order)
  {
    var o := OutcomeOf(t, clusterNow, dryRun);
    if o.Skipped? || o.Blocked? then t.chain else RunOnce(t.chain, t.order, t.tape, dryRun).chain
  }

  function Counted(r: SweepResult, o: Outcome, dryRun: bool): SweepResult {
    match o
    case Skipped => r
    case Blocked => r.(candidates := r.candidates + 1)
    case Crashed => r.(candidates := r.candidates + 1, errors := r.errors + 1)
    case Processed(reclaims, drawn) =>
      SweepResult(r.candidates + 1, if dryRun then r.voided else r.voided + 1,
                  r.writersReclaimed + reclaims, r.usdcMoved + Max(0, drawn), r.errors)
  }

  function Outcomes(turns: seq<Turn>, clusterNow: Option<int>, dryRun: bool): seq<Outcome>
    requires TurnsInRange(turns)
  {
    seq(|turns|, i requires 0 <= i < |turns| => OutcomeOf(turns[i], clusterNow, dryRun))
  }

  function ChainsAfter(turns: seq<Turn>, clusterNow: Option<int>, dryRun: bool): seq<Chain>
    requires TurnsInRange(turns)
  {
    seq(|turns|, i requires 0 <= i < |turns| => ChainAfter(turns[i], clusterNow, dryRun))
  }

  /** The counters those outcomes call for. */
  function Tally(outcomes: seq<Outcome>, dryRun: bool): SweepResult {
    if outcomes == [] then SweepResult(0, 0, 0, 0, 0)
    else Counted(Tally(outcomes[..|outcomes| - 1], dryRun), outcomes[|outcomes| - 1], dryRun)
  }

  ghost predicate Facing(rpc: Rpc, t: Turn)
    reads rpc
  {
    rpc.chain == t.chain && rpc.order == t.order && rpc.tape == t.tape
  }

  /** runReclaimSweep; None if it throws. A crash inside reclaimVault costs only its own vault. A
      throwing first balance read ends the whole pass: the vaults behind it are not looked at. */
  method RunReclaimSweep(clusterNow: Option<int>, rpcs: seq<Rpc>, views: seq<View>, balances: seq<Balances>, dryRun: bool,
                         ghost turns: seq<Turn>)
    returns (res: Option<SweepResult>, ghost reached: nat)
    requires |rpcs| == |views| == |balances| == |turns| && TurnsInRange(turns)
    requires forall i, j :: 0 <= i < j < |rpcs| ==> rpcs[i] != rpcs[j]
    requires forall i :: 0 <= i < |rpcs| ==>
      Facing(rpcs[i], turns[i]) && turns[i].view == views[i] && turns[i].balances == balances[i]
    modifies set r | r in rpcs
    ensures var outcomes, after := Outcomes(turns, clusterNow, dryRun), ChainsAfter(turns, clusterNow, dryRun);
      && reached <= |turns|
      && (forall i :: 0 <= i < reached ==> !outcomes[i].Blocked? && rpcs[i].chain == after[i])
      && (forall i :: reached <= i < |turns| ==> Facing(rpcs[i], turns[i]))
      && (res.None? ==> reached < |turns| && outcomes[reached].Blocked?)
      && (res.Some? ==> reached == |turns| && res.value == Tally(outcomes, dryRun))
  {
    ghost var outcomes, after := Outcomes(turns, clusterNow, dryRun), ChainsAfter(turns, clusterNow, dryRun);
    if clusterNow.None? {
      NoClockNoCandidates(turns, dryRun);
      return Some(SweepResult(0, 0, 0, 0, 0)), |turns|;
    }
    res, reached := WalkVaults(clusterNow, rpcs, views, balances, dryRun, turns, outcomes, after);
  }

  /** The turn will end so, and leave the vault so. */
  ghost predicate Foreseen(t: Turn, clusterNow: Option<int>, dryRun: bool, outcome: Outcome, after: Chain) {
    InRange(t.chain, t.order) && outcome == OutcomeOf(t, clusterNow, dryRun) && after == ChainAfter(t, clusterNow, dryRun)
  }

  /** The loop over the vaults. */
  method WalkVaults(clusterNow: Option<int>, rpcs: seq<Rpc>, views: seq<View>, balances: seq<Balances>, dryRun: bool,
                    ghost turns: seq<Turn>, ghost outcomes: seq<Outcome>, ghost after: seq<Chain>)
    returns (res: Option<SweepResult>, ghost reached: nat)
    requires |rpcs| == |views| == |balances| == |turns| == |outcomes| == |after|
    requires forall i, j :: 0 <= i < j < |rpcs| ==> rpcs[i] != rpcs[j]
    requires forall i :: 0 <= i < |rpcs| ==>
      Facing(rpcs[i], turns[i]) && turns[i].view == views[i] && turns[i].balances == balances[i]
    requires forall i {:trigger Foreseen(turns[i], clusterNow, dryRun, outcomes[i], after[i])} ::
      0 <= i < |turns| ==> Foreseen(turns[i], clusterNow, dryRun, outcomes[i], after[i])
    modifies set r | r in rpcs
    ensures reached <= |turns|
    ensures forall i :: 0 <= i < reached ==> !outcomes[i].Blocked?
    ensures forall i :: 0 <= i < reached ==> rpcs[i].chain == after[i]
    ensures forall i :: reached <= i < |turns| ==> Facing(rpcs[i], turns[i])
    ensures res.None? ==> reached < |turns| && outcomes[reached].Blocked?
    ensures res.Some? ==> reached == |turns| && res.value == Tally(outcomes, dryRun)
  {
    var r := SweepResult(0, 0, 0, 0, 0);
    reached := 0;
    for i := 0 to |rpcs|
      invariant reached == i
      invariant forall j :: 0 <= j < i ==> !outcomes[j].Blocked?
      invariant forall j :: 0 <= j < i ==> rpcs[j].chain == after[j]
      invariant forall j :: i <= j < |turns| ==> Facing(rpcs[j], turns[j])
      invariant r == Tally(outcomes[..i], dryRun)
    {
      var blocked;
      assert Foreseen(turns[i], clusterNow, dryRun, outcomes[i], after[i]);
      blocked, r := SweepOne(clusterNow, rpcs[i], views[i], balances[i], dryRun, r, turns[i], outcomes[i], after[i]);
      if blocked { return None, reached; }
      TallyStep(outcomes, i, dryRun);
      reached := i + 1;
    }
    assert outcomes[..|turns|] == outcomes;
    res := Some(r);
  }

  lemma TallyStep(outcomes: seq<Outcome>, i: nat, dryRun: bool)
    requires i < |outcomes|
    ensures Tally(outcomes[..i + 1], dryRun) == Counted(Tally(outcomes[..i], dryRun), outcomes[i], dryRun)
  {
    assert outcomes[..i + 1][..i] == outcomes[..i];
  }

  /** One vault's turn; `blocked` if its first balance read throws. */
  method SweepOne(clusterNow: Option<int>, rpc: Rpc, view: View, balances: Balances, dryRun: bool, r0: SweepResult,
                  ghost t: Turn, ghost outcome: Outcome, ghost after: Chain)
    returns (blocked: bool, r: SweepResult)
    requires Foreseen(t, clusterNow, dryRun, outcome, after)
    requires Facing(rpc, t) && t.view == view && t.balances == balances
    modifies rpc
    ensures blocked == outcome.Blocked? && r == Counted(r0, outcome, dryRun)
    ensures rpc.chain == after && (blocked ==> Facing(rpc, t))
  {
    if !Candidate(view, clusterNow) { return false, r0; }
    if !dryRun && balances.before.None? { return true, r0.(candidates := r0.candidates + 1); }
    var report := ReclaimVault(rpc, dryRun);
    RunReports(t.chain, t.order, t.tape, dryRun);
    r := CountCandidate(report, balances, dryRun, r0);
    blocked := false;
  }

  /** The counters after a candidate's turn. */
  method CountCandidate(report: Option<Report>, balances: Balances, dryRun: bool, r0: SweepResult) returns (r: SweepResult)
    requires dryRun || balances.before.Some?
    requires report.Some? && !dryRun ==> report.value.voidSent || report.value.alreadyVoided
    ensures r == Counted(r0, Concluded(report, balances, dryRun), dryRun)
  {
    r := r0.(candidates := r0.candidates + 1);
    if report.None? || (!dryRun && balances.after.None?) {
      return r.(errors := r.errors + 1);
    }
    var drawn := if dryRun then 0 else balances.before.value - balances.after.value;
    if drawn > 0 { r := r.(usdcMoved := r.usdcMoved + drawn); }
    if !dryRun && (report.value.voidSent || report.value.alreadyVoided) { r := r.(voided := r.voided + 1); }
    r := r.(writersReclaimed := r.writersReclaimed + report.value.reclaims);
  }

  lemma RunReports(c: Chain, order: seq<nat>, tape: seq<Answer>, dryRun: bool)
    requires InRange(c, order)
    ensures var report := RunOnce(c, order, tape, dryRun).report;
      report.Some? ==> report.value.alreadyVoided == c.voided && report.value.voidSent == (!c.voided && !dryRun)
  {
  }

  lemma NoClockNoCandidates(turns: seq<Turn>, dryRun: bool)
    requires TurnsInRange(turns)
    ensures forall i :: 0 <= i < |turns| ==> Outcomes(turns, None, dryRun)[i] == Skipped
    ensures forall i :: 0 <= i < |turns| ==> ChainsAfter(turns, None, dryRun)[i] == turns[i].chain
    ensures Tally(Outcomes(turns, None, dryRun), dryRun) == SweepResult(0, 0, 0, 0, 0)
  {
    AllSkipped(Outcomes(turns, None, dryRun), dryRun);
  }

  lemma {:induction false} AllSkipped(outcomes: seq<Outcome>, dryRun: bool)
    requires forall i :: 0 <= i < |outcomes| ==> outcomes[i] == Skipped
    ensures Tally(outcomes, dryRun) == SweepResult(0, 0, 0, 0, 0)
  {
    if outcomes != [] {
      AllSkipped(outcomes[..|outcomes| - 1], dryRun);
    }
  }

  // ---- Who is a candidate, and what the counters count ------------------------------------------------

  /** A vault is passed over iff the cluster time is unknown, or it is settled, voided, or not past the
      week of grace, or its market or the absence of its settlement record could not be established. */
  lemma SkippedIff(t: Turn, clusterNow: Option<int>, dryRun: bool)
    requires InRange(t.chain, t.order)
    ensures OutcomeOf(t, clusterNow, dryRun).Skipped? <==>
      || clusterNow.None? || t.view.isSettled || t.view.voided
      || clusterNow.value - t.view.expiry <= 7 * 24 * 60 * 60
      || t.view.asset.None? || |t.view.asset.value| == 0
      || t.view.record.None? || t.view.record.value
  {
  }

  /** How a candidate's turn ends: blocked if its first balance cannot be read, processed if the run
      completes and the second balance can be read, crashed otherwise; a dry run reads no balances. */
  lemma OutcomeIs(t: Turn, clusterNow: Option<int>, dryRun: bool)
    requires InRange(t.chain, t.order) && !OutcomeOf(t, clusterNow, dryRun).Skipped?
    ensures var o, report := OutcomeOf(t, clusterNow, dryRun), RunOnce(t.chain, t.order, t.tape, dryRun).report;
      && (o.Blocked? <==> !dryRun && t.balances.before.None?)
      && (o.Processed? <==> report.Some? && (dryRun || (t.balances.before.Some? && t.balances.after.Some?)))
      && (o.Blocked? ==> ChainAfter(t, clusterNow, dryRun) == t.chain)
  {
  }

  /** The places that hold such an outcome. */
  ghost function Where(outcomes: seq<Outcome>, p: Outcome -> bool): set<int> {
    set i | 0 <= i < |outcomes| && p(outcomes[i])
  }

  lemma WhereSnoc(outcomes: seq<Outcome>, o: Outcome, p: Outcome -> bool)
    ensures |Where(outcomes + [o], p)| == |Where(outcomes, p)| + if p(o) then 1 else 0
  {
    OneMore(Where(outcomes, p), Where(outcomes + [o], p), |outcomes|, p(o));
  }

  function Reclaims(o: Outcome): nat {
    if o.Processed? then o.reclaims else 0
  }

  function Moved(o: Outcome): nat {
    if o.Processed? && o.drawn > 0 then o.drawn else 0
  }

  function Each(outcomes: seq<Outcome>, amount: Outcome -> nat): seq<nat> {
    seq(|outcomes|, i requires 0 <= i < |outcomes| => amount(outcomes[i]))
  }

  lemma EachSnoc(outcomes: seq<Outcome>, o: Outcome, amount: Outcome -> nat)
    ensures Sum(Each(outcomes + [o], amount)) == Sum(Each(outcomes, amount)) + amount(o)
  {
    assert Each(outcomes + [o], amount)[..|outcomes|] == Each(outcomes, amount);
  }

  /** The counters count: vaults not passed over, vaults whose turn crashed, vaults processed for real,
      reclaims made by processed vaults, and what left their balances. */
  lemma {:induction false} TallyMeans(outcomes: seq<Outcome>, dryRun: bool)
    ensures var r := Tally(outcomes, dryRun);
      && r.candidates == |Where(outcomes, (o: Outcome) => !o.Skipped?)|
      && r.errors == |Where(outcomes, (o: Outcome) => o.Crashed?)|
      && r.voided == (if dryRun then 0 else |Where(outcomes, (o: Outcome) => o.Processed?)|)
      && r.writersReclaimed == Sum(Each(outcomes, Reclaims))
      && r.usdcMoved == Sum(Each(outcomes, Moved))
    decreases |outcomes|
  {
    if outcomes != [] {
      var front, o := outcomes[..|outcomes| - 1], outcomes[|outcomes| - 1];
      assert outcomes == front + [o];
      TallyMeans(front, dryRun);
      WhereSnoc(front, o, (o: Outcome) => !o.Skipped?);
      WhereSnoc(front, o, (o: Outcome) => o.Crashed?);
      WhereSnoc(front, o, (o: Outcome) => o.Processed?);
      EachSnoc(front, o, Reclaims);
      EachSnoc(front, o, Moved);
    }
  }

  /** A processed vault is voided, nobody holds shares in it, and its outcome says how many held some
      and by how much its balance fell. */
  lemma ProcessedMeans(t: Turn, clusterNow: Option<int>)
    requires Enumerates(t.order, |t.chain.positions|) && OutcomeOf(t, clusterNow, false).Processed?
    ensures PaidOut(ChainAfter(t, clusterNow, false))
    ensures var o := OutcomeOf(t, clusterNow, false);
      && t.balances.before.Some? && t.balances.after.Some?
      && o.drawn == t.balances.before.value - t.balances.after.value
      && o.reclaims == |set i: nat | i < |t.chain.positions| && t.chain.positions[i].writer.shares > 0|
  {
    CompletesIff(t.chain, t.order, t.tape, false);
    ListsHolders(t.chain, t.order);
    CompletedPaysOut(t.chain, t.order, t.tape);
  }

  lemma ListsHolders(c: Chain, order: seq<nat>)
    requires Enumerates(order, |c.positions|)
    ensures |Listing(c, order)| == |set i: nat | i < |c.positions| && c.positions[i].writer.shares > 0|
  {
    ListingDistinct(c, order);
    DistinctCover(Listing(c, order), set i: nat | i < |c.positions| && c.positions[i].writer.shares > 0);
  }

  /** Whatever the state it started from, a completed run leaves a voided vault without shares. */
  lemma CompletedPaysOut(c: Chain, order: seq<nat>, tape: seq<Answer>)
    requires Enumerates(order, |c.positions|) && RunOnce(c, order, tape, false).report.Some?
    ensures PaidOut(RunOnce(c, order, tape, false).chain)
  {
    var (c1, t1, reached) := VoidPhase(c, tape, false);
    VoidPhaseOutcome(c, tape, false);
    var list := Listing(c1, order);
    ListingInRange(c1, order);
    ListingDistinct(c1, order);
    var m := PhasePaysPrefix(c1, list, Tail(t1), 0);
    assert list[..m] == list;
    forall i | 0 <= i < |c1.positions| ensures PayInOrder(c1, list).positions[i].writer.shares == 0 {
      if i in list {
        var k :| 0 <= k < |list| && list[k] == i;
        PayInOrderPays(c1, list, k);
      } else {
        PayInOrderUntouched(c1, list, i);
      }
    }
  }

  // ---- What the counters are worth --------------------------------------------------------------------

  function Received(c: Chain): seq<nat> {
    seq(|c.positions|, i requires 0 <= i < |c.positions| => |c.positions[i].received|)
  }

  /** All the payments made to this vault's writers so far. */
  function Payments(c: Chain): nat {
    Sum(Received(c))
  }

  lemma SumBump(s: seq<nat>, k: nat)
    requires k < |s|
    ensures Sum(s[k := s[k] + 1]) == Sum(s) + 1
  {
    var t := s[k := s[k] + 1];
    SumRemove(s, k);
    SumRemove(t, k);
    assert t[..k] == s[..k] && t[k + 1..] == s[k + 1..];
  }

  lemma {:induction false} PayInOrderAdds(c: Chain, list: seq<nat>)
    requires InRange(c, list)
    ensures Payments(PayInOrder(c, list)) == Payments(c) + |list|
    decreases |list|
  {
    if list != [] {
      var before, i := PayInOrder(c, list[..|list| - 1]), list[|list| - 1];
      PayInOrderAdds(c, list[..|list| - 1]);
      assert Received(Settle(before, i)) == Received(before)[i := Received(before)[i] + 1];
      SumBump(Received(before), i);
    }
  }

  /** A completed run pays exactly as many writers as it reports; one that throws may have paid some. */
  lemma RunPays(c: Chain, order: seq<nat>, tape: seq<Answer>, dryRun: bool)
    requires InRange(c, order)
    ensures var run := RunOnce(c, order, tape, dryRun);
      && Payments(c) <= Payments(run.chain)
      && (run.report.Some? ==> Payments(run.chain) == Payments(c) + run.report.value.reclaims)
  {
    var (c1, t1, reached) := VoidPhase(c, tape, dryRun);
    VoidPhaseOutcome(c, tape, dryRun);
    assert Received(c1) == Received(c);
    if reached && Head(t1).Fine? {
      ListingInRange(c1, order);
      var list := Listing(c1, order);
      if dryRun {
        DryRunSendsNothing(c1, list, Tail(t1), 0);
      } else {
        var m := PhasePaysPrefix(c1, list, Tail(t1), 0);
        PayInOrderAdds(c1, list[..m]);
      }
    }
  }

  /** How many payments each turn made. */
  function Growths(turns: seq<Turn>, clusterNow: Option<int>, dryRun: bool): seq<int>
    requires TurnsInRange(turns)
  {
    seq(|turns|, i requires 0 <= i < |turns| =>
      Payments(ChainAfter(turns[i], clusterNow, dryRun)) - Payments(turns[i].chain))
  }

  function Total(growths: seq<int>): int {
    if growths == [] then 0 else Total(growths[..|growths| - 1]) + growths[|growths| - 1]
  }

  /** The payments of turns that were then reported as errors. */
  function Unreported(outcomes: seq<Outcome>, growths: seq<int>): int
    requires |outcomes| == |growths|
  {
    if outcomes == [] then 0
    else
      var n := |outcomes| - 1;
      Unreported(outcomes[..n], growths[..n]) + if outcomes[n].Crashed? then growths[n] else 0
  }

  /** A turn that is not reported as an error made exactly the payments it reports. */
  predicate Honest(o: Outcome, growth: int) {
    growth >= 0 && (!o.Crashed? ==> growth == if o.Processed? then o.reclaims else 0)
  }

  lemma {:induction false} TallyOfHonest(outcomes: seq<Outcome>, growths: seq<int>, dryRun: bool)
    requires |outcomes| == |growths| && forall i :: 0 <= i < |outcomes| ==> Honest(outcomes[i], growths[i])
    ensures Total(growths) == Tally(outcomes, dryRun).writersReclaimed + Unreported(outcomes, growths)
    ensures Unreported(outcomes, growths) >= 0
    ensures Tally(outcomes, dryRun).errors == 0 ==> Unreported(outcomes, growths) == 0
  {
    if outcomes != [] {
      var n := |outcomes| - 1;
      TallyOfHonest(outcomes[..n], growths[..n], dryRun);
      assert Honest(outcomes[n], growths[n]);
    }
  }

  lemma TurnIsHonest(t: Turn, clusterNow: Option<int>, dryRun: bool)
    requires InRange(t.chain, t.order)
    ensures Honest(OutcomeOf(t, clusterNow, dryRun), Payments(ChainAfter(t, clusterNow, dryRun)) - Payments(t.chain))
  {
    RunPays(t.chain, t.order, t.tape, dryRun);
  }

  /** writersReclaimed is what was paid less what was paid in turns that ended in an error; so it never
      overstates, and it is exact when there are no errors. */
  lemma ReportsNeverOverstate(turns: seq<Turn>, clusterNow: Option<int>, dryRun: bool)
    requires TurnsInRange(turns)
    ensures var outcomes, growths := Outcomes(turns, clusterNow, dryRun), Growths(turns, clusterNow, dryRun);
      var res, hidden := Tally(outcomes, dryRun), Unreported(outcomes, growths);
      Total(growths) == res.writersReclaimed + hidden && hidden >= 0 && (res.errors == 0 ==> hidden == 0)
  {
    var outcomes, growths := Outcomes(turns, clusterNow, dryRun), Growths(turns, clusterNow, dryRun);
    forall i | 0 <= i < |turns| ensures Honest(outcomes[i], growths[i]) {
      TurnIsHonest(turns[i], clusterNow, dryRun);
    }
    TallyOfHonest(outcomes, growths, dryRun);
  }

  // ---- Later ticks --------------------------------------------------------------------------------------

  datatype Tick = Tick(clusterNow: Option<int>, view: View, session: Session)

  /** What one tick in which the sweep reaches this vault does to it. */
  function SweepTick(c: Chain, t: Tick): Chain
    requires InRange(c, t.session.order)
  {
    if Candidate(t.view, t.clusterNow) then RunOnce(c, t.session.order, t.session.tape, t.session.dryRun).chain else c
  }

  predicate TicksInRange(c: Chain, ticks: seq<Tick>) {
    forall k :: 0 <= k < |ticks| ==> InRange(c, ticks[k].session.order)
  }

  function AfterTicks(c: Chain, ticks: seq<Tick>): (c': Chain)
    requires TicksInRange(c, ticks)
    ensures |c'.positions| == |c.positions|
  {
    if ticks == [] then c
    else
      var t := ticks[|ticks| - 1];
      var before := AfterTicks(c, ticks[..|ticks| - 1]);
      assert InRange(c, t.session.order);
      RunKeepsPositions(before, t.session.order, t.session.tape, t.session.dryRun);
      SweepTick(before, t)
  }

  /** The sweep never resumes: once the lists it works on show the vault voided, no number of ticks
      changes anything. So it finishes a vault iff it did so before that. */
  lemma {:induction false} SweepNeverResumes(c: Chain, before: seq<Tick>, later: seq<Tick>)
    requires TicksInRange(c, before) && TicksInRange(c, before + later)
    requires forall k :: 0 <= k < |later| ==> later[k].view.voided
    ensures AfterTicks(c, before + later) == AfterTicks(c, before)
    decreases |later|
  {
    if later == [] {
      assert before + later == before;
    } else {
      var init := later[..|later| - 1];
      assert (before + later)[..|before + later| - 1] == before + init;
      SweepNeverResumes(c, before, init);
    }
  }

  /** A vault that at every tick was settled, had a settlement record or was within the week of grace is
      never touched; nor is one the sweep cannot establish these things about. */
  lemma {:induction false} NeverTouched(c: Chain, ticks: seq<Tick>)
    requires TicksInRange(c, ticks)
    requires forall k :: 0 <= k < |ticks| ==>
      var v, now := ticks[k].view, ticks[k].clusterNow;
      || v.isSettled || v.record.None? || v.record.value || now.None? || now.value - v.expiry <= 7 * 24 * 60 * 60
      || v.asset.None? || |v.asset.value| == 0
    ensures AfterTicks(c, ticks) == c
    decreases |ticks|
  {
    if ticks != [] {
      NeverTouched(c, ticks[..|ticks| - 1]);
    }
  }

  /** And one that meets every condition is paid out by a tick in which all goes well. */
  lemma CandidateIsPaidOut(c: Chain, t: Tick)
    requires Enumerates(t.session.order, |c.positions|) && !t.session.dryRun
    requires FineTape(t.session.tape, 5 + 2 * |Listing(c, t.session.order)|)
    requires !t.view.isSettled && !t.view.voided && t.view.record == Some(false)
    requires t.view.asset.Some? && |t.view.asset.value| > 0
    requires t.clusterNow.Some? && t.clusterNow.value - t.view.expiry > 7 * 24 * 60 * 60
    ensures PaidOut(SweepTick(c, t))
  {
    FineTapeCompletes(c, t.session.order, t.session.tape);
    CompletedPaysOut(c, t.session.order, t.session.tape);
  }

  // ---- When the sweep pays everybody ---------------------------------------------------------------

  /** Every tick works on a list that is up to date about this vault. */
  predicate Accurate(c0: Chain, ticks: seq<Tick>)
    requires TicksInRange(c0, ticks)
  {
    forall k :: 0 <= k < |ticks| ==> ticks[k].view.voided == AfterTicks(c0, ticks[..k]).voided
  }

  /** What a run of this tick makes of the fresh vault. */
  function RunOf(c0: Chain, t: Tick): Chain
    requires InRange(c0, t.session.order)
  {
    RunOnce(c0, t.session.order, t.session.tape, t.session.dryRun).chain
  }

  /** Tick k found the vault untouched, was a candidate for it, and voided it. */
  predicate Voids(c0: Chain, ticks: seq<Tick>, k: nat)
    requires TicksInRange(c0, ticks) && k < |ticks|
  {
    && AfterTicks(c0, ticks[..k]) == c0
    && Candidate(ticks[k].view, ticks[k].clusterNow)
    && RunOf(c0, ticks[k]).voided
  }

  lemma FreshRun(c0: Chain, t: Tick) returns (paid: seq<nat>)
    requires Fresh(c0) && Distinct(t.session.order) && InRange(c0, t.session.order)
    ensures paid <= Listing(c0, t.session.order) && History(c0, RunOf(c0, t), paid)
    ensures !RunOf(c0, t).voided ==> RunOf(c0, t) == c0
  {
    paid := RunExtendsHistory(c0, c0, [], t.session.order, t.session.tape, t.session.dryRun);
    assert [] + paid == paid;
  }

  predicate OrdersDistinct(ticks: seq<Tick>) {
    forall k :: 0 <= k < |ticks| ==> Distinct(ticks[k].session.order)
  }

  /** One chance: on up-to-date lists, over any number of ticks the vault is untouched, or exactly as the
      one run left it that voided it. */
  lemma {:induction false} OneChance(c0: Chain, ticks: seq<Tick>) returns (k: nat)
    requires Fresh(c0) && TicksInRange(c0, ticks) && OrdersDistinct(ticks) && Accurate(c0, ticks)
    ensures AfterTicks(c0, ticks) == c0
         || (k < |ticks| && Voids(c0, ticks, k) && AfterTicks(c0, ticks) == RunOf(c0, ticks[k]))
    decreases |ticks|
  {
    k := 0;
    if ticks != [] {
      var n := |ticks| - 1;
      var before, t := ticks[..n], ticks[n];
      forall j | 0 <= j < n ensures before[..j] == ticks[..j] && before[j] == ticks[j] {
      }
      k := OneChance(c0, before);
      var c := AfterTicks(c0, before);
      if c == c0 {
        var paid := FreshRun(c0, t);
        k := n;
      }
    }
  }

  lemma VoidedOnce(c0: Chain, ticks: seq<Tick>, j: nat, k: nat)
    requires Fresh(c0) && TicksInRange(c0, ticks) && OrdersDistinct(ticks) && Accurate(c0, ticks)
    requires j < |ticks| && k < |ticks| && Voids(c0, ticks, j) && Voids(c0, ticks, k)
    ensures j == k
  {
    var first, second := if j < k then j else k, if j < k then k else j;
    if first < second {
      VoidingTick(c0, ticks, first);
      StaysVoided(c0, ticks, RunOf(c0, ticks[first]), first + 1, second);
    }
  }

  lemma NextTick(c0: Chain, ticks: seq<Tick>, k: nat)
    requires TicksInRange(c0, ticks) && k < |ticks|
    ensures TicksInRange(c0, ticks[..k]) && TicksInRange(c0, ticks[..k + 1])
    ensures InRange(AfterTicks(c0, ticks[..k]), ticks[k].session.order)
    ensures AfterTicks(c0, ticks[..k + 1]) == SweepTick(AfterTicks(c0, ticks[..k]), ticks[k])
  {
    assert ticks[..k + 1][..k] == ticks[..k];
  }

  lemma VoidingTick(c0: Chain, ticks: seq<Tick>, j: nat)
    requires TicksInRange(c0, ticks) && j < |ticks| && Voids(c0, ticks, j)
    ensures AfterTicks(c0, ticks[..j + 1]) == RunOf(c0, ticks[j])
  {
    NextTick(c0, ticks, j);
  }

  lemma VoidedTick(c0: Chain, ticks: seq<Tick>, k: nat)
    requires TicksInRange(c0, ticks) && Accurate(c0, ticks) && k < |ticks| && AfterTicks(c0, ticks[..k]).voided
    ensures AfterTicks(c0, ticks[..k + 1]) == AfterTicks(c0, ticks[..k])
  {
    NextTick(c0, ticks, k);
  }

  lemma {:induction false} StaysVoided(c0: Chain, ticks: seq<Tick>, c: Chain, j: nat, k: nat)
    requires TicksInRange(c0, ticks) && Accurate(c0, ticks)
    requires j <= k <= |ticks| && AfterTicks(c0, ticks[..j]) == c && c.voided
    ensures AfterTicks(c0, ticks[..k]) == c
    decreases k
  {
    if j < k {
      StaysVoided(c0, ticks, c, j, k - 1);
      VoidedTick(c0, ticks, k - 1);
    }
  }

  /** The vault is voided and nobody holds shares in it any more. */
  predicate PaidOut(c: Chain) {
    c.voided && forall i :: 0 <= i < |c.positions| ==> c.positions[i].writer.shares == 0
  }

  /** A run of a fresh vault pays it out iff it got through its whole listing. */
  lemma PaidOutIffWholeListing(c0: Chain, t: Tick)
    requires Fresh(c0) && Enumerates(t.session.order, |c0.positions|)
    requires RunOf(c0, t).voided
    ensures InRange(Start(c0), Listing(c0, t.session.order))
    ensures PaidOut(RunOf(c0, t)) <==> RunOf(c0, t) == PayInOrder(Start(c0), Listing(c0, t.session.order))
  {
    var list := Listing(c0, t.session.order);
    var paid := FreshRun(c0, t);
    InRangeOfPayable(c0, t.session.order);
    ListingDistinct(c0, t.session.order);
    WholeListing(c0, RunOf(c0, t), t.session.order, paid);
  }

  lemma WholeListing(c0: Chain, c: Chain, order: seq<nat>, paid: seq<nat>)
    requires Fresh(c0) && Enumerates(order, |c0.positions|) && Distinct(Listing(c0, order))
    requires paid <= Listing(c0, order) && c.voided && History(c0, c, paid)
    requires InRange(Start(c0), Listing(c0, order))
    ensures PaidOut(c) <==> c == PayInOrder(Start(c0), Listing(c0, order))
  {
    var list := Listing(c0, order);
    ListingDistinct(c0, order);
    HistoryIsOrdered(c0, c, paid, list);
    if PaidOut(c) {
      PayableAfter(c0, c, paid, 0);
      if |paid| < |list| {
        PayableAfter(c0, c, paid, list[|paid|]);
      }
      assert paid == list;
    }
    if c == PayInOrder(Start(c0), list) {
      assert History(c0, c, list);
      PayableAfter(c0, c, list, 0);
      forall i | 0 <= i < |c.positions| ensures c.positions[i].writer.shares == 0 {
        PayableAfter(c0, c, list, i);
      }
    }
  }

  lemma HistoryIsOrdered(c0: Chain, c: Chain, paid: seq<nat>, list: seq<nat>)
    requires Fresh(c0) && History(c0, c, paid) && c.voided && paid <= list && Distinct(list)
    requires forall i :: i in list ==> Payable(c0, i)
    ensures c == PayInOrder(Start(c0), paid) && AllPayable(c0, list)
  {
    assert forall k :: 0 <= k < |list| ==> list[k] in list;
  }

  /** On up-to-date lists, any number of ticks leaves the vault paid out iff the one run that voided it got
      through its whole listing; there is no second chance. */
  lemma SweepPaysOutIff(c0: Chain, ticks: seq<Tick>)
    requires Fresh(c0) && TicksInRange(c0, ticks) && Accurate(c0, ticks)
    requires forall k :: 0 <= k < |ticks| ==> Enumerates(ticks[k].session.order, |c0.positions|)
    ensures PaidOut(AfterTicks(c0, ticks)) <==>
      exists k: nat :: k < |ticks| && Voids(c0, ticks, k) && WentThrough(c0, ticks[k])
  {
    assert OrdersDistinct(ticks) && ticks[..|ticks|] == ticks;
    var k := OneChance(c0, ticks);
    if AfterTicks(c0, ticks) == c0 {
      forall j: nat | j < |ticks| && Voids(c0, ticks, j) ensures false {
        VoidingTick(c0, ticks, j);
        StaysVoided(c0, ticks, RunOf(c0, ticks[j]), j + 1, |ticks|);
      }
    } else {
      PaidOutIffWholeListing(c0, ticks[k]);
      forall j: nat | j < |ticks| && Voids(c0, ticks, j) ensures j == k {
        VoidedOnce(c0, ticks, j, k);
      }
    }
  }

  /** This tick's run paid its whole listing. */
  predicate WentThrough(c0: Chain, t: Tick)
    requires InRange(c0, t.session.order)
  {
    InRangeOfPayable(c0, t.session.order);
    RunOf(c0, t) == PayInOrder(Start(c0), Listing(c0, t.session.order))
  }

  /** The failing family: if the void lands but its confirmation throws, no later tick pays anybody,
      whatever the vault holds, although a direct run of reclaimVault still completes. */
  lemma {:induction false} LostConfirmationStrandsWriters(c0: Chain, t: Tick, later: seq<Tick>, tape: seq<Answer>)
    requires Fresh(c0) && Candidate(t.view, t.clusterNow) && !t.session.dryRun
    requires t.session.tape == [Fine, Fine, LandsThenThrows]
    requires TicksInRange(c0, [t] + later) && InRange(c0, t.session.order) && Distinct(t.session.order)
    requires forall k :: 0 <= k < |later| ==> later[k].view.voided
    requires FineTape(tape, 5 + 2 * |Listing(c0, t.session.order)|)
    ensures AfterTicks(c0, [t] + later) == Start(c0)
    ensures RunOnce(Start(c0), t.session.order, tape, false).report.Some?
  {
    assert [t][..0] == [];
    assert Tail(t.session.tape) == [Fine, LandsThenThrows] && Tail([Fine, LandsThenThrows]) == [LandsThenThrows];
    assert VoidPhase(c0, t.session.tape, false) == (Start(c0), [], false);
    assert AfterTicks(c0, [t]) == SweepTick(c0, t) == Start(c0);
    SweepNeverResumes(c0, [t], later);
    ListingSame(c0, Start(c0), t.session.order);
    FineTapeCompletes(Start(c0), t.session.order, tape);
  }
}
