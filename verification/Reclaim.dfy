/** The two-phase reclaim of one dead-feed vault: initialize_void, then one reclaim per writer.
    Every step talks to the chain and may fail, may land and still throw, or may never return
    because the process died. */
module Reclaim {
  import opened Prelude
  import opened WindDown

  // ---- The chain, as far as the protocol sees it ------------------------------------

  datatype Payment = Payment(collateral: int, premium: nat)

  /** A writer's position together with every payment it has received so far. */
  datatype Position = Position(writer: WriterPosition, received: seq<Payment>)

  datatype Chain = Chain(vault: Vault, voided: bool, till: Till, positions: seq<Position>)

  /** initialize_void: seeds the till and sets `voided`; a second one reverts. */
  function InitializeVoid(c: Chain): Option<Chain> {
    if c.voided then None else Some(c.(voided := true, till := PostVoid(c.vault)))
  }

  function Payable(c: Chain, i: nat): bool {
    i < |c.positions| && c.positions[i].writer.shares > 0
  }

  function PaymentDue(c: Chain, i: nat): Payment
    requires i < |c.positions|
  {
    var w := c.positions[i].writer;
    Payment(Draw(c.till, w.shares), Premium(c.vault, w))
  }

  /** reclaim_unsettled: reverts unless the vault is voided and the writer holds shares; pays the writer,
      moves its premium checkpoint and zeroes its shares. */
  function ReclaimUnsettled(c: Chain, i: nat): Option<Chain>
    requires i < |c.positions|
  {
    if !c.voided || c.positions[i].writer.shares == 0 then None else Some(Settle(c, i))
  }

  /** The position once this payment was made. */
  function Closed(p: Position, due: Payment): Position {
    Position(p.writer.(shares := 0, premiumClaimed := p.writer.premiumClaimed + due.premium), p.received + [due])
  }

  function Settle(c: Chain, i: nat): Chain
    requires i < |c.positions|
  {
    c.(till := PayOne(c.till, c.positions[i].writer.shares),
       positions := c.positions[i := Closed(c.positions[i], PaymentDue(c, i))])
  }

  /** Writer positions with shares left, in the order the RPC enumerates them. */
  function Listing(c: Chain, order: seq<nat>): seq<nat> {
    if order == [] then []
    else (if Payable(c, order[0]) then [order[0]] else []) + Listing(c, order[1..])
  }

  predicate Enumerates(order: seq<nat>, n: nat) {
    && (forall k :: 0 <= k < |order| ==> order[k] < n)
    && (forall j, k :: 0 <= j < k < |order| ==> order[j] != order[k])
    && (forall i :: 0 <= i < n ==> i in order)
  }

  predicate InRange(c: Chain, list: seq<nat>) {
    forall k :: 0 <= k < |list| ==> list[k] < |c.positions|
  }

  // ---- One run of reclaimVault ---------------------------------------------------------

  /** How one interaction with the chain went. For a read, anything but `Fine` throws. */
  datatype Answer = Fine | Fails | LandsThenThrows

  datatype Report = Report(alreadyVoided: bool, voidSent: bool, writersFound: nat, reclaims: nat)

  datatype Run = Run(chain: Chain, tape: seq<Answer>, report: Option<Report>)

  /** The tape is the sequence of answers to come; when it is used up the process dies. */
  class Rpc {
    var chain: Chain
    var tape: seq<Answer>
    const order: seq<nat>

    constructor (c: Chain, answers: seq<Answer>, enumeration: seq<nat>)
      ensures chain == c && tape == answers && order == enumeration
    {
      chain, tape, order := c, answers, enumeration;
    }

    method Next() returns (a: Answer)
      modifies this`tape
      ensures a == Head(old(tape)) && tape == Tail(old(tape))
    {
      a := Head(tape);
      tape := Tail(tape);
    }

    method Read() returns (ok: bool)
      modifies this`tape
      ensures ok == Head(old(tape)).Fine? && tape == Tail(old(tape))
    {
      var a := Next();
      ok := a.Fine?;
    }

    /** Send a transaction with the given effect (None: it reverts); true iff it returned normally. */
    method SendAndConfirm(effect: Option<Chain>) returns (ok: bool)
      modifies this
      ensures chain == Landed(old(chain), effect, Head(old(tape))) && tape == Tail(old(tape))
      ensures ok == (Head(old(tape)).Fine? && effect.Some?)
    {
      var a := Next();
      if !a.Fails? && effect.Some? {
        chain := effect.value;
      }
      ok := a.Fine? && effect.Some?;
    }
  }

  function Head(tape: seq<Answer>): Answer {
    if tape == [] then Fails else tape[0]
  }

  function Tail(tape: seq<Answer>): seq<Answer> {
    if tape == [] then [] else tape[1..]
  }

  function Landed(c: Chain, effect: Option<Chain>, a: Answer): Chain {
    if a.Fails? || effect.None? then c else effect.value
  }

  /** Phase 1: the chain and tape after it, and whether phase 2 is reached. */
  function VoidPhase(c: Chain, tape: seq<Answer>, dryRun: bool): (Chain, seq<Answer>, bool) {
    var t1 := Tail(tape);
    if !Head(tape).Fine? then (c, t1, false)
    else if c.voided then (c, t1, true)
    else if !Head(t1).Fine? || dryRun then (c, Tail(t1), Head(t1).Fine?)
    else
      var t2 := Tail(t1);
      var c' := Landed(c, InitializeVoid(c), Head(t2));
      if !Head(t2).Fine? then (c', Tail(t2), false)
      else (c', Tail(Tail(t2)), Head(Tail(t2)).Fine? && c'.voided)
  }

  /** Phase 2: build and send one reclaim after another; None when one of them threw. */
  function ReclaimPhase(c: Chain, list: seq<nat>, tape: seq<Answer>, dryRun: bool, sent: nat): (Chain, seq<Answer>, Option<nat>)
    requires InRange(c, list)
    decreases |list|
  {
    if list == [] then (c, tape, Some(sent))
    else if !Head(tape).Fine? then (c, Tail(tape), None)
    else if dryRun then ReclaimPhase(c, list[1..], Tail(tape), dryRun, sent)
    else
      var t1 := Tail(tape);
      var effect := ReclaimUnsettled(c, list[0]);
      var c' := Landed(c, effect, Head(t1));
      if !Head(t1).Fine? || effect.None? then (c', Tail(t1), None)
      else ReclaimPhase(c', list[1..], Tail(t1), dryRun, sent + 1)
  }

  function RunOnce(c: Chain, order: seq<nat>, tape: seq<Answer>, dryRun: bool): Run
    requires InRange(c, order)
  {
    var (c1, t1, reached) := VoidPhase(c, tape, dryRun);
    if !reached || !Head(t1).Fine? then Run(c1, if reached then Tail(t1) else t1, None)
    else
      var list := Listing(c1, order);
      ListingInRange(c1, order);
      var (c2, t2, sent) := ReclaimPhase(c1, list, Tail(t1), dryRun, 0);
      Run(c2, t2, if sent.None? then None
                  else Some(Report(c.voided, !c.voided && !dryRun, |list|, sent.value)))
  }

  lemma {:induction false} ListingInRange(c: Chain, order: seq<nat>)
    ensures forall k :: 0 <= k < |Listing(c, order)| ==> Payable(c, Listing(c, order)[k]) && Listing(c, order)[k] in order
  {
    if order != [] {
      ListingInRange(c, order[1..]);
    }
  }

  /** reclaimVault. `None` stands for an exception or a dead process. */
  method ReclaimVault(rpc: Rpc, dryRun: bool) returns (r: Option<Report>)
    requires InRange(rpc.chain, rpc.order)
    modifies rpc
    ensures RunOnce(old(rpc.chain), rpc.order, old(rpc.tape), dryRun) == Run(rpc.chain, rpc.tape, r)
  {
    var wasVoided := rpc.chain.voided;
    var reached := EnsureVoided(rpc, dryRun);
    if !reached { return None; }
    var ok := rpc.Read();
    if !ok { return None; }
    var writers := Listing(rpc.chain, rpc.order);
    ListingInRange(rpc.chain, rpc.order);
    var sigs := ReclaimEach(rpc, writers, dryRun);
    if sigs.None? { return None; }
    r := Some(Report(wasVoided, !wasVoided && !dryRun, |writers|, sigs.value));
  }

  /** Phase 1 and the ordering barrier. */
  method EnsureVoided(rpc: Rpc, dryRun: bool) returns (reached: bool)
    modifies rpc
    ensures VoidPhase(old(rpc.chain), old(rpc.tape), dryRun) == (rpc.chain, rpc.tape, reached)
  {
    var ok := rpc.Read();
    if !ok { return false; }
    if rpc.chain.voided { return true; }
    ok := rpc.Read(); // building the instruction reads the vault and its market
    if !ok { return false; }
    if dryRun { return true; }
    ok := rpc.SendAndConfirm(InitializeVoid(rpc.chain));
    if !ok { return false; }
    ok := rpc.Read();
    reached := ok && rpc.chain.voided;
  }

  /** Phase 2: one reclaim per listed writer. */
  method ReclaimEach(rpc: Rpc, writers: seq<nat>, dryRun: bool) returns (sigs: Option<nat>)
    requires InRange(rpc.chain, writers)
    modifies rpc
    ensures ReclaimPhase(old(rpc.chain), writers, old(rpc.tape), dryRun, 0) == (rpc.chain, rpc.tape, sigs)
  {
    var n := 0;
    for i := 0 to |writers|
      invariant |rpc.chain.positions| == old(|rpc.chain.positions|)
      invariant ReclaimPhase(rpc.chain, writers[i..], rpc.tape, dryRun, n)
             == ReclaimPhase(old(rpc.chain), writers, old(rpc.tape), dryRun, 0)
    {
      assert writers[i..][1..] == writers[i + 1..];
      var ok := rpc.Read();
      if !ok { return None; }
      if !dryRun {
        ok := rpc.SendAndConfirm(ReclaimUnsettled(rpc.chain, writers[i]));
        if !ok { return None; }
        n := n + 1;
      }
    }
    sigs := Some(n);
  }

  // ---- Histories: what any sequence of runs leaves behind ---------------------------------

  predicate Fresh(c: Chain) {
    !c.voided && forall i :: 0 <= i < |c.positions| ==> c.positions[i].received == []
  }

  function Start(c0: Chain): Chain {
    c0.(voided := true, till := PostVoid(c0.vault))
  }

  predicate AllPayable(c: Chain, list: seq<nat>) {
    forall k :: 0 <= k < |list| ==> Payable(c, list[k])
  }

  function PayInOrder(c: Chain, list: seq<nat>): (c': Chain)
    requires InRange(c, list)
    ensures |c'.positions| == |c.positions| && c'.vault == c.vault && c'.voided == c.voided
  {
    if list == [] then c
    else Settle(PayInOrder(c, list[..|list| - 1]), list[|list| - 1])
  }

  /** The shares the listed writers hold in `c`. */
  function SharesOf(c: Chain, list: seq<nat>): seq<nat>
    requires InRange(c, list)
  {
    seq(|list|, k requires 0 <= k < |list| => c.positions[list[k]].writer.shares)
  }

  /** What the k-th writer of the list is paid: its draw in the wind-down order, and its premium. */
  function Due(c: Chain, list: seq<nat>, k: nat): Payment
    requires InRange(c, list) && k < |list|
  {
    Payment(Paid(c.till, SharesOf(c, list), k), Premium(c.vault, c.positions[list[k]].writer))
  }

  /** The k-th listed writer's position once it was paid. */
  function PaidOff(c: Chain, list: seq<nat>, k: nat): Position
    requires InRange(c, list) && k < |list|
  {
    Closed(c.positions[list[k]], Due(c, list, k))
  }

  /** The guards: before the void nobody is paid, and a writer that was paid is refused a second time. */
  lemma ReclaimOnce(c: Chain, i: nat)
    requires i < |c.positions|
    ensures !c.voided ==> ReclaimUnsettled(c, i).None? && InitializeVoid(c) == Some(Start(c))
    ensures c.voided ==> InitializeVoid(c).None?
    ensures c.voided && c.positions[i].writer.shares > 0 ==>
      ReclaimUnsettled(c, i).Some? && ReclaimUnsettled(ReclaimUnsettled(c, i).value, i).None?
  {
  }

  /** Paying writers moves the till as the wind-down does. */
  lemma {:induction false} PayInOrderTill(c: Chain, list: seq<nat>)
    requires InRange(c, list) && Distinct(list)
    ensures PayInOrder(c, list).till == After(c.till, SharesOf(c, list))
    decreases |list|
  {
    if list != [] {
      var n := |list| - 1;
      PayInOrderTill(c, list[..n]);
      assert SharesOf(c, list)[..n] == SharesOf(c, list[..n]);
      PayInOrderUntouched(c, list[..n], list[n]);
    }
  }

  lemma {:induction false} PayInOrderUntouched(c: Chain, list: seq<nat>, i: nat)
    requires InRange(c, list) && i < |c.positions| && i !in list
    ensures PayInOrder(c, list).positions[i] == c.positions[i]
    decreases |list|
  {
    if list != [] {
      var n := |list| - 1;
      assert forall j :: j in list[..n] ==> j in list;
      PayInOrderUntouched(c, list[..n], i);
      assert list[n] in list;
    }
  }

  /** A listed writer gets exactly its due, once, and loses its shares. */
  lemma {:induction false} PayInOrderPays(c: Chain, list: seq<nat>, k: nat)
    requires InRange(c, list) && Distinct(list) && k < |list|
    ensures PayInOrder(c, list).positions[list[k]] == PaidOff(c, list, k)
    decreases |list|
  {
    var n := |list| - 1;
    var init := list[..n];
    assert SharesOf(c, list)[..k] == SharesOf(c, init)[..k];
    if k < n {
      PayInOrderPays(c, init, k);
      assert PaidOff(c, list, k) == PaidOff(c, init, k);
    } else {
      PayInOrderTill(c, init);
      assert SharesOf(c, init)[..k] == SharesOf(c, init);
      PayInOrderUntouched(c, init, list[n]);
    }
  }

  lemma {:induction false} PayInOrderConcat(c: Chain, a: seq<nat>, b: seq<nat>)
    requires InRange(c, a) && InRange(c, b)
    ensures InRange(c, a + b) && PayInOrder(c, a + b) == PayInOrder(PayInOrder(c, a), b)
    decreases |b|
  {
    if b == [] {
      assert a + b == a;
    } else {
      PayInOrderConcat(c, a, b[..|b| - 1]);
      assert (a + b)[..|a + b| - 1] == a + b[..|b| - 1];
    }
  }

  /** `c` is what is left of `c0` after the writers in `paid` were paid, in that order. */
  predicate History(c0: Chain, c: Chain, paid: seq<nat>) {
    && Distinct(paid) && AllPayable(c0, paid)
    && ((paid == [] && c == c0) || c == PayInOrder(Start(c0), paid))
  }

  /** A position in a history: untouched, or paid off at its place in the order. */
  lemma PositionAfter(c0: Chain, c: Chain, paid: seq<nat>, i: nat) returns (k: nat)
    requires Fresh(c0) && History(c0, c, paid) && i < |c0.positions|
    ensures |c.positions| == |c0.positions|
    ensures i !in paid ==> c.positions[i] == c0.positions[i]
    ensures i in paid ==> k < |paid| && paid[k] == i && c.positions[i] == PaidOff(Start(c0), paid, k)
  {
    k := 0;
    if i in paid {
      k :| 0 <= k < |paid| && paid[k] == i;
      PayInOrderPays(Start(c0), paid, k);
    } else {
      PayInOrderUntouched(Start(c0), paid, i);
    }
  }

  lemma PayableAfter(c0: Chain, c: Chain, paid: seq<nat>, i: nat)
    requires Fresh(c0) && History(c0, c, paid)
    ensures Payable(c, i) <==> Payable(c0, i) && i !in paid
    ensures |c.positions| == |c0.positions|
  {
    if i < |c0.positions| {
      var _ := PositionAfter(c0, c, paid, i);
    }
  }

  lemma {:induction false} ListingDistinct(c: Chain, order: seq<nat>)
    requires Distinct(order)
    ensures Distinct(Listing(c, order))
    ensures forall i :: i in Listing(c, order) <==> i in order && Payable(c, i)
  {
    if order != [] {
      ListingDistinct(c, order[1..]);
      assert forall i :: i in order <==> i == order[0] || i in order[1..];
    }
  }

  lemma ListingSnoc(c: Chain, order: seq<nat>, i: nat)
    ensures Listing(c, order + [i]) == Listing(c, order) + (if Payable(c, i) then [i] else [])
    decreases |order|
  {
    if order != [] {
      assert (order + [i])[1..] == order[1..] + [i];
      ListingSnoc(c, order[1..], i);
    }
  }

  /** The listing is the enumeration without those that hold no shares, in the same order. */
  lemma {:induction false} ListingPlaces(c: Chain, order: seq<nat>) returns (places: seq<nat>)
    ensures Selects(order, Listing(c, order), places)
    ensures forall k :: 0 <= k < |order| ==>
      (k in places <==> order[k] < |c.positions| && c.positions[order[k]].writer.shares > 0)
    decreases |order|
  {
    places := [];
    if order != [] {
      var n := |order| - 1;
      var before := ListingPlaces(c, order[..n]);
      assert order == order[..n] + [order[n]];
      ListingSnoc(c, order[..n], order[n]);
      places := SelectsMore(order[..n], order[n], Listing(c, order[..n]), before, Payable(c, order[n]));
    }
  }

  /** Phase 2 pays a prefix of its listing, and all of it when it completes. */
  lemma {:induction false} PhasePaysPrefix(c: Chain, list: seq<nat>, tape: seq<Answer>, sent: nat) returns (m: nat)
    requires InRange(c, list) && c.voided
    ensures m <= |list|
    ensures ReclaimPhase(c, list, tape, false, sent).0 == PayInOrder(c, list[..m])
    ensures ReclaimPhase(c, list, tape, false, sent).2.Some? ==>
      m == |list| && ReclaimPhase(c, list, tape, false, sent).2.value == sent + m
    decreases |list|
  {
    m := 0;
    if list != [] && Head(tape).Fine? && !Head(Tail(tape)).Fails? && ReclaimUnsettled(c, list[0]).Some? {
      if Head(Tail(tape)).Fine? {
        m := PhasePaysPrefix(Settle(c, list[0]), list[1..], Tail(Tail(tape)), sent + 1);
      }
      PayFirstThenRest(c, list, m);
      m := m + 1;
    }
  }

  lemma PayFirstThenRest(c: Chain, list: seq<nat>, m: nat)
    requires InRange(c, list) && m < |list|
    ensures PayInOrder(c, list[..m + 1]) == PayInOrder(Settle(c, list[0]), list[1..][..m])
  {
    PayFirst(c, list[0], list[1..][..m]);
    assert [list[0]] + list[1..][..m] == list[..m + 1];
  }

  lemma PayFirst(c: Chain, i: nat, rest: seq<nat>)
    requires InRange(c, [i]) && InRange(c, rest) && i < |c.positions|
    ensures InRange(c, [i] + rest) && PayInOrder(c, [i] + rest) == PayInOrder(Settle(c, i), rest)
  {
    assert [i][..0] == [];
    PayInOrderConcat(c, [i], rest);
  }

  lemma {:induction false} DryRunSendsNothing(c: Chain, list: seq<nat>, tape: seq<Answer>, sent: nat)
    requires InRange(c, list)
    ensures ReclaimPhase(c, list, tape, true, sent).0 == c
    ensures ReclaimPhase(c, list, tape, true, sent).2.Some? ==> ReclaimPhase(c, list, tape, true, sent).2.value == sent
    decreases |list|
  {
    if list != [] {
      DryRunSendsNothing(c, list[1..], Tail(tape), sent);
    }
  }

  /** One more run, stopped anywhere, extends the history by a prefix of what it would list;
      a complete one by all of it. */
  lemma RunExtendsHistory(c0: Chain, c: Chain, paid: seq<nat>, order: seq<nat>, tape: seq<Answer>, dryRun: bool)
    returns (more: seq<nat>)
    requires Fresh(c0) && History(c0, c, paid) && Distinct(order) && InRange(c, order)
    ensures var run := RunOnce(c, order, tape, dryRun);
      && more <= Listing(c, order)
      && History(c0, run.chain, paid + more)
      && (run.report.Some? && !dryRun ==>
            more == Listing(c, order) && run.report.value.reclaims == |more| && run.chain.voided)
      && (dryRun ==> run.chain == c)
  {
    var (c1, t1, reached) := VoidPhase(c, tape, dryRun);
    VoidPhaseOutcome(c, tape, dryRun);
    more := [];
    assert paid + more == paid;
    if reached && Head(t1).Fine? {
      ListingSame(c, c1, order);
      ListingInRange(c1, order);
      if dryRun {
        DryRunSendsNothing(c1, Listing(c1, order), Tail(t1), 0);
      } else {
        var m := PhasePaysPrefix(c1, Listing(c1, order), Tail(t1), 0);
        more := Listing(c, order)[..m];
        HistoryGrows(c0, c, c1, paid, order, m);
      }
    }
  }

  lemma HistoryGrows(c0: Chain, c: Chain, c1: Chain, paid: seq<nat>, order: seq<nat>, m: nat)
    requires Fresh(c0) && History(c0, c, paid) && Distinct(order) && m <= |Listing(c, order)|
    requires c1.voided && (c1 == c || (c1 == Start(c) && !c.voided))
    requires InRange(c1, Listing(c, order))
    ensures History(c0, PayInOrder(c1, Listing(c, order)[..m]), paid + Listing(c, order)[..m])
  {
    var list := Listing(c, order);
    var more := list[..m];
    ListingDistinct(c, order);
    forall k | 0 <= k < |more| ensures Payable(c0, more[k]) && more[k] !in paid {
      assert more[k] == list[k] && list[k] in list;
      PayableAfter(c0, c, paid, more[k]);
    }
    VoidedHistory(c0, c, c1, paid);
    HistoryOf(c0, c1, paid, more);
  }

  lemma HistoryOf(c0: Chain, c1: Chain, paid: seq<nat>, more: seq<nat>)
    requires AllPayable(c0, paid) && c1 == PayInOrder(Start(c0), paid) && Distinct(paid) && Distinct(more)
    requires forall k :: 0 <= k < |more| ==> Payable(c0, more[k]) && more[k] !in paid
    ensures InRange(c1, more) && History(c0, PayInOrder(c1, more), paid + more)
  {
    GrownHistory(c0, paid, more);
    PayInOrderConcat(Start(c0), paid, more);
  }

  lemma GrownHistory(c0: Chain, paid: seq<nat>, more: seq<nat>)
    requires Distinct(paid) && AllPayable(c0, paid) && Distinct(more)
    requires forall k :: 0 <= k < |more| ==> Payable(c0, more[k]) && more[k] !in paid
    ensures Distinct(paid + more) && AllPayable(c0, paid + more)
  {
    DistinctConcat(paid, more);
  }

  lemma VoidedHistory(c0: Chain, c: Chain, c1: Chain, paid: seq<nat>)
    requires Fresh(c0) && History(c0, c, paid)
    requires c1.voided && (c1 == c || (c1 == Start(c) && !c.voided))
    ensures c1 == PayInOrder(Start(c0), paid)
  {
  }

  lemma DistinctConcat(a: seq<nat>, b: seq<nat>)
    requires Distinct(a) && Distinct(b)
    requires forall k :: 0 <= k < |b| ==> b[k] !in a
    ensures Distinct(a + b)
  {
    forall j, k | 0 <= j < k < |a + b| ensures (a + b)[j] != (a + b)[k] {
      if j < |a| <= k {
        assert a[j] in a && b[k - |a|] !in a;
      }
    }
  }

  lemma VoidPhaseOutcome(c: Chain, tape: seq<Answer>, dryRun: bool)
    ensures var (c1, _, reached) := VoidPhase(c, tape, dryRun);
      && (c1 == c || (!c.voided && !dryRun && c1 == Start(c)))
      && (reached && !dryRun ==> c1.voided)
  {
  }

  lemma {:induction false} ListingSame(c: Chain, c': Chain, order: seq<nat>)
    requires c.positions == c'.positions
    ensures Listing(c, order) == Listing(c', order)
  {
    if order != [] {
      ListingSame(c, c', order[1..]);
    }
  }

  // ---- Crash and resume ------------------------------------------------------------------------

  datatype Session = Session(order: seq<nat>, tape: seq<Answer>, dryRun: bool)

  predicate WellEnumerated(c: Chain, sessions: seq<Session>) {
    forall k :: 0 <= k < |sessions| ==> Enumerates(sessions[k].order, |c.positions|)
  }

  /** The chain after a sequence of runs, each of which may have stopped anywhere. */
  function AfterSessions(c: Chain, sessions: seq<Session>): (c': Chain)
    requires WellEnumerated(c, sessions)
    ensures |c'.positions| == |c.positions|
  {
    if sessions == [] then c
    else
      var s := sessions[|sessions| - 1];
      var before := AfterSessions(c, sessions[..|sessions| - 1]);
      RunKeepsPositions(before, s.order, s.tape, s.dryRun);
      RunOnce(before, s.order, s.tape, s.dryRun).chain
  }

  lemma RunKeepsPositions(c: Chain, order: seq<nat>, tape: seq<Answer>, dryRun: bool)
    requires InRange(c, order)
    ensures |RunOnce(c, order, tape, dryRun).chain.positions| == |c.positions|
  {
    var (c1, t1, reached) := VoidPhase(c, tape, dryRun);
    if reached && Head(t1).Fine? {
      ListingInRange(c1, order);
      PhaseKeepsPositions(c1, Listing(c1, order), Tail(t1), dryRun, 0);
    }
  }

  lemma {:induction false} PhaseKeepsPositions(c: Chain, list: seq<nat>, tape: seq<Answer>, dryRun: bool, sent: nat)
    requires InRange(c, list)
    ensures |ReclaimPhase(c, list, tape, dryRun, sent).0.positions| == |c.positions|
    decreases |list|
  {
    if list != [] && Head(tape).Fine? {
      if dryRun {
        PhaseKeepsPositions(c, list[1..], Tail(tape), dryRun, sent);
      } else if ReclaimUnsettled(c, list[0]).Some? && Head(Tail(tape)).Fine? {
        PhaseKeepsPositions(Settle(c, list[0]), list[1..], Tail(Tail(tape)), dryRun, sent + 1);
      }
    }
  }

  lemma {:induction false} SessionsHaveHistory(c0: Chain, sessions: seq<Session>) returns (paid: seq<nat>)
    requires Fresh(c0) && WellEnumerated(c0, sessions)
    ensures History(c0, AfterSessions(c0, sessions), paid)
    ensures (forall s :: s in sessions ==> s.order == sessions[0].order) && sessions != [] ==>
      paid <= Listing(c0, sessions[0].order)
    decreases |sessions|
  {
    if sessions == [] {
      paid := [];
    } else {
      var init, s := sessions[..|sessions| - 1], sessions[|sessions| - 1];
      var before := SessionsHaveHistory(c0, init);
      var c := AfterSessions(c0, init);
      var more := RunExtendsHistory(c0, c, before, s.order, s.tape, s.dryRun);
      paid := before + more;
      if forall t :: t in sessions ==> t.order == sessions[0].order {
        assert s in sessions;
        assert init != [] ==> init[0] == sessions[0];
        assert before <= Listing(c0, s.order);
        ResumedListing(c0, c, before, s.order);
      }
    }
  }

  /** With the same enumeration order, a later run lists exactly the rest. */
  lemma ResumedListing(c0: Chain, c: Chain, paid: seq<nat>, order: seq<nat>)
    requires Fresh(c0) && History(c0, c, paid) && Distinct(order) && paid <= Listing(c0, order)
    ensures Listing(c0, order) == paid + Listing(c, order)
  {
    forall i: nat { PayableAfter(c0, c, paid, i); }
    assert paid == Listing(c0, order)[..|paid|];
    ListingRest(c0, c, order, |paid|);
  }

  lemma {:induction false} ListingRest(c0: Chain, c: Chain, order: seq<nat>, k: nat)
    requires Distinct(order) && k <= |Listing(c0, order)|
    requires forall i :: i in order ==> (Payable(c, i) <==> Payable(c0, i) && i !in Listing(c0, order)[..k])
    ensures Listing(c, order) == Listing(c0, order)[k..]
    decreases |order|
  {
    if order != [] {
      var x, rest := order[0], order[1..];
      ListingDistinct(c0, rest);
      assert x in order && x !in rest;
      var taken := if Payable(c0, x) && k > 0 then k - 1 else k;
      assert Payable(c0, x) && k > 0 ==> Listing(c0, order)[..k] == [x] + Listing(c0, rest)[..taken];
      assert Payable(c0, x) && k == 0 ==> Listing(c0, order)[..k] == [] == Listing(c0, rest)[..taken];
      assert !Payable(c0, x) ==> Listing(c0, order) == Listing(c0, rest);
      ListingRest(c0, c, rest, taken);
    }
  }

  /** Crash-resume: whatever runs came before, and wherever they stopped, once a real run completes
      the vault is voided, no writer holds shares, and every writer that held shares has been paid
      exactly once over all the runs. */
  lemma CrashResume(c0: Chain, sessions: seq<Session>, last: Session) returns (paid: seq<nat>)
    requires Fresh(c0) && WellEnumerated(c0, sessions) && Enumerates(last.order, |c0.positions|)
    requires !last.dryRun && RunOnce(AfterSessions(c0, sessions), last.order, last.tape, false).report.Some?
    ensures var c := RunOnce(AfterSessions(c0, sessions), last.order, last.tape, false).chain;
      && History(c0, c, paid) && c.voided && |c.positions| == |c0.positions|
      && forall i :: 0 <= i < |c.positions| ==>
           && c.positions[i].writer.shares == 0
           && (Payable(c0, i) <==> i in paid)
           && |c.positions[i].received| == if Payable(c0, i) then 1 else 0
  {
    var before := SessionsHaveHistory(c0, sessions);
    var mid := AfterSessions(c0, sessions);
    var more := RunExtendsHistory(c0, mid, before, last.order, last.tape, false);
    paid := before + more;
    var c := RunOnce(mid, last.order, last.tape, false).chain;
    ListingDistinct(mid, last.order);
    PayableAfter(c0, c, paid, 0);
    forall i | 0 <= i < |c0.positions|
      ensures c.positions[i].writer.shares == 0 && (Payable(c0, i) <==> i in paid)
      ensures |c.positions[i].received| == if Payable(c0, i) then 1 else 0
    {
      PayableAfter(c0, mid, before, i);
      var k := PositionAfter(c0, c, paid, i);
      assert i in more <==> Payable(mid, i);
    }
  }

  /** With one enumeration order throughout, a completed vault is the one where every writer was
      paid in that order; so it does not depend on the crashes, and a single uninterrupted run
      leaves the same chain behind, payment for payment. */
  lemma ResumeEqualsUninterrupted(c0: Chain, sessions: seq<Session>, last: Session)
    requires Fresh(c0) && WellEnumerated(c0, sessions) && Enumerates(last.order, |c0.positions|)
    requires forall s :: s in sessions ==> s.order == last.order
    requires RunOnce(AfterSessions(c0, sessions), last.order, last.tape, false).report.Some?
    ensures InRange(Start(c0), Listing(c0, last.order))
    ensures RunOnce(AfterSessions(c0, sessions), last.order, last.tape, false).chain
         == PayInOrder(Start(c0), Listing(c0, last.order))
  {
    var before := SessionsHaveHistory(c0, sessions);
    var mid := AfterSessions(c0, sessions);
    assert sessions != [] ==> sessions[0] in sessions;
    var more := RunExtendsHistory(c0, mid, before, last.order, last.tape, false);
    ResumedListing(c0, mid, before, last.order);
    InRangeOfPayable(c0, last.order);
  }

  // ---- Who is paid what --------------------------------------------------------------------------

  lemma SharesSnoc(t: Till, c: Chain, list: seq<nat>, i: nat)
    requires InRange(c, list) && i < |c.positions|
    ensures InRange(c, list + [i]) && SharesOf(c, list + [i]) == SharesOf(c, list) + [c.positions[i].writer.shares]
    ensures After(t, SharesOf(c, list + [i])) == PayOne(After(t, SharesOf(c, list)), c.positions[i].writer.shares)
  {
    var shares := SharesOf(c, list);
    assert (shares + [c.positions[i].writer.shares])[..|shares|] == shares;
  }

  /** Whoever holds no shares does not move the till, so leaving them out of the listing changes
      nothing. */
  lemma {:induction false} ListingMovesTheTill(t: Till, c: Chain, order: seq<nat>)
    requires InRange(c, order)
    ensures InRange(c, Listing(c, order))
    ensures After(t, SharesOf(c, Listing(c, order))) == After(t, SharesOf(c, order))
    decreases |order|
  {
    if order != [] {
      var front, i := order[..|order| - 1], order[|order| - 1];
      ListingMovesTheTill(t, c, front);
      OneMoreRead(t, c, front, i, Listing(c, front));
      assert order == front + [i];
    }
  }

  lemma OneMoreRead(t: Till, c: Chain, front: seq<nat>, i: nat, list: seq<nat>)
    requires InRange(c, front) && i < |c.positions| && list == Listing(c, front) && InRange(c, list)
    requires After(t, SharesOf(c, list)) == After(t, SharesOf(c, front))
    ensures InRange(c, Listing(c, front + [i]))
    ensures After(t, SharesOf(c, Listing(c, front + [i]))) == After(t, SharesOf(c, front + [i]))
  {
    ListingSnoc(c, front, i);
    if Payable(c, i) {
      OneMorePaid(t, c, list, front, i);
    } else {
      OneIdle(t, c, front, i);
      assert list + [] == list;
    }
  }

  lemma OneMorePaid(t: Till, c: Chain, a: seq<nat>, b: seq<nat>, i: nat)
    requires InRange(c, a) && InRange(c, b) && i < |c.positions|
    requires After(t, SharesOf(c, a)) == After(t, SharesOf(c, b))
    ensures InRange(c, a + [i]) && InRange(c, b + [i]) && After(t, SharesOf(c, a + [i])) == After(t, SharesOf(c, b + [i]))
  {
    SharesSnoc(t, c, a, i);
    SharesSnoc(t, c, b, i);
  }

  lemma OneIdle(t: Till, c: Chain, a: seq<nat>, i: nat)
    requires InRange(c, a) && i < |c.positions| && c.positions[i].writer.shares == 0
    ensures InRange(c, a + [i]) && After(t, SharesOf(c, a + [i])) == After(t, SharesOf(c, a))
  {
    SharesSnoc(t, c, a, i);
    NothingForNothing(After(t, SharesOf(c, a)));
  }

  lemma NothingForNothing(t: Till)
    ensures PayOne(t, 0) == t
  {
  }

  /** A listed writer's place in the listing, and the till it meets there. */
  lemma PlaceInListing(c: Chain, order: seq<nat>, k: nat) returns (m: nat)
    requires InRange(c, order) && k < |order| && Payable(c, order[k])
    ensures InRange(c, Listing(c, order)) && m < |Listing(c, order)| && Listing(c, order)[m] == order[k]
    ensures After(c.till, SharesOf(c, Listing(c, order))[..m]) == After(c.till, SharesOf(c, order[..k]))
  {
    ListingInRange(c, order);
    m := |Listing(c, order[..k])|;
    ListingSplits(c, order, k);
    ListingMovesTheTill(c.till, c, order[..k]);
    assert SharesOf(c, Listing(c, order))[..m] == SharesOf(c, Listing(c, order[..k]));
  }

  lemma {:induction false} ListingSplits(c: Chain, order: seq<nat>, k: nat)
    requires k < |order| && Payable(c, order[k])
    ensures Listing(c, order[..k]) + [order[k]] <= Listing(c, order)
    decreases |order|
  {
    var n := |order| - 1;
    assert order == order[..n] + [order[n]];
    ListingSnoc(c, order[..n], order[n]);
    if k < n {
      ListingSplits(c, order[..n], k);
      assert order[..n][..k] == order[..k];
    }
  }

  /** What became of a position: its draw from this till and its premium in one payment, if it held
      shares, and nothing otherwise. */
  predicate PaidFrom(v: Vault, before: Till, was: Position, now: Position) {
    var w := was.writer;
    var premium := Max(0, w.shares * v.ppsc / SCALE - w.premiumDebt - w.premiumClaimed);
    if w.shares == 0 then now == was
    else
      && now.received == was.received + [Payment(Draw(before, w.shares), premium)]
      && now.writer == WriterPosition(0, w.premiumDebt, w.premiumClaimed + premium)
  }

  lemma ListedIsPaid(c: Chain, order: seq<nat>, k: nat)
    requires InRange(c, order) && Distinct(order) && k < |order| && InRange(c, Listing(c, order))
    ensures PaidFrom(c.vault, After(c.till, SharesOf(c, order[..k])), c.positions[order[k]],
                     PayInOrder(c, Listing(c, order)).positions[order[k]])
  {
    var i, list := order[k], Listing(c, order);
    ListingDistinct(c, order);
    if c.positions[i].writer.shares > 0 {
      var m := PlaceInListing(c, order, k);
      PayInOrderPays(c, list, m);
      PaidOffMeans(c, list, m, After(c.till, SharesOf(c, order[..k])));
    } else {
      PayInOrderUntouched(c, list, i);
    }
  }

  lemma PaidOffMeans(c: Chain, list: seq<nat>, m: nat, before: Till)
    requires InRange(c, list) && m < |list| && Payable(c, list[m]) && before == After(c.till, SharesOf(c, list)[..m])
    ensures PaidFrom(c.vault, before, c.positions[list[m]], PaidOff(c, list, m))
  {
    PremiumIsSaturating(c.vault, c.positions[list[m]].writer);
  }

  /** Once a run completes, with one enumeration order throughout and whatever crashes came before, each
      writer has been paid its draw from the till as all those enumerated before it left it, together
      with its premium, in one payment; and whoever held no shares is as before. */
  lemma EachPaidInItsPlace(c0: Chain, sessions: seq<Session>, last: Session, k: nat)
    requires Fresh(c0) && WellEnumerated(c0, sessions) && Enumerates(last.order, |c0.positions|) && k < |last.order|
    requires forall s :: s in sessions ==> s.order == last.order
    requires RunOnce(AfterSessions(c0, sessions), last.order, last.tape, false).report.Some?
    ensures var c, i := RunOnce(AfterSessions(c0, sessions), last.order, last.tape, false).chain, last.order[k];
      && i < |c.positions| == |c0.positions|
      && PaidFrom(c0.vault, After(PostVoid(c0.vault), SharesOf(c0, last.order[..k])), c0.positions[i], c.positions[i])
  {
    ResumeEqualsUninterrupted(c0, sessions, last);
    ListingSame(c0, Start(c0), last.order);
    ListedIsPaid(Start(c0), last.order, k);
    assert SharesOf(Start(c0), last.order[..k]) == SharesOf(c0, last.order[..k]);
  }

  lemma InRangeOfPayable(c: Chain, order: seq<nat>)
    ensures InRange(Start(c), Listing(c, order))
  {
    ListingInRange(c, order);
  }

  // ---- When a run completes, exactly ---------------------------------------------------------------

  /** The first n interactions go well. */
  predicate FineFirst(tape: seq<Answer>, n: nat) {
    |tape| >= n && forall k :: 0 <= k < n ==> tape[k].Fine?
  }

  lemma FineNext(tape: seq<Answer>, n: nat)
    ensures FineFirst(tape, n + 1) <==> Head(tape).Fine? && FineFirst(Tail(tape), n)
  {
    if Head(tape).Fine? && FineFirst(Tail(tape), n) {
      assert forall k :: 0 < k < n + 1 ==> tape[k] == Tail(tape)[k - 1];
    }
  }

  /** The interactions of phase 1: a read; unless the vault was voided before, building the
      instruction; and unless that was all a dry run does, the send and the barrier's read. */
  function VoidSteps(voided: bool, dryRun: bool): nat {
    if voided then 1 else if dryRun then 2 else 4
  }

  lemma VoidPhaseReachesIff(c: Chain, tape: seq<Answer>, dryRun: bool, n: nat)
    ensures var (c1, t1, reached) := VoidPhase(c, tape, dryRun);
      FineFirst(tape, VoidSteps(c.voided, dryRun) + n) <==> reached && FineFirst(t1, n)
  {
    var t1 := Tail(tape);
    var t2 := Tail(t1);
    if c.voided {
      FineNext(tape, n);
    } else if dryRun {
      FineNext(tape, 1 + n);
      FineNext(t1, n);
    } else {
      FineNext(tape, 3 + n);
      FineNext(t1, 2 + n);
      FineNext(t2, 1 + n);
      FineNext(Tail(t2), n);
    }
  }

  /** Those of phase 2 for n writers: building the instruction, and in a real run sending it. */
  function PaySteps(n: nat, dryRun: bool): nat {
    if dryRun then n else 2 * n
  }

  lemma {:induction false} PhaseCompletesIff(c: Chain, list: seq<nat>, tape: seq<Answer>, dryRun: bool, sent: nat)
    requires InRange(c, list) && Distinct(list) && AllPayable(c, list) && (dryRun || c.voided)
    ensures ReclaimPhase(c, list, tape, dryRun, sent).2.Some? <==> FineFirst(tape, PaySteps(|list|, dryRun))
    ensures ReclaimPhase(c, list, tape, dryRun, sent).2.Some? ==>
      ReclaimPhase(c, list, tape, dryRun, sent).2.value == sent + if dryRun then 0 else |list|
    decreases |list|
  {
    if list != [] {
      var rest := list[1..];
      if dryRun {
        PhaseCompletesIff(c, rest, Tail(tape), dryRun, sent);
        FineNext(tape, |rest|);
      } else {
        PhaseCompletesIff(Settle(c, list[0]), rest, Tail(Tail(tape)), dryRun, sent + 1);
        FineNext(tape, 1 + 2 * |rest|);
        FineNext(Tail(tape), 2 * |rest|);
      }
    }
  }

  /** A run returns a report iff every one of its interactions goes well; how many there are depends on
      whether the vault was voided and on the writers that still hold shares. The report says so. */
  lemma CompletesIff(c: Chain, order: seq<nat>, tape: seq<Answer>, dryRun: bool)
    requires InRange(c, order) && Distinct(order)
    ensures var n, report := |Listing(c, order)|, RunOnce(c, order, tape, dryRun).report;
      && (report.Some? <==> FineFirst(tape, VoidSteps(c.voided, dryRun) + 1 + PaySteps(n, dryRun)))
      && (report.Some? ==> report.value == Report(c.voided, !c.voided && !dryRun, n, if dryRun then 0 else n))
  {
    var (c1, t1, reached) := VoidPhase(c, tape, dryRun);
    VoidPhaseOutcome(c, tape, dryRun);
    VoidPhaseReachesIff(c, tape, dryRun, 1 + PaySteps(|Listing(c, order)|, dryRun));
    ListingSame(c, c1, order);
    if reached {
      SecondPhaseIff(c1, order, t1, dryRun, Listing(c1, order));
    }
  }

  lemma SecondPhaseIff(c: Chain, order: seq<nat>, tape: seq<Answer>, dryRun: bool, list: seq<nat>)
    requires InRange(c, order) && Distinct(order) && list == Listing(c, order) && (dryRun || c.voided)
    ensures InRange(c, list)
    ensures FineFirst(tape, 1 + PaySteps(|list|, dryRun))
       <==> Head(tape).Fine? && ReclaimPhase(c, list, Tail(tape), dryRun, 0).2.Some?
    ensures ReclaimPhase(c, list, Tail(tape), dryRun, 0).2.Some? ==>
      ReclaimPhase(c, list, Tail(tape), dryRun, 0).2.value == if dryRun then 0 else |list|
  {
    ListingInRange(c, order);
    ListingDistinct(c, order);
    FineNext(tape, PaySteps(|list|, dryRun));
    PhaseCompletesIff(c, list, Tail(tape), dryRun, 0);
  }

  predicate FineTape(tape: seq<Answer>, length: nat) {
    |tape| >= length && forall k :: 0 <= k < |tape| ==> tape[k].Fine?
  }

  /** So a run in which every interaction goes well completes. */
  lemma FineTapeCompletes(c: Chain, order: seq<nat>, tape: seq<Answer>)
    requires InRange(c, order) && Distinct(order) && FineTape(tape, 5 + 2 * |Listing(c, order)|)
    ensures RunOnce(c, order, tape, false).report.Some?
  {
    var n := |Listing(c, order)|;
    assert FineFirst(tape, VoidSteps(c.voided, false) + 1 + PaySteps(n, false));
    FineFirstCompletes(c, order, tape);
  }

  lemma FineFirstCompletes(c: Chain, order: seq<nat>, tape: seq<Answer>)
    requires InRange(c, order) && Distinct(order)
    requires FineFirst(tape, VoidSteps(c.voided, false) + 1 + PaySteps(|Listing(c, order)|, false))
    ensures RunOnce(c, order, tape, false).report.Some?
  {
    CompletesIff(c, order, tape, false);
  }

  // ---- Safety and conservation at every stop ------------------------------------------------------

  function AllShares(c: Chain): seq<nat> {
    seq(|c.positions|, i requires 0 <= i < |c.positions| => c.positions[i].writer.shares)
  }

  predicate SolventPool(c: Chain) {
    Sum(AllShares(c)) <= c.vault.ts && c.vault.e <= c.vault.tc + c.vault.swept
  }

  lemma DistinctRemove(list: seq<nat>, k: nat)
    requires Distinct(list) && k < |list|
    ensures Distinct(list[..k] + list[k + 1..])
  {
  }

  /** The picked values are those of distinct places. */
  ghost predicate Picks(shares: seq<nat>, list: seq<nat>, picked: seq<nat>) {
    && Distinct(list) && |picked| == |list|
    && forall k :: 0 <= k < |list| ==> list[k] < |shares| && picked[k] == shares[list[k]]
  }

  lemma PicksRemove(shares: seq<nat>, list: seq<nat>, picked: seq<nat>, k: nat)
    requires Picks(shares, list, picked) && k < |list| && list[k] == |shares| - 1
    ensures Picks(shares[..|shares| - 1], list[..k] + list[k + 1..], picked[..k] + picked[k + 1..])
  {
    DistinctRemove(list, k);
    var list', picked' := list[..k] + list[k + 1..], picked[..k] + picked[k + 1..];
    forall j | 0 <= j < |list'| ensures list'[j] < |shares| - 1 && picked'[j] == shares[list'[j]] {
      var j' := if j < k then j else j + 1;
      assert list'[j] == list[j'] && picked'[j] == picked[j'] && list[j'] != list[k];
    }
  }

  lemma {:induction false} DistinctSumFits(shares: seq<nat>, list: seq<nat>, picked: seq<nat>)
    requires Picks(shares, list, picked)
    ensures Sum(picked) <= Sum(shares)
    decreases |shares|
  {
    if shares == [] {
      assert picked == [];
    } else {
      var n := |shares| - 1;
      if n in list {
        var k :| 0 <= k < |list| && list[k] == n;
        SumRemove(picked, k);
        PicksRemove(shares, list, picked, k);
        DistinctSumFits(shares[..n], list[..k] + list[k + 1..], picked[..k] + picked[k + 1..]);
      } else {
        DistinctSumFits(shares[..n], list, picked);
      }
    }
  }

  lemma HistoryFits(c0: Chain, c: Chain, paid: seq<nat>)
    requires Fresh(c0) && History(c0, c, paid) && SolventPool(c0)
    ensures Sound(PostVoid(c0.vault)) && Sum(SharesOf(Start(c0), paid)) <= PostVoid(c0.vault).ts
  {
    DistinctSumFits(AllShares(c0), paid, SharesOf(Start(c0), paid));
  }

  /** Wherever any runs stopped: nothing has moved unless the vault is voided; nobody was paid
      twice; no writer was paid while keeping its shares; and the till plus the collateral paid out
      is what the void seeded. */
  lemma SafeAtEveryStop(c0: Chain, sessions: seq<Session>) returns (paid: seq<nat>)
    requires Fresh(c0) && WellEnumerated(c0, sessions) && SolventPool(c0)
    ensures var c := AfterSessions(c0, sessions);
      && History(c0, c, paid)
      && (!c.voided ==> c == c0)
      && (c.voided ==>
            && Sound(c.till)
            && TotalPaid(PostVoid(c0.vault), SharesOf(Start(c0), paid)) + c.till.cr == PostVoid(c0.vault).cr)
      && forall i :: 0 <= i < |c.positions| ==>
           var p := c.positions[i];
           || p == c0.positions[i]
           || (p.writer.shares == 0 && |p.received| == 1 && p.received[0].collateral >= 0)
  {
    paid := SessionsHaveHistory(c0, sessions);
    var c := AfterSessions(c0, sessions);
    if c.voided {
      var t0, shares := PostVoid(c0.vault), SharesOf(Start(c0), paid);
      HistoryFits(c0, c, paid);
      PayInOrderTill(Start(c0), paid);
      RunBounds(t0, shares);
      PayableAfter(c0, c, paid, 0);
      forall i | 0 <= i < |c.positions| && c.positions[i] != c0.positions[i]
        ensures c.positions[i].writer.shares == 0 && |c.positions[i].received| == 1
        ensures c.positions[i].received[0].collateral >= 0
      {
        var k := PositionAfter(c0, c, paid, i);
        SumPrefix(shares, k);
        RunBounds(t0, shares[..k]);
        DrawBounds(After(t0, shares[..k]), shares[k]);
      }
    }
  }

  /** Two completed reclaims of the same vault, with any crashes and any enumeration orders: every
      writer gets the same premium, and collateral that differs by less than the number of writers. */
  lemma OrdersAgree(c0: Chain, c: Chain, a: seq<nat>, c': Chain, b: seq<nat>, i: nat)
    requires Fresh(c0) && SolventPool(c0) && History(c0, c, a) && History(c0, c', b)
    requires c.voided && c'.voided && i in a && i in b
    ensures |c.positions| == |c'.positions| == |c0.positions| && i < |c0.positions|
    ensures |c.positions[i].received| == |c'.positions[i].received| == 1
    ensures var p, q := c.positions[i].received[0], c'.positions[i].received[0];
      p.premium == q.premium && -|b| < p.collateral - q.collateral < |a|
  {
    HistoryFits(c0, c, a);
    HistoryFits(c0, c', b);
    assert exists m :: 0 <= m < |a| && a[m] == i;
    var k := PositionAfter(c0, c, a, i);
    var l := PositionAfter(c0, c', b, i);
    PlaceIndependence(PostVoid(c0.vault), SharesOf(Start(c0), a), SharesOf(Start(c0), b), k, l);
  }
}
