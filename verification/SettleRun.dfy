/** Running a settle plan against a chain on which anybody may settle any vault at any time:
    batch, and on failure isolate. */
module SettleRun {
  import opened JsString
  import opened Prelude
  import opened SettlePlan

  const VAULT_ALREADY_SETTLED_CODE := 6019

  /** What a failed send's message says, after the regular expressions have looked at it. */
  datatype SendError = SendError(namesVariant: bool, hexCode: Option<nat>, decCode: Option<nat>)

  predicate IsAlreadySettled(e: SendError) {
    e.namesVariant || e.hexCode == Some(VAULT_ALREADY_SETTLED_CODE) || e.decCode == Some(VAULT_ALREADY_SETTLED_CODE)
  }

  /** The message of a send that failed with this program error code, or with none, as the expressions
      read it: the code may show as the variant's name, in hex or in decimal, in at least one of them
      and in no other way. */
  predicate Shows(e: SendError, code: Option<nat>) {
    match code
    case None => !e.namesVariant && e.hexCode.None? && e.decCode.None?
    case Some(c) =>
      && (e.namesVariant || e.hexCode.Some? || e.decCode.Some?)
      && (e.namesVariant ==> c == 0x1783)
      && (e.hexCode.Some? ==> e.hexCode.value == c)
      && (e.decCode.Some? ==> e.decCode.value == c)
  }

  /** Whatever the form of the message, it is recognised iff the code is that of VaultAlreadySettled. */
  lemma MessageTells(e: SendError, code: Option<nat>)
    requires Shows(e, code)
    ensures IsAlreadySettled(e) <==> code == Some(0x1783)
  {
  }

  datatype SendResult = Sent | Threw(error: SendError)

  datatype Kind = Batch | Alone

  /** One transaction: what it asked for, whether it landed on chain, the program error code it was
      rejected with, if sending it threw for that reason, the error value its confirmation came back with, which the caller drops, and
      what the caller saw. */
  datatype Send = Send(kind: Kind, keys: seq<string>, landed: bool, code: Option<nat>, confirmError: bool,
                       result: SendResult)

  /** It threw because the vault was already settled: program error 6019. */
  predicate MetSettled(s: Send) {
    s.result.Threw? && s.code == Some(6019)
  }

  /** Sending returned normally, and the confirmation's error value, had anybody looked, was null. */
  predicate Confirmed(s: Send) {
    s.result.Sent? && !s.confirmError
  }

  /** What one send may do to the settlement history. Others settle anything first; the transaction is
      atomic and reverts on a vault that is already settled; it may land and still throw; a
      confirmation that comes back says truly whether it landed; a message shows the code; and
      "already settled" is only reverted with when it is true. */
  ghost predicate SendStep(h: seq<string>, h': seq<string>, others: seq<string>, s: Send) {
    && h' == h + others + (if s.landed then s.keys else [])
    && Distinct(h')
    && (s.result.Sent? ==> (s.landed <==> !s.confirmError))
    && (s.landed || s.result.Sent? ==> s.code.None?)
    && (s.result.Threw? ==> Shows(s.result.error, s.code))
    && (s.code == Some(6019) ==> exists k :: k in s.keys && k in h + others)
  }

  class Chain {
    /** Every settlement, in order, by whoever made it. */
    var history: seq<string>
    var stopAsked: bool
    ghost var sends: seq<Send>

    constructor ()
      ensures history == [] && !stopAsked && sends == []
    {
      history, stopAsked, sends := [], false, [];
    }

    /** One transaction with everything that happens around it; `before` is what others settled first. */
    method SendBatch(keys: seq<string>, ghost kind: Kind)
      returns (r: SendResult, ghost s: Send, ghost before: seq<string>)
      requires Distinct(history)
      modifies this`history, this`sends
      ensures sends == old(sends) + [s] && s.kind == kind && s.keys == keys && s.result == r
      ensures old(history) <= history && Distinct(history)
      ensures SendStep(old(history), history, before, s)
    {
      var others: seq<string> := *;
      if !Distinct(history + others) {
        others := [];
        assert history + others == history;
      }
      var h := history;
      history := history + others;
      var lands: bool, comesBack: bool := *, *;
      if lands && Distinct(history + keys) {
        history := history + keys;
      } else {
        lands := false;
      }
      var code: Option<nat> := *;
      if lands || comesBack || (code == Some(6019) && forall k | k in keys :: k !in h + others) {
        code := None;
      }
      var e: SendError := *;
      if !Shows(e, code) {
        e := SendError(false, code, None);
      }
      // The confirmation's error value is not looked at.
      r := if comesBack then Sent else Threw(e);
      s := Send(kind, keys, lands, code, !lands, r);
      sends := sends + [s];
      before := others;
    }

    method ShouldStop() returns (stop: bool)
      modifies this`stopAsked
      ensures stopAsked == (old(stopAsked) || stop)
    {
      stop := *;
      stopAsked := stopAsked || stop;
    }
  }

  // ---- The report and what it must say of the sends ---------------------------------------

  datatype Failure = BuildFailed(key: string) | SendFailed(key: string, error: SendError)

  datatype Report = Report(attempted: nat, settled: nat, skipped: nat, failed: nat, txsSent: nat,
                           remaining: int, errors: seq<Failure>)

  datatype Counts = Counts(attempted: nat, txs: nat, settled: nat, skipped: nat, sendFailed: nat)

  /** What one more send adds to the counts. */
  ghost function Counted(c: Counts, s: Send): Counts {
    var tried := if s.kind.Batch? then c.(attempted := c.attempted + |s.keys|) else c;
    match s.result
    case Sent => tried.(txs := c.txs + 1, settled := c.settled + |s.keys|)
    case Threw(_) =>
      if s.kind.Batch? then tried
      else if MetSettled(s) then tried.(skipped := c.skipped + 1)
      else tried.(sendFailed := c.sendFailed + 1)
  }

  /** The counts a trace of sends calls for. */
  ghost function Tally(trace: seq<Send>): Counts {
    if trace == [] then Counts(0, 0, 0, 0, 0) else Counted(Tally(trace[..|trace| - 1]), trace[|trace| - 1])
  }

  /** An isolated send that threw, other than because the vault was already settled. */
  ghost function FailureOf(s: Send): seq<Failure> {
    if s.kind.Alone? && |s.keys| == 1 && s.result.Threw? && !MetSettled(s)
    then [SendFailed(s.keys[0], s.result.error)] else []
  }

  /** The failures of isolated sends, in order. */
  ghost function SendFailures(trace: seq<Send>): seq<Failure> {
    if trace == [] then [] else SendFailures(trace[..|trace| - 1]) + FailureOf(trace[|trace| - 1])
  }

  ghost function OnlySends(errors: seq<Failure>): seq<Failure> {
    if errors == [] then []
    else
      var e := errors[|errors| - 1];
      OnlySends(errors[..|errors| - 1]) + (if e.SendFailed? then [e] else [])
  }

  /** The report says exactly what these counts and failures say. */
  ghost predicate Agrees(rep: Report, c: Counts, failures: seq<Failure>) {
    && Counts(rep.attempted, rep.txsSent, rep.settled, rep.skipped, |OnlySends(rep.errors)|) == c
    && OnlySends(rep.errors) == failures
    && rep.failed == |rep.errors|
  }

  /** The report says exactly what the trace says. */
  ghost predicate Reports(rep: Report, trace: seq<Send>) {
    Agrees(rep, Tally(trace), SendFailures(trace))
  }

  /** What the sends left on chain by the end: whatever landed, was confirmed or was skipped is settled. */
  ghost predicate Borne(trace: seq<Send>, h: seq<string>) {
    && (forall s, k :: s in trace && (s.landed || Confirmed(s)) && k in s.keys ==> k in h)
    && (forall s :: s in trace && s.kind.Alone? ==> |s.keys| == 1)
    && (forall s :: s in trace && s.kind.Alone? && MetSettled(s) ==> s.keys[0] in h)
  }

  /** Only these vaults were ever sent, at most four of them at a time. */
  ghost predicate OnlyOf(trace: seq<Send>, allowed: set<string>) {
    && (forall s, k :: s in trace && k in s.keys ==> k in allowed)
    && forall s :: s in trace ==> |s.keys| <= 4
  }

  /** One of this vault's own sends returned normally although its confirmation carried an error. */
  ghost predicate Unconfirmed(key: string, trace: seq<Send>) {
    exists s :: s in trace && key in s.keys && s.result.Sent? && s.confirmError
  }

  /** The vault is settled, or its own isolated send failed, or an error of its confirmation was dropped. */
  ghost predicate Accounted(key: string, h: seq<string>, trace: seq<Send>) {
    || key in h
    || (exists e :: SendFailed(key, e) in SendFailures(trace))
    || Unconfirmed(key, trace)
  }

  /** Report, chain and targets agree with the trace. */
  ghost predicate Faithful(rep: Report, trace: seq<Send>, h: seq<string>, allowed: set<string>) {
    Reports(rep, trace) && Borne(trace, h) && OnlyOf(trace, allowed) && BuildsOf(rep.errors, allowed)
  }

  /** Only these vaults were ever reported as not built. */
  ghost predicate BuildsOf(errors: seq<Failure>, allowed: set<string>) {
    forall f :: f in errors && f.BuildFailed? ==> f.key in allowed
  }

  /** Attempts that have come to an end: settled, skipped, or failed on their own. */
  ghost function Done(rep: Report): nat {
    rep.settled + rep.skipped + |OnlySends(rep.errors)|
  }

  ghost predicate AllAccounted(keys: seq<string>, h: seq<string>, trace: seq<Send>) {
    forall k :: k in keys ==> Accounted(k, h, trace)
  }

  lemma TallyStep(trace: seq<Send>, s: Send)
    ensures Tally(trace + [s]) == Counted(Tally(trace), s)
    ensures SendFailures(trace + [s]) == SendFailures(trace) + FailureOf(s)
  {
    assert (trace + [s])[..|trace|] == trace;
  }

  lemma OnlySendsStep(errors: seq<Failure>, e: Failure)
    ensures OnlySends(errors + [e]) == OnlySends(errors) + (if e.SendFailed? then [e] else [])
  {
    assert (errors + [e])[..|errors|] == errors;
  }

  lemma BorneStep(trace: seq<Send>, s: Send, h: seq<string>, h': seq<string>, others: seq<string>)
    requires Borne(trace, h) && SendStep(h, h', others, s) && (s.kind.Alone? ==> |s.keys| == 1)
    ensures Borne(trace + [s], h')
  {
    forall t, k | t in trace + [s] && (t.landed || Confirmed(t)) && k in t.keys ensures k in h' {
      if t in trace { assert k in h; }
    }
    if MetSettled(s) {
      var k :| k in s.keys && k in h + others;
    }
  }

  lemma OnlyOfStep(trace: seq<Send>, s: Send, allowed: set<string>)
    requires OnlyOf(trace, allowed) && |s.keys| <= 4 && forall k :: k in s.keys ==> k in allowed
    ensures OnlyOf(trace + [s], allowed)
  {
  }

  /** Accounting for a vault only ever grows. */
  lemma {:induction false} FailuresGrow(trace: seq<Send>, more: seq<Send>)
    ensures SendFailures(trace) <= SendFailures(trace + more)
    decreases |more|
  {
    if more == [] {
      assert trace + more == trace;
    } else {
      FailuresGrow(trace, more[..|more| - 1]);
      assert (trace + more)[..|trace + more| - 1] == trace + more[..|more| - 1];
    }
  }

  // ---- One batch ------------------------------------------------------------------------------

  /** Where a batch ends: the report and the chain agree with the trace, and unless a stop was asked
      for, every vault of the batch has come to one end and is accounted for. */
  ghost predicate Ends(rep0: Report, rep: Report, built: seq<string>, stopped: bool, trace: seq<Send>, h: seq<string>,
                       allowed: set<string>) {
    && Faithful(rep, trace, h, allowed)
    && rep0.errors <= rep.errors && rep.remaining == rep0.remaining
    && Done(rep) <= Done(rep0) + |built|
    && (!stopped ==> Done(rep) == Done(rep0) + |built| && AllAccounted(built, h, trace))
  }

  /** Send a batch atomically; if that throws, send every vault of it alone. */
  method SettleBatch(chain: Chain, built: seq<string>, rep0: Report, ghost trace0: seq<Send>, ghost allowed: set<string>)
    returns (rep: Report, ghost more: seq<Send>)
    requires built != [] && |built| <= 4 && Distinct(chain.history) && Faithful(rep0, trace0, chain.history, allowed)
    requires forall k :: k in built ==> k in allowed
    modifies chain
    ensures Distinct(chain.history) && old(chain.history) <= chain.history
    ensures old(chain.stopAsked) ==> chain.stopAsked
    ensures chain.sends == old(chain.sends) + more
    ensures Ends(rep0, rep, built, chain.stopAsked, trace0 + more, chain.history, allowed)
    ensures rep.attempted == rep0.attempted + |built|
  {
    ghost var h := chain.history;
    ghost var s0, others;
    var r;
    r, s0, others := chain.SendBatch(built, Batch);
    BatchStep(rep0, trace0, s0, h, chain.history, others, allowed);
    rep := rep0.(attempted := rep0.attempted + |built|);
    more := [s0];
    if r.Sent? {
      rep := rep.(txsSent := rep.txsSent + 1, settled := rep.settled + |built|);
      assert rep == BatchAbsorbed(rep0, s0);
      return;
    }
    assert rep == BatchAbsorbed(rep0, s0);
    ghost var mid := rep;
    rep, more := IsolateEach(chain, built, rep, trace0 + [s0], allowed);
    EndsFromBatch(rep0, mid, rep, built, chain.stopAsked, trace0, s0, more, chain.history, allowed);
    RegroupFirst(old(chain.sends), s0, more);
    more := [s0] + more;
  }

  lemma EndsFromBatch(rep0: Report, mid: Report, rep: Report, built: seq<string>, stopped: bool, trace0: seq<Send>, s0: Send,
                      more: seq<Send>, h: seq<string>, allowed: set<string>)
    requires mid == rep0.(attempted := mid.attempted)
    requires Ends(mid, rep, built, stopped, trace0 + [s0] + more, h, allowed)
    ensures Ends(rep0, rep, built, stopped, trace0 + ([s0] + more), h, allowed)
  {
    RegroupFirst(trace0, s0, more);
  }

  /** What a batch send makes of the report. */
  ghost function BatchAbsorbed(rep: Report, s: Send): Report {
    var tried := rep.(attempted := rep.attempted + |s.keys|);
    if s.result.Sent? then tried.(txsSent := tried.txsSent + 1, settled := tried.settled + |s.keys|) else tried
  }

  lemma BatchAgrees(rep: Report, c: Counts, failures: seq<Failure>, s: Send)
    requires Agrees(rep, c, failures) && s.kind.Batch?
    ensures Agrees(BatchAbsorbed(rep, s), Counted(c, s), failures + FailureOf(s))
    ensures s.result.Sent? ==> Done(BatchAbsorbed(rep, s)) == Done(rep) + |s.keys|
  {
  }

  lemma BatchStep(rep: Report, trace: seq<Send>, s: Send, h: seq<string>, h': seq<string>, others: seq<string>, allowed: set<string>)
    requires Faithful(rep, trace, h, allowed) && SendStep(h, h', others, s) && s.kind.Batch? && |s.keys| <= 4
    requires forall k :: k in s.keys ==> k in allowed
    ensures Faithful(BatchAbsorbed(rep, s), trace + [s], h', allowed)
    ensures s.result.Sent? ==> Ends(rep, BatchAbsorbed(rep, s), s.keys, false, trace + [s], h', allowed)
  {
    TallyStep(trace, s);
    BatchAgrees(rep, Tally(trace), SendFailures(trace), s);
    BorneStep(trace, s, h, h', others);
    OnlyOfStep(trace, s, allowed);
    assert s in trace + [s];
  }

  /** One vault per transaction: the offender is isolated and its neighbours still land. */
  method IsolateEach(chain: Chain, built: seq<string>, rep0: Report, ghost trace0: seq<Send>, ghost allowed: set<string>)
    returns (rep: Report, ghost more: seq<Send>)
    requires Distinct(chain.history) && Faithful(rep0, trace0, chain.history, allowed)
    requires forall k :: k in built ==> k in allowed
    modifies chain
    ensures Distinct(chain.history) && old(chain.history) <= chain.history
    ensures old(chain.stopAsked) ==> chain.stopAsked
    ensures chain.sends == old(chain.sends) + more
    ensures Ends(rep0, rep, built, chain.stopAsked, trace0 + more, chain.history, allowed)
    ensures rep.attempted == rep0.attempted
  {
    rep, more := rep0, [];
    assert trace0 + more == trace0;
    assert chain.sends + more == chain.sends;
    for i := 0 to |built|
      invariant chain.sends == old(chain.sends) + more
      invariant Distinct(chain.history) && old(chain.history) <= chain.history
      invariant old(chain.stopAsked) ==> chain.stopAsked
      invariant Progress(rep0, rep, built[..i], trace0 + more, chain.history, allowed)
    {
      var stop := chain.ShouldStop();
      if stop {
        ProgressEnds(rep0, rep, built, i, true, trace0 + more, chain.history, allowed);
        return;
      }
      ghost var s;
      rep, s := SendAlone(chain, built[i], rep0, rep, built[..i], trace0 + more, allowed);
      Regroup(trace0, more, s);
      Regroup(old(chain.sends), more, s);
      more := more + [s];
      PrefixGrows(built, i);
    }
    ProgressEnds(rep0, rep, built, |built|, chain.stopAsked, trace0 + more, chain.history, allowed);
  }

  lemma ProgressEnds(rep0: Report, rep: Report, built: seq<string>, i: nat, stopped: bool, trace: seq<Send>, h: seq<string>,
                     allowed: set<string>)
    requires i <= |built| && Progress(rep0, rep, built[..i], trace, h, allowed) && (i < |built| ==> stopped)
    ensures Ends(rep0, rep, built, stopped, trace, h, allowed) && rep.attempted == rep0.attempted
  {
    if i == |built| {
      assert built[..i] == built;
    }
  }

  lemma PrefixGrows(s: seq<string>, i: nat)
    requires i < |s|
    ensures s[..i] + [s[i]] == s[..i + 1]
  {
  }

  lemma RegroupFirst(trace: seq<Send>, s: Send, more: seq<Send>)
    ensures trace + [s] + more == trace + ([s] + more)
  {
  }

  lemma Regroup(trace: seq<Send>, more: seq<Send>, s: Send)
    ensures trace + more + [s] == trace + (more + [s])
  {
  }

  /** The vaults in `keys` have been sent alone, and the report and the chain say so. */
  ghost predicate Progress(rep0: Report, rep: Report, keys: seq<string>, trace: seq<Send>, h: seq<string>, allowed: set<string>) {
    && Faithful(rep, trace, h, allowed)
    && rep.attempted == rep0.attempted && rep.remaining == rep0.remaining && rep0.errors <= rep.errors
    && Done(rep) == Done(rep0) + |keys|
    && AllAccounted(keys, h, trace)
  }

  method SendAlone(chain: Chain, key: string, ghost rep0: Report, rep1: Report, ghost keys: seq<string>, ghost trace: seq<Send>,
                   ghost allowed: set<string>)
    returns (rep: Report, ghost s: Send)
    requires Distinct(chain.history) && Progress(rep0, rep1, keys, trace, chain.history, allowed) && key in allowed
    modifies chain`history, chain`sends
    ensures chain.sends == old(chain.sends) + [s]
    ensures Distinct(chain.history) && old(chain.history) <= chain.history
    ensures Progress(rep0, rep, keys + [key], trace + [s], chain.history, allowed)
  {
    rep := rep1;
    ghost var before := chain.history;
    ghost var others;
    var r;
    r, s, others := chain.SendBatch([key], Alone);
    if r.Sent? {
      rep := rep.(txsSent := rep.txsSent + 1, settled := rep.settled + 1);
    } else if IsAlreadySettled(r.error) {
      rep := rep.(skipped := rep.skipped + 1);
    } else {
      rep := rep.(failed := rep.failed + 1, errors := rep.errors + [SendFailed(key, r.error)]);
    }
    if s.result.Threw? {
      MessageTells(s.result.error, s.code);
    }
    assert rep == Absorbed(rep1, key, s);
    ProgressStep(rep0, rep1, keys, key, trace, s, before, chain.history, others, allowed);
  }

  /** What an isolated send makes of the report. */
  ghost function Absorbed(rep: Report, key: string, s: Send): Report {
    match s.result
    case Sent => rep.(txsSent := rep.txsSent + 1, settled := rep.settled + 1)
    case Threw(e) =>
      if MetSettled(s) then rep.(skipped := rep.skipped + 1)
      else rep.(failed := rep.failed + 1, errors := rep.errors + [SendFailed(key, e)])
  }

  lemma ProgressStep(rep0: Report, rep: Report, keys: seq<string>, key: string, trace: seq<Send>, s: Send,
                     h: seq<string>, h': seq<string>, others: seq<string>, allowed: set<string>)
    requires Progress(rep0, rep, keys, trace, h, allowed) && key in allowed
    requires s.kind.Alone? && s.keys == [key] && h <= h' && SendStep(h, h', others, s)
    ensures Progress(rep0, Absorbed(rep, key, s), keys + [key], trace + [s], h', allowed)
  {
    AloneReports(rep, key, trace, s);
    BorneStep(trace, s, h, h', others);
    OnlyOfStep(trace, s, allowed);
    OneMoreAccounted(keys, key, trace, s, h, h', others);
  }

  lemma AloneReports(rep: Report, key: string, trace: seq<Send>, s: Send)
    requires Reports(rep, trace) && s.kind.Alone? && s.keys == [key]
    ensures Reports(Absorbed(rep, key, s), trace + [s])
    ensures Done(Absorbed(rep, key, s)) == Done(rep) + 1
  {
    TallyStep(trace, s);
    AloneAgrees(rep, key, Tally(trace), SendFailures(trace), s);
  }

  lemma AloneAgrees(rep: Report, key: string, c: Counts, failures: seq<Failure>, s: Send)
    requires Agrees(rep, c, failures) && s.kind.Alone? && s.keys == [key]
    ensures Agrees(Absorbed(rep, key, s), Counted(c, s), failures + FailureOf(s))
    ensures Done(Absorbed(rep, key, s)) == Done(rep) + 1
  {
    if s.result.Threw? {
      OnlySendsStep(rep.errors, SendFailed(key, s.result.error));
    }
  }

  lemma OneMoreAccounted(keys: seq<string>, key: string, trace: seq<Send>, s: Send, h: seq<string>, h': seq<string>,
                         others: seq<string>)
    requires s.kind.Alone? && s.keys == [key] && h <= h' && SendStep(h, h', others, s)
    requires AllAccounted(keys, h, trace)
    ensures AllAccounted(keys + [key], h', trace + [s])
  {
    AccountedAfter(key, trace, s, h, h', others);
    StillAccounted(keys, trace, [s], h, h');
  }

  lemma AccountedAfter(key: string, trace: seq<Send>, s: Send, h: seq<string>, h': seq<string>, others: seq<string>)
    requires s.kind.Alone? && s.keys == [key]
    requires SendStep(h, h', others, s)
    ensures Accounted(key, h', trace + [s])
  {
    TallyStep(trace, s);
    assert s in trace + [s];
    if s.result.Threw? && !MetSettled(s) {
      assert SendFailed(key, s.result.error) in SendFailures(trace + [s]);
    }
  }

  lemma StillAccounted(keys: seq<string>, trace: seq<Send>, more: seq<Send>, h: seq<string>, h': seq<string>)
    requires h <= h' && AllAccounted(keys, h, trace)
    ensures AllAccounted(keys, h', trace + more)
  {
    FailuresGrow(trace, more);
    forall k | k in keys ensures Accounted(k, h', trace + more) {
      assert Accounted(k, h, trace);
      if Unconfirmed(k, trace) {
        var s :| s in trace && k in s.keys && s.result.Sent? && s.confirmError;
        assert s in trace + more;
      } else if k !in h {
        var e :| SendFailed(k, e) in SendFailures(trace);
        assert SendFailed(k, e) in SendFailures(trace + more);
      }
    }
  }

  // ---- The whole pass ---------------------------------------------------------------------------

  /** The targets whose asset name is known and not empty: only these are ever attempted. */
  predicate Attemptable(v: Vault, assetByMarket: map<string, string>) {
    v.market in assetByMarket && assetByMarket[v.market] != ""
  }

  /** The keys of those targets. */
  function AttemptableKeys(targets: seq<Vault>, assetByMarket: map<string, string>): set<string> {
    set v | v in targets && Attemptable(v, assetByMarket) :: v.key
  }

  /** The vault is accounted for by its own sends, or its instruction could not be built. */
  ghost predicate Served(key: string, h: seq<string>, trace: seq<Send>, errors: seq<Failure>) {
    Accounted(key, h, trace) || BuildFailed(key) in errors
  }

  /** Build the instructions of a batch; building one may throw. */
  method BuildBatch(batch: seq<Vault>, assetByMarket: map<string, string>, rep0: Report)
    returns (built: seq<string>, rep: Report)
    requires rep0.failed == |rep0.errors|
    ensures |built| <= |batch|
    ensures rep0.errors <= rep.errors && rep.failed == |rep.errors| && OnlySends(rep.errors) == OnlySends(rep0.errors)
    ensures rep == rep0.(failed := rep.failed, errors := rep.errors)
    ensures forall v :: v in batch && Attemptable(v, assetByMarket) ==> v.key in built || BuildFailed(v.key) in rep.errors
    ensures forall k :: k in built ==> exists v :: v in batch && v.key == k && Attemptable(v, assetByMarket)
    ensures forall allowed :: BuildsOf(rep0.errors, allowed) && AttemptableKeys(batch, assetByMarket) <= allowed ==>
      BuildsOf(rep.errors, allowed)
  {
    built, rep := [], rep0;
    for i := 0 to |batch|
      invariant |built| <= i
      invariant rep0.errors <= rep.errors && rep.failed == |rep.errors| && OnlySends(rep.errors) == OnlySends(rep0.errors)
      invariant rep == rep0.(failed := rep.failed, errors := rep.errors)
      invariant forall j :: 0 <= j < i && Attemptable(batch[j], assetByMarket) ==>
        batch[j].key in built || BuildFailed(batch[j].key) in rep.errors
      invariant forall k :: k in built ==> exists v :: v in batch && v.key == k && Attemptable(v, assetByMarket)
      invariant forall allowed :: BuildsOf(rep0.errors, allowed) && AttemptableKeys(batch, assetByMarket) <= allowed ==>
        BuildsOf(rep.errors, allowed)
    {
      var v := batch[i];
      if !Attemptable(v, assetByMarket) { continue; }
      var throws: bool := *;
      if throws {
        OnlySendsStep(rep.errors, BuildFailed(v.key));
        rep := rep.(failed := rep.failed + 1, errors := rep.errors + [BuildFailed(v.key)]);
      } else {
        assert v in batch;
        built := built + [v.key];
      }
    }
  }

  /** One iteration of the pass over the chunks. */
  method SettleChunk(chain: Chain, batch: seq<Vault>, assetByMarket: map<string, string>, rep0: Report,
                     ghost served: seq<Vault>, ghost start: nat, ghost allowed: set<string>)
    returns (rep: Report)
    requires start <= |chain.sends| && Distinct(chain.history) && |batch| <= 4
    requires Faithful(rep0, chain.sends[start..], chain.history, allowed)
    requires AttemptableKeys(batch, assetByMarket) <= allowed
    requires Done(rep0) <= rep0.attempted
    requires !chain.stopAsked ==> Done(rep0) == rep0.attempted
    requires AllServed(served, assetByMarket, chain.history, chain.sends[start..], rep0.errors)
    modifies chain
    ensures old(chain.sends) <= chain.sends && old(chain.history) <= chain.history && Distinct(chain.history)
    ensures old(chain.stopAsked) ==> chain.stopAsked
    ensures Faithful(rep, chain.sends[start..], chain.history, allowed)
    ensures rep.remaining == rep0.remaining
    ensures Done(rep) <= rep.attempted <= rep0.attempted + |batch|
    ensures !chain.stopAsked ==> Done(rep) == rep.attempted
    ensures AllServed(served, assetByMarket, chain.history, chain.sends[start..], rep.errors)
    ensures !chain.stopAsked ==> AllServed(batch, assetByMarket, chain.history, chain.sends[start..], rep.errors)
  {
    var built;
    built, rep := BuildBatch(batch, assetByMarket, rep0);
    ghost var trace0, h := chain.sends[start..], chain.history;
    ghost var mid := rep;
    if |built| == 0 {
      ServedGrows(served, assetByMarket, h, h, trace0, [], rep0.errors, rep.errors);
      assert trace0 + [] == trace0;
      BatchServed(batch, built, assetByMarket, h, trace0, mid.errors, rep.errors);
      return;
    }
    ghost var more;
    rep, more := SettleBatch(chain, built, rep, trace0, allowed);
    assert chain.sends[start..] == trace0 + more;
    ServedGrows(served, assetByMarket, h, chain.history, trace0, more, rep0.errors, rep.errors);
    if !chain.stopAsked {
      BatchServed(batch, built, assetByMarket, chain.history, trace0 + more, mid.errors, rep.errors);
    }
  }

  lemma ServedGrows(vaults: seq<Vault>, assetByMarket: map<string, string>, h: seq<string>, h': seq<string>,
                    trace: seq<Send>, more: seq<Send>, errors: seq<Failure>, errors': seq<Failure>)
    requires h <= h' && errors <= errors' && AllServed(vaults, assetByMarket, h, trace, errors)
    ensures AllServed(vaults, assetByMarket, h', trace + more, errors')
  {
    forall v | v in vaults && Attemptable(v, assetByMarket) ensures Served(v.key, h', trace + more, errors') {
      assert Served(v.key, h, trace, errors);
      if Accounted(v.key, h, trace) {
        StillAccounted([v.key], trace, more, h, h');
        assert v.key in [v.key];
      }
    }
  }

  lemma BatchServed(batch: seq<Vault>, built: seq<string>, assetByMarket: map<string, string>, h: seq<string>,
                    trace: seq<Send>, errors: seq<Failure>, errors': seq<Failure>)
    requires errors <= errors' && AllAccounted(built, h, trace)
    requires forall v :: v in batch && Attemptable(v, assetByMarket) ==> v.key in built || BuildFailed(v.key) in errors
    ensures AllServed(batch, assetByMarket, h, trace, errors')
  {
    forall v | v in batch && Attemptable(v, assetByMarket) ensures Served(v.key, h, trace, errors') {
      if v.key in built {
        assert Accounted(v.key, h, trace);
      }
    }
  }

  lemma {:induction false} FlattenPrefix<T>(chunks: seq<seq<T>>, c: nat)
    requires c <= |chunks|
    ensures Flatten(chunks[..c]) <= Flatten(chunks)
    decreases |chunks|
  {
    if c == |chunks| {
      assert chunks[..c] == chunks;
    } else {
      FlattenPrefix(chunks[..|chunks| - 1], c);
      assert chunks[..|chunks| - 1][..c] == chunks[..c];
    }
  }

  lemma FlattenStep<T>(chunks: seq<seq<T>>, c: nat)
    requires c < |chunks|
    ensures Flatten(chunks[..c + 1]) == Flatten(chunks[..c]) + chunks[c]
    ensures Flatten(chunks[..c + 1]) <= Flatten(chunks)
  {
    assert chunks[..c + 1][..c] == chunks[..c];
    FlattenPrefix(chunks, c + 1);
  }

  lemma ChunkIsAllowed(chunks: seq<seq<Vault>>, c: nat, assetByMarket: map<string, string>)
    requires c < |chunks|
    ensures AttemptableKeys(chunks[c], assetByMarket) <= AttemptableKeys(Flatten(chunks), assetByMarket)
  {
    FlattenStep(chunks, c);
    var upTo := Flatten(chunks[..c + 1]);
    forall v | v in chunks[c] ensures v in Flatten(chunks) {
      assert v in upTo;
      var i :| 0 <= i < |upTo| && upTo[i] == v;
      assert Flatten(chunks)[i] == v;
    }
  }

  /** runSettleFanout. The trace is what it sent, `finished` the targets of the chunks it was through with
      before a stop was asked for; `plan` is any plan with at most as many targets as eligible vaults. */
  method RunSettleFanout(chain: Chain, plan: Plan, assetByMarket: map<string, string>)
    returns (rep: Report, ghost finished: seq<Vault>)
    requires Distinct(chain.history) && |plan.targets| <= plan.eligibleTotal && !chain.stopAsked
    modifies chain
    // Nothing is settled twice, and nothing that was settled stops being so.
    ensures Distinct(chain.history) && old(chain.history) <= chain.history && old(chain.sends) <= chain.sends
    // The counters are those of the sends; what landed, was confirmed or was skipped is settled at the
    // end; and nothing was ever sent but targets with a known, non-empty asset name.
    ensures Faithful(rep, chain.sends[|old(chain.sends)|..], chain.history, AttemptableKeys(plan.targets, assetByMarket))
    ensures forall s, k :: s in chain.sends[|old(chain.sends)|..] && Confirmed(s) && k in s.keys ==> k in chain.history
    // Each counter counts sends. An isolated vault that was rejected because it was settled, however the
    // message says so, is counted skipped and never reported as failed; any other rejection is reported.
    ensures CountsOf(Counts(rep.attempted, rep.txsSent, rep.settled, rep.skipped, |OnlySends(rep.errors)|),
                     chain.sends[|old(chain.sends)|..])
    ensures forall key, e :: SendFailed(key, e) in rep.errors <==>
      exists s :: s in chain.sends[|old(chain.sends)|..] && FailedAlone(s, key, e)
    // Every attempt comes to exactly one end, unless the pass was stopped.
    ensures Done(rep) <= rep.attempted <= |plan.targets|
    ensures !chain.stopAsked ==> Done(rep) == rep.attempted
    // The clamp at zero never acts.
    ensures rep.remaining == plan.eligibleTotal - rep.settled - rep.skipped >= 0
    // Every finished target is settled, failed in its own send, failed to build, or had an error of its
    // own confirmation dropped, whichever batch it shared; and without a stop all targets are finished.
    ensures finished <= plan.targets && (!chain.stopAsked ==> finished == plan.targets)
    ensures AllServed(finished, assetByMarket, chain.history, chain.sends[|old(chain.sends)|..], rep.errors)
  {
    rep := Report(0, 0, 0, 0, 0, plan.eligibleTotal, []);
    finished := [];
    ghost var start, allowed := |chain.sends|, AttemptableKeys(plan.targets, assetByMarket);
    assert chain.sends[start..] == [];
    if |plan.targets| == 0 {
      TallyMeans([]);
      return;
    }
    var chunks := ChunkTargets(plan.targets, FANOUT_CHUNK_SIZE);
    for c := 0 to |chunks.value|
      invariant old(chain.sends) <= chain.sends && old(chain.history) <= chain.history && Distinct(chain.history)
      invariant Faithful(rep, chain.sends[start..], chain.history, allowed)
      invariant rep.remaining == plan.eligibleTotal
      invariant finished <= plan.targets && (!chain.stopAsked ==> finished == Flatten(chunks.value[..c]))
      invariant Done(rep) <= rep.attempted <= |Flatten(chunks.value[..c])| <= |plan.targets|
      invariant !chain.stopAsked ==> Done(rep) == rep.attempted
      invariant AllServed(finished, assetByMarket, chain.history, chain.sends[start..], rep.errors)
    {
      FlattenStep(chunks.value, c);
      ChunkIsAllowed(chunks.value, c, assetByMarket);
      var stop := chain.ShouldStop();
      if stop { break; }
      rep := SettleChunk(chain, chunks.value[c], assetByMarket, rep, finished, start, allowed);
      if !chain.stopAsked {
        finished := finished + chunks.value[c];
      }
    }
    assert chunks.value[..|chunks.value|] == chunks.value;
    TallyMeans(chain.sends[start..]);
    FailuresMean(chain.sends[start..], rep.errors);
    rep := rep.(remaining := Max(0, plan.eligibleTotal - rep.settled - rep.skipped));
  }

  ghost predicate AllServed(vaults: seq<Vault>, assetByMarket: map<string, string>, h: seq<string>, trace: seq<Send>,
                            errors: seq<Failure>) {
    forall v :: v in vaults && Attemptable(v, assetByMarket) ==> Served(v.key, h, trace, errors)
  }

  // ---- What the report says of the sends -------------------------------------------------------

  ghost function Tried(s: Send): nat {
    if s.kind.Batch? then |s.keys| else 0
  }

  ghost function Settled(s: Send): nat {
    if s.result.Sent? then |s.keys| else 0
  }

  ghost function Each(trace: seq<Send>, amount: Send -> nat): seq<nat> {
    seq(|trace|, i requires 0 <= i < |trace| => amount(trace[i]))
  }

  ghost function Where(trace: seq<Send>, p: Send -> bool): set<int> {
    set i | 0 <= i < |trace| && p(trace[i])
  }

  lemma EachSnoc(trace: seq<Send>, s: Send, amount: Send -> nat)
    ensures Sum(Each(trace + [s], amount)) == Sum(Each(trace, amount)) + amount(s)
  {
    assert Each(trace + [s], amount)[..|trace|] == Each(trace, amount);
  }

  lemma WhereSnoc(trace: seq<Send>, s: Send, p: Send -> bool)
    ensures |Where(trace + [s], p)| == |Where(trace, p)| + if p(s) then 1 else 0
  {
    OneMore(Where(trace, p), Where(trace + [s], p), |trace|, p(s));
  }

  /** The counts of a trace: vaults in batches, sends that returned, vaults in those, isolated sends that
      met a settled vault, and isolated sends that failed in any other way. */
  ghost predicate CountsOf(c: Counts, trace: seq<Send>) {
    && c.attempted == Sum(Each(trace, Tried))
    && c.txs == |Where(trace, (s: Send) => s.result.Sent?)|
    && c.settled == Sum(Each(trace, Settled))
    && c.skipped == |Where(trace, (s: Send) => s.kind.Alone? && s.result.Threw? && s.code == Some(6019))|
    && c.sendFailed == |Where(trace, (s: Send) => s.kind.Alone? && s.result.Threw? && s.code != Some(6019))|
  }

  /** An isolated send of this vault threw this error, and not because the vault was settled. */
  ghost predicate FailedAlone(s: Send, key: string, e: SendError) {
    s.kind.Alone? && s.keys == [key] && s.result == Threw(e) && s.code != Some(6019)
  }

  lemma {:induction false} FailureMeans(trace: seq<Send>, f: Failure)
    requires forall s :: s in trace && s.kind.Alone? ==> |s.keys| == 1
    ensures f in SendFailures(trace) <==> f.SendFailed? && exists s :: s in trace && FailedAlone(s, f.key, f.error)
    decreases |trace|
  {
    if trace != [] {
      var front, last := trace[..|trace| - 1], trace[|trace| - 1];
      assert trace == front + [last];
      FailureMeans(front, f);
      assert last in trace;
      assert last.kind.Alone? ==> last.keys == [last.keys[0]];
      assert f in FailureOf(last) <==> f.SendFailed? && FailedAlone(last, f.key, f.error);
    }
  }

  lemma {:induction false} OnlySendsMembers(errors: seq<Failure>)
    ensures forall f :: f in OnlySends(errors) <==> f in errors && f.SendFailed?
    decreases |errors|
  {
    if errors != [] {
      OnlySendsMembers(errors[..|errors| - 1]);
      assert errors == errors[..|errors| - 1] + [errors[|errors| - 1]];
    }
  }

  lemma FailuresMean(trace: seq<Send>, errors: seq<Failure>)
    requires OnlySends(errors) == SendFailures(trace) && forall s :: s in trace && s.kind.Alone? ==> |s.keys| == 1
    ensures forall key, e :: SendFailed(key, e) in errors <==> exists s :: s in trace && FailedAlone(s, key, e)
  {
    OnlySendsMembers(errors);
    forall key, e ensures SendFailed(key, e) in errors <==> exists s :: s in trace && FailedAlone(s, key, e) {
      FailureMeans(trace, SendFailed(key, e));
    }
  }

  lemma {:induction false} TallyMeans(trace: seq<Send>)
    ensures CountsOf(Tally(trace), trace)
    decreases |trace|
  {
    if trace != [] {
      var front, s := trace[..|trace| - 1], trace[|trace| - 1];
      assert trace == front + [s];
      TallyMeans(front);
      TallyStep(front, s);
      EachSnoc(front, s, Tried);
      EachSnoc(front, s, Settled);
      WhereSnoc(front, s, (s: Send) => s.result.Sent?);
      WhereSnoc(front, s, (s: Send) => s.kind.Alone? && s.result.Threw? && s.code == Some(6019));
      WhereSnoc(front, s, (s: Send) => s.kind.Alone? && s.result.Threw? && s.code != Some(6019));
    }
  }

  // ---- What a normal return is worth ---------------------------------------------------------

  /** A send that returned normally is counted settled whatever its confirmation said. That is right for
      every behaviour of the chain iff the confirmation's error value is null, which the caller could
      have checked, or all its vaults were settled before. */
  lemma CountedSettledIff(h: seq<string>, s: Send)
    requires Distinct(h) && s.result.Sent? && s.code.None? && (s.landed <==> !s.confirmError)
    ensures (forall h', others :: SendStep(h, h', others, s) ==> forall k :: k in s.keys ==> k in h')
       <==> Confirmed(s) || forall k :: k in s.keys ==> k in h
  {
    if s.confirmError {
      assert h == h + [] + [];
      assert SendStep(h, h, [], s);
    }
  }

  /** One dropped confirmation error suffices: after any pass so far, the chain may let a further batch
      return normally and leave every vault of it unsettled, while all of them are counted. */
  lemma UncheckedConfirmation(trace: seq<Send>, h: seq<string>, keys: seq<string>) returns (s: Send)
    requires Distinct(h) && Borne(trace, h) && keys != [] && forall k :: k in keys ==> k !in h
    ensures s.kind.Batch? && s.keys == keys && s.confirmError
    ensures SendStep(h, h, [], s) && Borne(trace + [s], h)
    ensures Tally(trace + [s]).settled == Tally(trace).settled + |keys|
    ensures SendFailures(trace + [s]) == SendFailures(trace)
  {
    s := Send(Batch, keys, false, None, true, Sent);
    TallyStep(trace, s);
    assert h == h + [] + [];
    BorneStep(trace, s, h, h, []);
  }

  // ---- Vaults that are never attempted ----------------------------------------------------------

  /** On every board: an eligible vault is attempted iff its market's cleaned name is not empty. */
  lemma EligibleIsAttemptableIff(b: Board, v: Vault)
    requires v in EligibleVaults(b)
    ensures Attemptable(v, AssetByMarket(b.markets))
       <==> exists i :: IsLast(b.markets, i, v.market) && CleanAssetName(b.markets[i].assetName) != ""
  {
    OfClassMembers(b, b.vaults, Eligible);
    LastMarket(b.markets, v.market);
    AssetOfLastMarket(b.markets, v.market);
  }

  /** There are such vaults: a record and a market may share a name that is all padding. */
  lemma PaddingAloneIsEligible(spaces: string, nuls: string) returns (b: Board, v: Vault)
    requires All(spaces, IsSpace) && All(nuls, IsNul)
    ensures b == Board([v], [Market(v.market, spaces + nuls)], [Record("", v.expiry)], v.expiry)
    ensures v in EligibleVaults(b) && IsLast(b.markets, 0, v.market) && CleanAssetName(b.markets[0].assetName) == ""
  {
    v := Vault("v", "m", 0, false, false);
    b := Board([v], [Market("m", spaces + nuls)], [Record("", 0)], 0);
    PaddingIsRemoved("", spaces, nuls);
    assert "" + spaces + nuls == spaces + nuls;
    PaddingIsRemoved("", "", "");
    EligibleExactly(b, v);
    assert b.records[0] in b.records && v in b.vaults;
  }

  /** So a pass over a plan for that board never sends such a vault: it stays in the backlog unless
      somebody else settles it. */
  lemma EmptyNameIsNeverSent(b: Board, targets: seq<Vault>, trace: seq<Send>, v: Vault, i: int)
    requires DistinctKeys(b.vaults) && v in EligibleVaults(b)
    requires forall t :: t in targets ==> t in EligibleVaults(b)
    requires OnlyOf(trace, AttemptableKeys(targets, AssetByMarket(b.markets)))
    requires IsLast(b.markets, i, v.market) && CleanAssetName(b.markets[i].assetName) == ""
    ensures forall s :: s in trace ==> v.key !in s.keys
  {
    AssetOfLastMarket(b.markets, v.market);
    NotAttemptable(b, targets, v);
  }

  lemma NotAttemptable(b: Board, targets: seq<Vault>, v: Vault)
    requires DistinctKeys(b.vaults) && v in EligibleVaults(b)
    requires forall t :: t in targets ==> t in EligibleVaults(b)
    requires !Attemptable(v, AssetByMarket(b.markets))
    ensures v.key !in AttemptableKeys(targets, AssetByMarket(b.markets))
  {
    OfClassMembers(b, b.vaults, Eligible);
    forall t | t in targets && t.key == v.key ensures t == v {
      SameKeySameVault(b.vaults, t, v);
    }
  }

  lemma SameKeySameVault(vaults: seq<Vault>, v: Vault, w: Vault)
    requires DistinctKeys(vaults) && v in vaults && w in vaults && v.key == w.key
    ensures v == w
  {
  }
}
