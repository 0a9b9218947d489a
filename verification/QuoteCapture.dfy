/** The capture hook around the SDK's builder, and the swap of the packed instruction. */
module QuoteCapture {
  import opened Prelude
  import opened Ed25519SelfPack
  import opened Ed25519Decode
  import opened PhantomShift

  // ---- The patched static method -------------------------------------------------------

  /** The arguments of one builder call. */
  datatype Build = Build(signatures: seq<Triple>, instructionIndex: int, recentSlot: int, version: int)

  /** The installed builder: the SDK's own, or a hook that records for its scope and calls the one below. */
  datatype Builder = Original | Hook(scope: nat, below: Builder)

  /** One run of withEd25519CaptureHook: what it found installed, and what it has captured. */
  datatype Scope = Scope(orig: Builder, captured: Option<Build>)

  datatype Event = Enter | Call(args: Build) | Exit(scope: nat)

  class Ed25519Utils {
    var installed: Builder
    var scopes: seq<Scope>

    ghost function State(): World
      reads this
    {
      World(installed, scopes)
    }

    constructor ()
      ensures State() == Initial
    {
      installed, scopes := Original, [];
    }

    method Enter() returns (id: nat)
      modifies this
      ensures id == |old(scopes)| && State() == old(State()).Step(Event.Enter)
    {
      id := |scopes|;
      scopes := scopes + [Scope(installed, None)];
      installed := Hook(id, installed);
    }

    /** A call of the patched method runs the hooks from the top down, then the SDK's builder. */
    method Call<R>(args: Build, sdk: Build -> R) returns (r: R)
      modifies this
      ensures r == sdk(args) && State() == old(State()).Step(Event.Call(args))
    {
      var b := installed;
      while b.Hook?
        invariant installed == old(installed)
        invariant Record(b, scopes, args) == Record(installed, old(scopes), args)
        decreases b
      {
        if b.scope < |scopes| {
          scopes := scopes[b.scope := scopes[b.scope].(captured := Some(args))];
        }
        b := b.below;
      }
      r := sdk(args);
    }

    /** The finally block; it runs whether the callback returned or threw. */
    method Exit(id: nat) returns (captured: Option<Build>)
      requires id < |scopes|
      modifies this`installed
      ensures captured == old(scopes)[id].captured && State() == old(State()).Step(Event.Exit(id))
    {
      captured := scopes[id].captured;
      installed := scopes[id].orig;
    }
  }

  function Record(b: Builder, scopes: seq<Scope>, args: Build): (r: seq<Scope>)
    ensures |r| == |scopes|
  {
    match b
    case Original => scopes
    case Hook(id, below) =>
      Record(below, if id < |scopes| then scopes[id := scopes[id].(captured := Some(args))] else scopes, args)
  }

  datatype World = World(installed: Builder, scopes: seq<Scope>) {
    function Step(e: Event): World {
      match e
      case Enter => World(Hook(|scopes|, installed), scopes + [Scope(installed, None)])
      case Call(args) => World(installed, Record(installed, scopes, args))
      case Exit(id) =>
        if id < |scopes| then World(scopes[id].orig, scopes) else this
    }
  }

  const Initial := World(Original, [])

  function Run(events: seq<Event>): World {
    if events == [] then Initial else Run(events[..|events| - 1]).Step(events[|events| - 1])
  }

  // ---- Nested scopes ----------------------------------------------------------------------

  /** The open scopes after a run in which they exit in reverse order of entry; None otherwise. */
  function OpenScopes(events: seq<Event>): Option<seq<nat>> {
    if events == [] then Some([])
    else
      var open := OpenScopes(events[..|events| - 1]);
      if open.None? then None
      else match events[|events| - 1]
        case Enter => Some(open.value + [Entered(events[..|events| - 1])])
        case Call(_) => open
        case Exit(id) =>
          var o := open.value;
          if o != [] && o[|o| - 1] == id then Some(o[..|o| - 1]) else None
  }

  function Entered(events: seq<Event>): nat {
    if events == [] then 0
    else Entered(events[..|events| - 1]) + (if events[|events| - 1].Enter? then 1 else 0)
  }

  /** The last call made after scope `id` was entered. */
  function LastCall(events: seq<Event>, id: nat): Option<Build> {
    if events == [] then None
    else
      var init, e := events[..|events| - 1], events[|events| - 1];
      if e.Call? && id < Entered(init) then Some(e.args) else LastCall(init, id)
  }

  /** The hooks of the open scopes, the latest on top. */
  function Chain(open: seq<nat>): Builder {
    if open == [] then Original else Hook(open[|open| - 1], Chain(open[..|open| - 1]))
  }

  predicate Increasing(open: seq<nat>, bound: nat) {
    && (forall i, j :: 0 <= i < j < |open| ==> open[i] < open[j])
    && (forall i :: 0 <= i < |open| ==> open[i] < bound)
  }

  /** A call is recorded in exactly the scopes of the chain. */
  lemma {:induction false} RecordChain(open: seq<nat>, scopes: seq<Scope>, args: Build)
    requires Increasing(open, |scopes|)
    ensures forall id :: 0 <= id < |scopes| ==>
      Record(Chain(open), scopes, args)[id] == if id in open then scopes[id].(captured := Some(args)) else scopes[id]
    decreases |open|
  {
    if open != [] {
      var top, rest := open[|open| - 1], open[..|open| - 1];
      var scopes' := scopes[top := scopes[top].(captured := Some(args))];
      RecordChain(rest, scopes', args);
      forall id | 0 <= id < |scopes|
        ensures Record(Chain(open), scopes, args)[id] == if id in open then scopes[id].(captured := Some(args)) else scopes[id]
      {
        assert id in open <==> id == top || id in rest;
      }
    }
  }

  lemma {:induction false} NoCallBeforeEntry(events: seq<Event>, id: nat)
    requires Entered(events) <= id
    ensures LastCall(events, id) == None
    decreases |events|
  {
    if events != [] {
      NoCallBeforeEntry(events[..|events| - 1], id);
    }
  }

  /** The installed builder is exactly the hooks of the open scopes over the SDK's own; every open
      scope will restore what it found, and holds the last call made since it was entered. */
  predicate Nested(w: World, open: seq<nat>, events: seq<Event>) {
    && w.installed == Chain(open)
    && |w.scopes| == Entered(events) && Increasing(open, |w.scopes|)
    && (forall i :: 0 <= i < |open| ==> w.scopes[open[i]].orig == Chain(open[..i]))
    && (forall i :: 0 <= i < |open| ==> w.scopes[open[i]].captured == LastCall(events, open[i]))
  }

  lemma NestedEnter(w: World, open: seq<nat>, init: seq<Event>, events: seq<Event>)
    requires Nested(w, open, init) && events == init + [Enter]
    ensures Nested(w.Step(Enter), open + [|w.scopes|], events)
  {
    assert events[..|init|] == init;
    var open', w' := open + [|w.scopes|], w.Step(Enter);
    NoCallBeforeEntry(init, Entered(init));
    assert open'[..|open|] == open;
    forall i | 0 <= i < |open'|
      ensures w'.scopes[open'[i]].orig == Chain(open'[..i]) && w'.scopes[open'[i]].captured == LastCall(events, open'[i])
    {
      if i < |open| {
        assert open'[..i] == open[..i] && open'[i] == open[i];
      }
    }
  }

  lemma NestedCall(w: World, open: seq<nat>, init: seq<Event>, events: seq<Event>, args: Build)
    requires Nested(w, open, init) && events == init + [Event.Call(args)]
    ensures Nested(w.Step(Event.Call(args)), open, events)
  {
    assert events[..|init|] == init;
    var scopes := Record(w.installed, w.scopes, args);
    RecordChain(open, w.scopes, args);
    forall i | 0 <= i < |open|
      ensures scopes[open[i]].orig == Chain(open[..i]) && scopes[open[i]].captured == LastCall(events, open[i])
    {
      assert open[i] in open;
    }
  }

  lemma NestedExit(w: World, open: seq<nat>, init: seq<Event>, events: seq<Event>, id: nat)
    requires Nested(w, open, init) && events == init + [Event.Exit(id)]
    requires open != [] && open[|open| - 1] == id
    ensures Nested(w.Step(Event.Exit(id)), open[..|open| - 1], events)
  {
    assert events[..|init|] == init;
    var open', w' := open[..|open| - 1], w.Step(Event.Exit(id));
    forall i | 0 <= i < |open'|
      ensures w'.scopes[open'[i]].orig == Chain(open'[..i]) && w'.scopes[open'[i]].captured == LastCall(events, open'[i])
    {
      assert open'[i] == open[i] && open'[..i] == open[..i];
    }
  }

  /** Scopes that exit in reverse order of entry stay nested, over every run. */
  lemma {:induction false} NestedScopes(events: seq<Event>)
    requires OpenScopes(events).Some?
    ensures Nested(Run(events), OpenScopes(events).value, events)
    decreases |events|
  {
    if events != [] {
      var init, e := events[..|events| - 1], events[|events| - 1];
      NestedScopes(init);
      assert events == init + [e];
      match e
      case Enter => NestedEnter(Run(init), OpenScopes(init).value, init, events);
      case Call(args) => NestedCall(Run(init), OpenScopes(init).value, init, events, args);
      case Exit(id) => NestedExit(Run(init), OpenScopes(init).value, init, events, id);
    }
  }

  /** After the outermost exit the original is back. */
  lemma RestoredAfterNesting(events: seq<Event>)
    requires OpenScopes(events) == Some([])
    ensures Run(events).installed == Original
  {
    NestedScopes(events);
  }

  /** What was installed when scope `id` was entered. */
  function FoundAtEntry(events: seq<Event>, id: nat): Builder
    requires id < Entered(events)
  {
    var init := events[..|events| - 1];
    if id == Entered(init) then Run(init).installed else FoundAtEntry(init, id)
  }

  lemma {:induction false} ScopesRememberEntry(events: seq<Event>, id: nat)
    requires id < Entered(events)
    ensures |Run(events).scopes| == Entered(events) && Run(events).scopes[id].orig == FoundAtEntry(events, id)
    decreases |events|
  {
    var init, e := events[..|events| - 1], events[|events| - 1];
    ScopeCount(init);
    if id < Entered(init) {
      ScopesRememberEntry(init, id);
      if e.Call? {
        RecordKeepsOrig(Run(init).installed, Run(init).scopes, e.args, id);
      }
    }
  }

  lemma {:induction false} ScopeCount(events: seq<Event>)
    ensures |Run(events).scopes| == Entered(events)
    decreases |events|
  {
    if events != [] {
      ScopeCount(events[..|events| - 1]);
    }
  }

  lemma {:induction false} RecordKeepsOrig(b: Builder, scopes: seq<Scope>, args: Build, id: nat)
    requires id < |scopes|
    ensures Record(b, scopes, args)[id].orig == scopes[id].orig
    decreases b
  {
    if b.Hook? {
      RecordKeepsOrig(b.below, if b.scope < |scopes| then scopes[b.scope := scopes[b.scope].(captured := Some(args))] else scopes, args, id);
    }
  }

  /** In any order of exits, what is installed after an exit is the original iff it was installed
      when that same scope was entered. */
  lemma RestoredIff(events: seq<Event>, id: nat)
    requires id < Entered(events)
    ensures Run(events + [Exit(id)]).installed == Original <==> FoundAtEntry(events, id) == Original
  {
    ScopesRememberEntry(events, id);
    assert (events + [Exit(id)])[..|events|] == events;
  }

  /** So two scopes that exit in their order of entry leave the first one's hook behind. */
  lemma OverlappingScopesLeaveAHook()
    ensures Run([Enter, Enter, Exit(0), Exit(1)]).installed == Hook(0, Original)
  {
    assert [Enter, Enter, Exit(0), Exit(1)][..3] == [Enter, Enter, Exit(0)];
    assert [Enter, Enter, Exit(0)][..2] == [Enter, Enter];
    assert [Enter, Enter][..1] == [Enter];
    assert [Enter][..0] == [];
    assert Run([Enter]) == World(Hook(0, Original), [Scope(Original, None)]);
    assert Run([Enter, Enter]).scopes[1].orig == Hook(0, Original);
  }

  // ---- The swap ----------------------------------------------------------------------------

  const ED25519_PROGRAM := "Ed25519SigVerify111111111111111111111111111"

  datatype Ix = Ix(programId: string, data: Bytes)

  datatype Managed = Managed(ixs: seq<Ix>, ed25519Index: nat, sdkDataLen: nat, selfPackedDataLen: nat)

  datatype QuoteError = HookNeverFired | NoEd25519Instruction | Unpackable(error: PackError)

  predicate FirstEd25519(ixs: seq<Ix>, k: nat) {
    k < |ixs| && ixs[k].programId == ED25519_PROGRAM
    && forall j :: 0 <= j < k ==> ixs[j].programId != ED25519_PROGRAM
  }

  /** buildManagedQuoteUpdateIxs after the SDK returned: only the first ed25519 instruction changes. */
  method SwapEd25519(ixs: seq<Ix>, captured: Option<Build>) returns (r: Result<Managed, QuoteError>)
    ensures r == Err(HookNeverFired) <==> captured.None?
    ensures r == Err(NoEd25519Instruction) <==>
      captured.Some? && forall j :: 0 <= j < |ixs| ==> ixs[j].programId != ED25519_PROGRAM
    ensures r.Ok? ==>
      var b, m := captured.value, r.value;
      && FirstEd25519(ixs, m.ed25519Index)
      && Packable(b.signatures, b.instructionIndex, b.recentSlot)
      && m.ixs == ixs[m.ed25519Index := Ix(ED25519_PROGRAM, Packed(b.signatures, b.instructionIndex, b.recentSlot, b.version))]
      && m.sdkDataLen == |ixs[m.ed25519Index].data|
      && m.selfPackedDataLen == |m.ixs[m.ed25519Index].data|
    ensures (exists k :: FirstEd25519(ixs, k)) && captured.Some? ==>
      (r.Ok? <==> Packable(captured.value.signatures, captured.value.instructionIndex, captured.value.recentSlot))
  {
    if captured.None? { return Err(HookNeverFired); }
    var edPos := 0;
    while edPos < |ixs| && ixs[edPos].programId != ED25519_PROGRAM
      invariant 0 <= edPos <= |ixs|
      invariant forall j :: 0 <= j < edPos ==> ixs[j].programId != ED25519_PROGRAM
    {
      edPos := edPos + 1;
    }
    if edPos == |ixs| { return Err(NoEd25519Instruction); }
    var b := captured.value;
    PackableMeans(b.signatures, b.instructionIndex, b.recentSlot);
    var corrected, _ := Pack(b.signatures, b.instructionIndex, b.recentSlot, b.version);
    if corrected.Err? { return Err(Unpackable(corrected.error)); }
    var swapped := ixs[edPos := Ix(ED25519_PROGRAM, corrected.value)];
    r := Ok(Managed(swapped, edPos, |ixs[edPos].data|, |corrected.value|));
  }

  function DataOf(ixs: seq<Ix>): seq<Bytes> {
    seq(|ixs|, i requires 0 <= i < |ixs| => ixs[i].data)
  }

  /** End to end: put behind one compute-budget instruction, the swapped instruction passes the
      audit if it was packed for the position it then has. */
  lemma SwappedPassesAudit(cu: Ix, m: Managed, b: Build)
    requires Packable(b.signatures, b.instructionIndex, b.recentSlot)
    requires m.ed25519Index < |m.ixs| && b.instructionIndex == m.ed25519Index + 1
    requires m.ixs[m.ed25519Index].data == Packed(b.signatures, b.instructionIndex, b.recentSlot, b.version)
    ensures var tx := DataOf([cu] + m.ixs);
      !Truncated(tx[b.instructionIndex]) && BadReferences(tx, b.instructionIndex) == 0
  {
    PassesInPlace(DataOf([cu] + m.ixs), b.signatures, b.instructionIndex, b.recentSlot, b.version);
  }
}
