/** The audit of a transaction's ed25519 offsets, before and after a wallet inserts instructions. */
module PhantomShift {
  import opened Prelude
  import opened Ed25519SelfPack
  import opened Ed25519Decode

  /** u16::MAX: "the instruction being verified". */
  const SELF := 65535

  datatype AuditError = MissingInstruction | Unreadable

  /** The instruction data an instruction index refers to. */
  function Target(ixs: seq<Bytes>, d: Bytes, ix: nat): Option<Bytes> {
    if ix == SELF then Some(d) else if ix < |ixs| then Some(ixs[ix]) else None
  }

  /** 1 for a reference that is missing or out of bounds, else 0. */
  function Bad(target: Option<Bytes>, end: nat): nat {
    if target.Some? && end <= |target.value| then 0 else 1
  }

  function BadInStruct(ixs: seq<Bytes>, d: Bytes, o: Offsets): nat {
    Bad(Target(ixs, d, o.sigIx), o.sigOff + 64)
    + Bad(Target(ixs, d, o.pkIx), o.pkOff + 32)
    + Bad(Target(ixs, d, o.msgIx), o.msgOff + o.msgLen)
  }

  function BadUpTo(ixs: seq<Bytes>, d: Bytes, n: nat): nat
    requires n > 0 ==> StructOff(n) <= |d|
  {
    if n == 0 then 0 else BadUpTo(ixs, d, n - 1) + BadInStruct(ixs, d, ReadStruct(d, StructOff(n - 1)))
  }

  /** auditEd: how many references fail to resolve. Reading past the data throws. */
  method AuditEd(ixs: seq<Bytes>, edIdx: nat) returns (r: Result<nat, AuditError>)
    ensures r == Err(MissingInstruction) <==> edIdx >= |ixs|
    ensures r == Err(Unreadable) <==> edIdx < |ixs| && (ixs[edIdx] == [] || Truncated(ixs[edIdx]))
    ensures r == Err(Unreadable) <==>
      edIdx < |ixs| && var d := ixs[edIdx]; |d| == 0 || (d[0] > 0 && |d| - 2 < 14 * (d[0] as int))
    ensures r.Ok? ==> r.value == BadUpTo(ixs, ixs[edIdx], Count(ixs[edIdx]))
  {
    if edIdx >= |ixs| { return Err(MissingInstruction); }
    var d := ixs[edIdx];
    if |d| == 0 { return Err(Unreadable); }
    var n := d[0];
    var bad := 0;
    for s := 0 to n
      invariant s > 0 ==> StructOff(s) <= |d|
      invariant bad == BadUpTo(ixs, d, s)
    {
      if StructOff(s) + 14 > |d| { return Err(Unreadable); }
      var f := ReadStruct(d, StructOff(s));
      bad := bad + Bad(Target(ixs, d, f.sigIx), f.sigOff + 64);
      bad := bad + Bad(Target(ixs, d, f.pkIx), f.pkOff + 32);
      bad := bad + Bad(Target(ixs, d, f.msgIx), f.msgOff + f.msgLen);
    }
    r := Ok(bad);
  }

  /** The audit's verdict on an instruction it can read. */
  function BadReferences(tx: seq<Bytes>, k: nat): nat
    requires k < |tx| && !Truncated(tx[k])
  {
    BadUpTo(tx, tx[k], Count(tx[k]))
  }

  /** The reference resolves: its instruction is there, or is this one itself, and reaches that far. */
  ghost predicate Resolves(tx: seq<Bytes>, self: nat, ix: nat, end: nat)
    requires self < |tx|
  {
    || (ix == 0xffff && end <= |tx[self]|)
    || (ix != 0xffff && ix < |tx| && end <= |tx[ix]|)
  }

  /** Signature, key and message references of struct i that do not. */
  ghost predicate SigLost(tx: seq<Bytes>, self: nat, i: nat)
    requires self < |tx|
  {
    16 + 14 * i <= |tx[self]| && var o := ReadStruct(tx[self], 2 + 14 * i);
    !Resolves(tx, self, o.sigIx, o.sigOff + 64)
  }

  ghost predicate KeyLost(tx: seq<Bytes>, self: nat, i: nat)
    requires self < |tx|
  {
    16 + 14 * i <= |tx[self]| && var o := ReadStruct(tx[self], 2 + 14 * i);
    !Resolves(tx, self, o.pkIx, o.pkOff + 32)
  }

  ghost predicate MessageLost(tx: seq<Bytes>, self: nat, i: nat)
    requires self < |tx|
  {
    16 + 14 * i <= |tx[self]| && var o := ReadStruct(tx[self], 2 + 14 * i);
    !Resolves(tx, self, o.msgIx, o.msgOff + o.msgLen)
  }

  ghost function SigsLost(tx: seq<Bytes>, self: nat, n: nat): set<int>
    requires self < |tx|
  {
    set i | 0 <= i < n && SigLost(tx, self, i)
  }

  ghost function KeysLost(tx: seq<Bytes>, self: nat, n: nat): set<int>
    requires self < |tx|
  {
    set i | 0 <= i < n && KeyLost(tx, self, i)
  }

  ghost function MessagesLost(tx: seq<Bytes>, self: nat, n: nat): set<int>
    requires self < |tx|
  {
    set i | 0 <= i < n && MessageLost(tx, self, i)
  }

  lemma OneMoreLost(tx: seq<Bytes>, self: nat, n: nat)
    requires self < |tx|
    ensures |SigsLost(tx, self, n + 1)| == |SigsLost(tx, self, n)| + if SigLost(tx, self, n) then 1 else 0
    ensures |KeysLost(tx, self, n + 1)| == |KeysLost(tx, self, n)| + if KeyLost(tx, self, n) then 1 else 0
    ensures |MessagesLost(tx, self, n + 1)| == |MessagesLost(tx, self, n)| + if MessageLost(tx, self, n) then 1 else 0
  {
    OneMore(SigsLost(tx, self, n), SigsLost(tx, self, n + 1), n, SigLost(tx, self, n));
    OneMore(KeysLost(tx, self, n), KeysLost(tx, self, n + 1), n, KeyLost(tx, self, n));
    OneMore(MessagesLost(tx, self, n), MessagesLost(tx, self, n + 1), n, MessageLost(tx, self, n));
  }

  lemma {:induction false} LostUpTo(tx: seq<Bytes>, self: nat, n: nat)
    requires self < |tx| && (n > 0 ==> StructOff(n) <= |tx[self]|)
    ensures BadUpTo(tx, tx[self], n) == |SigsLost(tx, self, n)| + |KeysLost(tx, self, n)| + |MessagesLost(tx, self, n)|
  {
    if n > 0 {
      LostUpTo(tx, self, n - 1);
      OneMoreLost(tx, self, n - 1);
      OneStruct(tx, self, n - 1);
    }
  }

  lemma OneStruct(tx: seq<Bytes>, self: nat, i: nat)
    requires self < |tx| && StructOff(i) + 14 <= |tx[self]|
    ensures BadInStruct(tx, tx[self], ReadStruct(tx[self], StructOff(i)))
         == (if SigLost(tx, self, i) then 1 else 0) + (if KeyLost(tx, self, i) then 1 else 0)
          + (if MessageLost(tx, self, i) then 1 else 0)
  {
  }

  /** For any instruction data, packed or not: the audit counts the signatures, keys and messages whose
      instruction is missing or too short. */
  lemma BadReferencesCount(tx: seq<Bytes>, k: nat)
    requires k < |tx| && tx[k] != [] && !Truncated(tx[k])
    ensures var n := tx[k][0];
      BadReferences(tx, k) == |SigsLost(tx, k, n)| + |KeysLost(tx, k, n)| + |MessagesLost(tx, k, n)|
  {
    LostUpTo(tx, k, Count(tx[k]));
  }

  // ---- What decides the audit of a packed instruction ------------------------------------------

  /** The bytes a packed instruction's references reach over. */
  function Extent(ts: seq<Triple>): nat
    requires ts != []
  {
    MsgOff(|ts|) + |ts[0].message|
  }

  /** The offsets packed for signature `i` of `n`, with a message of `len` bytes. */
  function PackedOffsets(n: nat, len: nat, idx: nat, i: nat): Offsets {
    Offsets(SigOff(n, i), idx, SigOff(n, i) + 64, idx, MsgOff(n), len, idx)
  }

  /** The first `k` structs of the data are packed ones. */
  predicate HasStructs(d: Bytes, n: nat, len: nat, idx: nat, k: nat) {
    k == 0
    || (StructOff(k - 1) + 14 <= |d|
        && ReadStruct(d, StructOff(k - 1)) == PackedOffsets(n, len, idx, k - 1)
        && HasStructs(d, n, len, idx, k - 1))
  }

  lemma {:induction false} RegionsHaveStructs(d: Bytes, ts: seq<Triple>, idx: int, slot: int, version: int, k: nat)
    requires Regions(d, ts, idx, slot, version) && k <= |ts|
    ensures HasStructs(d, |ts|, |ts[0].message|, idx, k)
  {
    if k > 0 {
      StructOfRegions(d, ts, idx, slot, version, k - 1);
      RegionsHaveStructs(d, ts, idx, slot, version, k - 1);
    }
  }

  /** The instruction referred to reaches over `end` bytes. */
  predicate Reaches(target: Option<Bytes>, end: nat) {
    target.Some? && end <= |target.value|
  }

  /** Packed structs resolve iff their target reaches over everything; none of their references does
      if it cannot hold the first signature. */
  lemma {:induction false} TableVerdict(tx: seq<Bytes>, d: Bytes, n: nat, len: nat, idx: nat, k: nat)
    requires k <= n && HasStructs(d, n, len, idx, k)
    ensures k > 0 ==> StructOff(k) <= |d|
    ensures BadUpTo(tx, d, k) == 0 <==> k == 0 || Reaches(Target(tx, d, idx), MsgOff(n) + len)
    ensures !Reaches(Target(tx, d, idx), DataStart(n) + 64) ==> BadUpTo(tx, d, k) == 3 * k
  {
    if k > 0 {
      TableVerdict(tx, d, n, len, idx, k - 1);
    }
  }

  /** Wherever it stands, a packed instruction passes iff its count byte is zero or the instruction
      its index names (itself for SELF) reaches over all the packed references; and if that
      instruction cannot even hold the first signature, every single reference is bad. */
  lemma PackedAudit(tx: seq<Bytes>, k: nat, ts: seq<Triple>, idx: int, slot: int, version: int)
    requires k < |tx| && Regions(tx[k], ts, idx, slot, version)
    ensures !Truncated(tx[k]) && tx[k] != [] && Count(tx[k]) == |ts| % 256
    ensures BadReferences(tx, k) == 0 <==> |ts| % 256 == 0 || Reaches(Target(tx, tx[k], idx), Extent(ts))
    ensures !Reaches(Target(tx, tx[k], idx), DataStart(|ts|) + 64) ==> BadReferences(tx, k) == 3 * (|ts| % 256)
    ensures Extent(ts) <= |tx[k]|
  {
    CountOfRegions(tx[k], ts, idx, slot, version);
    RegionsHaveStructs(tx[k], ts, idx, slot, version, |ts| % 256);
    TableVerdict(tx, tx[k], |ts|, |ts[0].message|, idx, |ts| % 256);
  }

  /** Packed for its own position, it passes there, whatever stands around it. */
  lemma PassesInPlace(tx: seq<Bytes>, ts: seq<Triple>, idx: int, slot: int, version: int)
    requires Packable(ts, idx, slot) && idx < |tx| && tx[idx] == Packed(ts, idx, slot, version)
    ensures !Truncated(tx[idx]) && BadReferences(tx, idx) == 0
  {
    PackedRegions(ts, idx, slot, version);
    CountOfRegions(tx[idx], Sorted1(ts), idx, slot, version);
    PackedAudit(tx, idx, Sorted1(ts), idx, slot, version);
  }

  /** Packed for SELF, it passes at every position. */
  lemma SelfPassesEverywhere(tx: seq<Bytes>, k: nat, ts: seq<Triple>, slot: int, version: int)
    requires Packable(ts, SELF, slot) && k < |tx| && tx[k] == Packed(ts, SELF, slot, version)
    ensures !Truncated(tx[k]) && BadReferences(tx, k) == 0
  {
    PackedRegions(ts, SELF, slot, version);
    PackedAudit(tx, k, Sorted1(ts), SELF, slot, version);
  }

  function Inserted(tx: seq<Bytes>, at: nat, extra: seq<Bytes>): seq<Bytes>
    requires at <= |tx|
  {
    tx[..at] + extra + tx[at..]
  }

  lemma InsertedShifts(tx: seq<Bytes>, at: nat, extra: seq<Bytes>, after: seq<Bytes>, k: nat)
    requires at <= k < |tx| && after == Inserted(tx, at, extra)
    ensures |after| == |tx| + |extra| && after[k + |extra|] == tx[k]
  {
  }

  /** Standing anywhere but at its own index, a packed instruction is at the mercy of the one there. */
  lemma AuditElsewhere(tx: seq<Bytes>, k: nat, ts: seq<Triple>, idx: int, slot: int, version: int)
    requires k < |tx| && Packable(ts, idx, slot) && tx[k] == Packed(ts, idx, slot, version)
    requires idx < |tx| && idx != SELF && |ts| % 256 != 0
    ensures !Truncated(tx[k])
    ensures BadReferences(tx, k) == 0 <==> Extent(Sorted1(ts)) <= |tx[idx]|
    ensures |tx[idx]| < 2 + 14 * |ts| + 64 ==> BadReferences(tx, k) == 3 * (|ts| % 256) > 0
  {
    PackedRegions(ts, idx, slot, version);
    PackedAudit(tx, k, Sorted1(ts), idx, slot, version);
  }

  /** Insert any instructions at or before it: the shifted instruction then passes iff the
      instruction that slid into its old place happens to reach over all its references, and with a
      shorter one there than the first signature needs, every reference is bad. */
  lemma ShiftedAudit(tx: seq<Bytes>, at: nat, extra: seq<Bytes>, after: seq<Bytes>, k: nat,
                     ts: seq<Triple>, idx: int, slot: int, version: int)
    requires Packable(ts, idx, slot) && idx < |tx| && tx[idx] == Packed(ts, idx, slot, version)
    requires at <= idx && extra != [] && idx != SELF && |ts| % 256 != 0
    requires after == Inserted(tx, at, extra) && k == idx + |extra|
    ensures k < |after| && after[k] == tx[idx] && !Truncated(after[k])
    ensures BadReferences(after, k) == 0 <==> Extent(Sorted1(ts)) <= |after[idx]|
    ensures |after[idx]| < 2 + 14 * |ts| + 64 ==> BadReferences(after, k) == 3 * (|ts| % 256) > 0
  {
    InsertedShifts(tx, at, extra, after, idx);
    AuditElsewhere(after, k, ts, idx, slot, version);
  }

  /** The audit can be deceived: with a copy of the instruction in its old place, the shifted one passes
      although it no longer refers to itself. */
  lemma CopyHidesTheShift(tx: seq<Bytes>, after: seq<Bytes>, ts: seq<Triple>, idx: int, slot: int, version: int)
    requires Packable(ts, idx, slot) && idx < |tx| && tx[idx] == Packed(ts, idx, slot, version)
    requires idx != SELF && |ts| % 256 != 0 && after == Inserted(tx, idx, [tx[idx]])
    ensures idx + 1 < |after| && after[idx + 1] == tx[idx] && !Truncated(after[idx + 1])
    ensures BadReferences(after, idx + 1) == 0
  {
    ShiftedAudit(tx, idx, [tx[idx]], after, idx + 1, ts, idx, slot, version);
    PackedRegions(ts, idx, slot, version);
    PackedAudit(tx, idx, Sorted1(ts), idx, slot, version);
  }
}
