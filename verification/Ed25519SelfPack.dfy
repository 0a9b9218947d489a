/** The packer and the decoder of the N-signature Ed25519 precompile instruction. */
module Ed25519SelfPack {
  import opened Arith
  import opened Prelude
  import opened StableSort

  type byte = b: int | 0 <= b < 256
  type Bytes = seq<byte>

  const SIG_LEN := 64
  const PK_LEN := 32
  const U16_MAX := 65535
  const U64_MAX := 0xffff_ffff_ffff_ffff
  const SBOD: Bytes := [83, 66, 79, 68]

  datatype Triple = Triple(oracleIdx: int, signature: Bytes, pubkey: Bytes, message: Bytes)

  datatype PackError = EmptyTriples | NegativeIndex | BadSignatureLength | BadPubkeyLength
                     | MessagesDiffer | OutOfRange

  function OracleKey(t: Triple): Key {
    Key(t.oracleIdx, 0)
  }

  function Sorted1(triples: seq<Triple>): seq<Triple> {
    Sort(triples, OracleKey)
  }

  /** The packed order: ascending oracle index, equal ones in the order in which they were given. */
  ghost predicate InPackOrder(ts: seq<Triple>, order: seq<nat>) {
    && |order| == |ts|
    && (forall k :: 0 <= k < |order| ==> order[k] < |ts|)
    && (forall j, k :: 0 <= j < k < |order| ==>
          || ts[order[j]].oracleIdx < ts[order[k]].oracleIdx
          || (ts[order[j]].oracleIdx == ts[order[k]].oracleIdx && order[j] < order[k]))
  }

  /** The sort brings the triples into that order. */
  lemma PackOrder(ts: seq<Triple>) returns (order: seq<nat>)
    ensures InPackOrder(ts, order) && forall k :: 0 <= k < |ts| ==> Sorted1(ts)[k] == ts[order[k]]
  {
    order := SortPlaces(ts, OracleKey);
    forall j, k | 0 <= j < k < |order|
      ensures ts[order[j]].oracleIdx < ts[order[k]].oracleIdx
           || (ts[order[j]].oracleIdx == ts[order[k]].oracleIdx && order[j] < order[k])
    {
      assert Before(ts, OracleKey, order[j], order[k]);
    }
  }

  function Pick(ts: seq<Triple>, order: seq<nat>): seq<Triple>
    requires forall k :: 0 <= k < |order| ==> order[k] < |ts|
  {
    seq(|order|, k requires 0 <= k < |order| => ts[order[k]])
  }

  // ---- Byte encodings --------------------------------------------------------------

  function U8(v: int): byte {
    v % 256
  }

  function U16(v: nat): Bytes
    requires v <= U16_MAX
  {
    [v % 256, v / 256]
  }

  function LeBytes(v: nat, n: nat): (r: Bytes)
    ensures |r| == n
  {
    if n == 0 then [] else [v % 256] + LeBytes(v / 256, n - 1)
  }

  function LeValue(bytes: Bytes): nat {
    if bytes == [] then 0 else bytes[0] + 256 * LeValue(bytes[1..])
  }

  function Power256(n: nat): (r: nat)
    ensures r > 0
  {
    if n == 0 then 1 else 256 * Power256(n - 1)
  }

  lemma {:induction false} LeRoundTrip(v: nat, n: nat)
    requires v < Power256(n)
    ensures LeValue(LeBytes(v, n)) == v
  {
    if n > 0 {
      LeRoundTrip(v / 256, n - 1);
      assert LeBytes(v, n)[1..] == LeBytes(v / 256, n - 1);
    }
  }

  /** Byte j of the encoding is digit j to the base 256. */
  lemma {:induction false} LeDigit(v: nat, n: nat, j: nat)
    requires j < n
    ensures LeBytes(v, n)[j] == v / Power256(j) % 256
  {
    if j > 0 {
      LeDigit(v / 256, n - 1, j - 1);
      DivTwice(v, 256, Power256(j - 1));
    }
  }

  // ---- The layout -------------------------------------------------------------------

  // Two header bytes, n offset structs of 14 bytes, n blobs of 96, the message, the trailer.

  function StructOff(i: nat): nat { 2 + 14 * i }

  function DataStart(n: nat): nat { 2 + 14 * n }

  function SigOff(n: nat, i: nat): nat { DataStart(n) + 96 * i }

  function MsgOff(n: nat): nat { DataStart(n) + 96 * n }

  function Total(n: nat, len: nat): nat { MsgOff(n) + len + n + 8 + 1 + 4 }

  /** The offset table can express this geometry: every u16 field fits. */
  predicate Fits(n: nat, idx: int, len: nat) {
    0 <= idx <= U16_MAX && MsgOff(n) <= U16_MAX && len <= U16_MAX
  }

  function Fields(sigOff: nat, pkOff: nat, msgOff: nat, len: nat, idx: nat): (r: Bytes)
    requires sigOff <= U16_MAX && pkOff <= U16_MAX && msgOff <= U16_MAX && len <= U16_MAX && idx <= U16_MAX
    ensures |r| == 14
  {
    U16(sigOff) + U16(idx) + U16(pkOff) + U16(idx) + U16(msgOff) + U16(len) + U16(idx)
  }

  function OffsetStruct(n: nat, i: nat, idx: nat, len: nat): (r: Bytes)
    requires i < n && Fits(n, idx, len)
    ensures |r| == 14
  {
    Fields(SigOff(n, i), SigOff(n, i) + SIG_LEN, MsgOff(n), len, idx)
  }

  function Table(n: nat, k: nat, idx: nat, len: nat): (r: Bytes)
    requires k <= n && Fits(n, idx, len)
    ensures |r| == 14 * k
  {
    if k == 0 then [] else Table(n, k - 1, idx, len) + OffsetStruct(n, k - 1, idx, len)
  }

  predicate WellSized(ts: seq<Triple>) {
    forall i :: 0 <= i < |ts| ==> |ts[i].signature| == SIG_LEN && |ts[i].pubkey| == PK_LEN
  }

  function Blobs(ts: seq<Triple>): (r: Bytes)
    requires WellSized(ts)
    ensures |r| == 96 * |ts|
  {
    if ts == [] then []
    else Blobs(ts[..|ts| - 1]) + (ts[|ts| - 1].signature + ts[|ts| - 1].pubkey)
  }

  function OracleBytes(ts: seq<Triple>): Bytes {
    seq(|ts|, i requires 0 <= i < |ts| => U8(ts[i].oracleIdx))
  }

  function Header(n: nat): Bytes {
    [U8(n), 0]
  }

  /** Header, table, blobs, shared message and trailer, one after the other. */
  function Layout(ts: seq<Triple>, idx: nat, slot: nat, version: int): (r: Bytes)
    requires ts != [] && WellSized(ts) && Fits(|ts|, idx, |ts[0].message|)
    ensures |r| == Total(|ts|, |ts[0].message|)
  {
    Header(|ts|) + Table(|ts|, |ts|, idx, |ts[0].message|) + Blobs(ts) + ts[0].message
    + OracleBytes(ts) + LeBytes(slot, 8) + [U8(version)] + SBOD
  }

  // ---- What is refused ------------------------------------------------------------------

  function LengthError(ts: seq<Triple>): Option<PackError> {
    if ts == [] then None
    else if |ts[0].signature| != SIG_LEN then Some(BadSignatureLength)
    else if |ts[0].pubkey| != PK_LEN then Some(BadPubkeyLength)
    else LengthError(ts[1..])
  }

  lemma {:induction false} LengthErrorMeans(ts: seq<Triple>)
    ensures LengthError(ts).None? <==> WellSized(ts)
  {
    if ts != [] {
      LengthErrorMeans(ts[1..]);
      assert ts == [ts[0]] + ts[1..];
    }
  }

  predicate SharedMessage(ts: seq<Triple>) {
    forall i :: 0 <= i < |ts| ==> ts[i].message == ts[0].message
  }

  /** The first complaint the packer has about its arguments, if any. */
  function Refusal(ts: seq<Triple>, idx: int, slot: int): Option<PackError> {
    if ts == [] then Some(EmptyTriples)
    else if idx < 0 then Some(NegativeIndex)
    else if LengthError(ts).Some? then LengthError(ts)
    else if !SharedMessage(Sorted1(ts)) then Some(MessagesDiffer)
    else if !Fits(|ts|, idx, |Sorted1(ts)[0].message|) || !(0 <= slot <= U64_MAX) then Some(OutOfRange)
    else None
  }

  lemma SortedStaysWellSized(ts: seq<Triple>)
    requires WellSized(ts)
    ensures WellSized(Sorted1(ts))
  {
    SortIsStable(ts, OracleKey);
    forall i | 0 <= i < |ts| ensures |Sorted1(ts)[i].signature| == SIG_LEN && |Sorted1(ts)[i].pubkey| == PK_LEN {
      assert Sorted1(ts)[i] in multiset(Sorted1(ts));
      assert Sorted1(ts)[i] in multiset(ts);
      assert Sorted1(ts)[i] in ts;
    }
  }

  // ---- Writing into the buffer ----------------------------------------------------------------
  //
  // Every write lands right behind what is already written: `w` is that prefix of the buffer,
  // so each byte is written exactly once, from the first to the last.

  ghost predicate Holds(data: array<byte>, w: Bytes)
    reads data
  {
    |w| <= data.Length && data[..|w|] == w
  }

  /** Copy bytes to a position: everything before it stays, and they follow it. */
  method Put(data: array<byte>, off: nat, bytes: Bytes, ghost w: Bytes)
    requires Holds(data, w) && off == |w| && off + |bytes| <= data.Length
    modifies data
    ensures Holds(data, w + bytes)
    ensures data[off + |bytes|..] == old(data[off + |bytes|..])
  {
    forall k | 0 <= k < |bytes| {
      data[off + k] := bytes[k];
    }
    assert data[..off + |bytes|] == w + bytes;
  }

  /** Buffer.writeUInt16LE behind `w + part`; false stands for its RangeError. */
  method WriteUInt16LE(data: array<byte>, v: int, off: nat, ghost w: Bytes, ghost part: Bytes) returns (ok: bool)
    requires Holds(data, w + part) && off == |w| + |part| && off + 2 <= data.Length
    modifies data
    ensures ok == (0 <= v <= U16_MAX)
    ensures ok ==> Holds(data, w + (part + U16(v)))
  {
    if !(0 <= v <= U16_MAX) { return false; }
    Put(data, off, U16(v), w + part);
    assert w + part + U16(v) == w + (part + U16(v));
    ok := true;
  }

  /** An offset and the field behind it. */
  method WritePair(data: array<byte>, u: int, v: int, off: nat, ghost w: Bytes, ghost part: Bytes) returns (ok: bool)
    requires Holds(data, w + part) && off == |w| + |part| && off + 4 <= data.Length
    modifies data
    ensures ok == (0 <= u <= U16_MAX && 0 <= v <= U16_MAX)
    ensures ok ==> Holds(data, w + (part + U16(u) + U16(v)))
  {
    ok := WriteUInt16LE(data, u, off, w, part);
    if !ok { return; }
    ok := WriteUInt16LE(data, v, off + 2, w, part + U16(u));
  }

  method WriteOffsetStruct(data: array<byte>, base: nat, sigOff: nat, pkOff: nat, msgOff: nat, len: nat, idx: nat, ghost w: Bytes)
    returns (ok: bool)
    requires Holds(data, w) && |w| == base && base + 14 <= data.Length
    modifies data
    ensures ok == (sigOff <= U16_MAX && pkOff <= U16_MAX && msgOff <= U16_MAX && len <= U16_MAX && idx <= U16_MAX)
    ensures ok ==> Holds(data, w + Fields(sigOff, pkOff, msgOff, len, idx))
  {
    assert w + [] == w;
    ok := WritePair(data, sigOff, idx, base, w, []);
    if !ok { return; }
    ghost var part := U16(sigOff) + U16(idx);
    assert [] + U16(sigOff) + U16(idx) == part;
    ok := WritePair(data, pkOff, idx, base + 4, w, part);
    if !ok { return; }
    part := part + U16(pkOff) + U16(idx);
    ok := WritePair(data, msgOff, len, base + 8, w, part);
    if !ok { return; }
    part := part + U16(msgOff) + U16(len);
    ok := WriteUInt16LE(data, idx, base + 12, w, part);
  }

  lemma TableStep(n: nat, i: nat, idx: nat, len: nat)
    requires i < n && Fits(n, idx, len)
    ensures Header(n) + Table(n, i, idx, len) + OffsetStruct(n, i, idx, len) == Header(n) + Table(n, i + 1, idx, len)
  {
  }

  /** Offset struct i of the table. */
  method WriteStructOf(data: array<byte>, n: nat, i: nat, idx: nat, len: nat, ghost w: Bytes) returns (ok: bool)
    requires i < n && data.Length == Total(n, len) && Holds(data, w) && |w| == StructOff(i)
    modifies data
    ensures ok == Fits(n, idx, len)
    ensures ok ==> Holds(data, w + OffsetStruct(n, i, idx, len))
  {
    var sigOff := DataStart(n) + i * 96;
    ok := WriteOffsetStruct(data, StructOff(i), sigOff, sigOff + SIG_LEN, MsgOff(n), len, idx, w);
  }

  method WriteTable(data: array<byte>, n: nat, idx: nat, len: nat) returns (ok: bool)
    requires n > 0 && data.Length == Total(n, len) && Holds(data, Header(n))
    modifies data
    ensures ok == Fits(n, idx, len)
    ensures ok ==> Holds(data, Header(n) + Table(n, n, idx, len))
  {
    ghost var w := Header(n);
    assert w + [] == w;
    for i := 0 to n
      invariant i > 0 ==> Fits(n, idx, len)
      invariant Holds(data, w) && |w| == StructOff(i)
      invariant Fits(n, idx, len) ==> w == Header(n) + Table(n, i, idx, len)
    {
      ok := WriteStructOf(data, n, i, idx, len, w);
      if !ok { return; }
      TableStep(n, i, idx, len);
      w := w + OffsetStruct(n, i, idx, len);
    }
    ok := true;
  }

  method WriteBlobs(data: array<byte>, triples: seq<Triple>, len: nat, ghost w: Bytes)
    requires WellSized(triples) && data.Length == Total(|triples|, len)
    requires Holds(data, w) && |w| == DataStart(|triples|)
    modifies data
    ensures Holds(data, w + Blobs(triples))
  {
    var n := |triples|;
    assert w + Blobs(triples[..0]) == w;
    for i := 0 to n
      invariant Holds(data, w + Blobs(triples[..i]))
    {
      var sigOff := DataStart(n) + i * 96;
      ghost var v, t := w + Blobs(triples[..i]), triples[i];
      Put(data, sigOff, triples[i].signature, v);
      Put(data, sigOff + SIG_LEN, triples[i].pubkey, v + t.signature);
      assert triples[..i + 1][..i] == triples[..i];
      assert v + t.signature + t.pubkey == w + Blobs(triples[..i + 1]);
    }
    assert triples[..n] == triples;
  }

  method WriteOracles(data: array<byte>, triples: seq<Triple>, at: nat, ghost w: Bytes)
    requires Holds(data, w) && at == |w| && at + |triples| <= data.Length
    modifies data
    ensures Holds(data, w + OracleBytes(triples))
  {
    ghost var all := OracleBytes(triples);
    assert w + all[..0] == w;
    for i := 0 to |triples|
      invariant Holds(data, w + all[..i])
    {
      Put(data, at + i, [U8(triples[i].oracleIdx)], w + all[..i]);
      assert w + all[..i] + [all[i]] == w + all[..i + 1];
    }
    assert all[..|triples|] == all;
  }

  /** The writes of packEd25519Ix, in their order; false stands for a RangeError. */
  method WritePayload(data: array<byte>, triples: seq<Triple>, idx: nat, slot: int, version: int) returns (ok: bool)
    requires triples != [] && WellSized(triples)
    requires data.Length == Total(|triples|, |triples[0].message|)
    modifies data
    ensures ok == (Fits(|triples|, idx, |triples[0].message|) && 0 <= slot <= U64_MAX)
    ensures ok ==> data[..] == Layout(triples, idx, slot, version)
  {
    var N := |triples|;
    var message := triples[0].message;
    var L := |message|;
    Put(data, 0, Header(N), []);
    assert [] + Header(N) == Header(N);
    ok := WriteTable(data, N, idx, L);
    if !ok { return; }
    ghost var w := Header(N) + Table(N, N, idx, L);
    WriteBlobs(data, triples, L, w);
    w := w + Blobs(triples);
    Put(data, MsgOff(N), message, w);
    w := w + message;
    var at := MsgOff(N) + L;
    WriteOracles(data, triples, at, w);
    w := w + OracleBytes(triples);
    ok := 0 <= slot <= U64_MAX;
    if !ok { return; }
    Put(data, at + N, LeBytes(slot, 8), w);
    Put(data, at + N + 8, [U8(version)], w + LeBytes(slot, 8));
    Put(data, at + N + 9, SBOD, w + LeBytes(slot, 8) + [U8(version)]);
    assert data[..] == data[..data.Length];
  }

  /** packEd25519Ix: what it refuses, and the exact bytes of what it packs. */
  method Pack(triplesIn: seq<Triple>, instructionIdx: int, recentSlot: int, version: int)
    returns (r: Result<Bytes, PackError>, ghost order: seq<nat>)
    ensures r.Err? <==> Refusal(triplesIn, instructionIdx, recentSlot).Some?
    ensures r.Err? ==> Refusal(triplesIn, instructionIdx, recentSlot) == Some(r.error)
    ensures r.Ok? ==> Packable(triplesIn, instructionIdx, recentSlot)
    ensures r.Ok? ==> r.value == Packed(triplesIn, instructionIdx, recentSlot, version)
    // The triples are laid out by ascending oracle index, equal ones as they were given.
    ensures InPackOrder(triplesIn, order)
    ensures r.Ok? ==>
      var inOrder := Pick(triplesIn, order);
      && inOrder != [] && WellSized(inOrder) && Fits(|inOrder|, instructionIdx, |inOrder[0].message|) && recentSlot >= 0
      && r.value == Layout(inOrder, instructionIdx, recentSlot, version)
  {
    order := PackOrder(triplesIn);
    assert Sorted1(triplesIn) == Pick(triplesIn, order);
    PackableMeans(triplesIn, instructionIdx, recentSlot);
    if |triplesIn| == 0 { return Err(EmptyTriples), order; }
    if instructionIdx < 0 { return Err(NegativeIndex), order; }
    LengthErrorMeans(triplesIn);
    var bad := LengthError(triplesIn);
    if bad.Some? { return Err(bad.value), order; }
    SortedStaysWellSized(triplesIn);
    var triples := Sorted1(triplesIn);
    var N := |triples|;
    var message := triples[0].message;
    var L := |message|;
    for k := 0 to N
      invariant forall j :: 0 <= j < k ==> triples[j].message == message
    {
      if triples[k].message != message { return Err(MessagesDiffer), order; }
    }
    var data := new byte[Total(N, L)](_ => 0);
    var ok := WritePayload(data, triples, instructionIdx, recentSlot, version);
    if !ok { return Err(OutOfRange), order; }
    r := Ok(data[..]);
  }

  /** The arguments the packer accepts. */
  predicate Packable(ts: seq<Triple>, idx: int, slot: int) {
    && ts != [] && WellSized(ts) && WellSized(Sorted1(ts)) && SharedMessage(Sorted1(ts))
    && Fits(|ts|, idx, |Sorted1(ts)[0].message|) && 0 <= slot <= U64_MAX
  }

  function Packed(ts: seq<Triple>, idx: int, slot: int, version: int): Bytes
    requires Packable(ts, idx, slot)
  {
    Layout(Sorted1(ts), idx, slot, version)
  }

  lemma PackableMeans(ts: seq<Triple>, idx: int, slot: int)
    ensures Packable(ts, idx, slot) <==> Refusal(ts, idx, slot).None?
  {
    LengthErrorMeans(ts);
    if WellSized(ts) {
      SortedStaysWellSized(ts);
    }
  }

  // ---- The refusals, spelled out ----------------------------------------------------------------

  /** The first triple whose signature or key has the wrong length. */
  ghost predicate FirstBad(ts: seq<Triple>, i: nat) {
    && i < |ts| && (|ts[i].signature| != 64 || |ts[i].pubkey| != 32)
    && forall j :: 0 <= j < i ==> |ts[j].signature| == 64 && |ts[j].pubkey| == 32
  }

  lemma {:induction false} LengthErrorIsFirst(ts: seq<Triple>) returns (i: nat)
    ensures LengthError(ts).None? <==> forall t :: t in ts ==> |t.signature| == 64 && |t.pubkey| == 32
    ensures LengthError(ts).Some? ==> FirstBad(ts, i)
    ensures LengthError(ts) == Some(BadSignatureLength) <==> LengthError(ts).Some? && |ts[i].signature| != 64
    ensures LengthError(ts) == Some(BadPubkeyLength) <==> LengthError(ts).Some? && |ts[i].signature| == 64
    decreases |ts|
  {
    i := 0;
    if ts != [] && |ts[0].signature| == SIG_LEN && |ts[0].pubkey| == PK_LEN {
      var j := LengthErrorIsFirst(ts[1..]);
      assert ts == [ts[0]] + ts[1..];
      i := j + 1;
    } else if ts != [] {
      assert ts[0] in ts;
    }
  }

  lemma SortedShares(ts: seq<Triple>)
    requires ts != []
    ensures SharedMessage(Sorted1(ts)) <==> forall t, u :: t in ts && u in ts ==> t.message == u.message
    ensures SharedMessage(Sorted1(ts)) ==> Sorted1(ts)[0].message == ts[0].message
  {
    SortIsStable(ts, OracleKey);
    var sorted := Sorted1(ts);
    forall t ensures t in ts <==> t in sorted {
      assert t in ts <==> t in multiset(ts);
      assert t in sorted <==> t in multiset(sorted);
    }
    assert sorted[0] in sorted && ts[0] in ts;
    if SharedMessage(sorted) {
      forall t | t in sorted ensures t.message == sorted[0].message {
        var i :| 0 <= i < |sorted| && sorted[i] == t;
      }
    }
  }

  /** Every number fits the field it goes into. */
  predicate NumbersFit(ts: seq<Triple>, idx: int, slot: int)
    requires ts != []
  {
    idx <= 65535 && 2 + 110 * |ts| <= 65535 && |ts[0].message| <= 65535 && 0 <= slot < 0x1_0000_0000_0000_0000
  }

  /** Which refusal, exactly: nothing given; a negative index; the first triple of a wrong length, its
      signature before its key; two messages that differ; a number that does not fit its field. */
  lemma RefusalMeans(ts: seq<Triple>, idx: int, slot: int) returns (i: nat)
    ensures var r := Refusal(ts, idx, slot);
      var sized := forall t :: t in ts ==> |t.signature| == 64 && |t.pubkey| == 32;
      var shared := forall t, u :: t in ts && u in ts ==> t.message == u.message;
      && (r == Some(EmptyTriples) <==> ts == [])
      && (r == Some(NegativeIndex) <==> ts != [] && idx < 0)
      && (r == Some(BadSignatureLength) <==> ts != [] && idx >= 0 && FirstBad(ts, i) && |ts[i].signature| != 64)
      && (r == Some(BadPubkeyLength) <==> ts != [] && idx >= 0 && FirstBad(ts, i) && |ts[i].signature| == 64)
      && (r == Some(MessagesDiffer) <==> ts != [] && idx >= 0 && sized && !shared)
      && (r == Some(OutOfRange) <==> ts != [] && idx >= 0 && sized && shared && !NumbersFit(ts, idx, slot))
  {
    i := LengthErrorIsFirst(ts);
    if ts != [] {
      SortedShares(ts);
      if FirstBad(ts, i) {
        assert ts[i] in ts;
      }
    }
  }
}
