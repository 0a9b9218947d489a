/** The decoder that follows the packed offsets, and its round trip with the packer. */
module Ed25519Decode {
  import opened Prelude
  import opened StableSort
  import opened Ed25519SelfPack

  datatype Offsets = Offsets(sigOff: nat, sigIx: nat, pkOff: nat, pkIx: nat, msgOff: nat, msgLen: nat, msgIx: nat)

  /** What the injected verifier says of (message, signature, pubkey); it may throw. */
  datatype Verdict = Accepts | Rejects | Throws
  type Verifier = (Bytes, Bytes, Bytes) -> Verdict

  datatype Slice = Slice(index: nat, struct: Offsets, signature: Bytes, pubkey: Bytes, message: Bytes, verified: bool)

  datatype Decoded = Decoded(numSignatures: Option<byte>, padding: Option<byte>, dataLen: nat,
                             slices: seq<Slice>, allVerified: bool)

  datatype DecodeError = RangeError

  function ReadU16(buf: Bytes, o: nat): nat
    requires o + 2 <= |buf|
  {
    var low: nat, high: nat := buf[o], buf[o + 1];
    low + 256 * high
  }

  function ReadStruct(buf: Bytes, b: nat): Offsets
    requires b + 14 <= |buf|
  {
    Offsets(ReadU16(buf, b), ReadU16(buf, b + 2), ReadU16(buf, b + 4), ReadU16(buf, b + 6),
            ReadU16(buf, b + 8), ReadU16(buf, b + 10), ReadU16(buf, b + 12))
  }

  /** Buffer.subarray: both ends are clamped to the buffer. */
  function Subarray(buf: Bytes, start: nat, end: nat): Bytes {
    var s := Min(start, |buf|);
    buf[s..Max(s, Min(end, |buf|))]
  }

  function ByteAt(buf: Bytes, i: nat): Option<byte> {
    if i < |buf| then Some(buf[i]) else None
  }

  /** The number of offset structs the header announces. */
  function Count(buf: Bytes): nat {
    if buf == [] then 0 else buf[0]
  }

  function SliceAt(buf: Bytes, verify: Verifier, i: nat): Slice
    requires StructOff(i) + 14 <= |buf|
  {
    var o := ReadStruct(buf, StructOff(i));
    var signature := Subarray(buf, o.sigOff, o.sigOff + SIG_LEN);
    var pubkey := Subarray(buf, o.pkOff, o.pkOff + PK_LEN);
    var message := Subarray(buf, o.msgOff, o.msgOff + o.msgLen);
    Slice(i, o, signature, pubkey, message, verify(message, signature, pubkey) == Accepts)
  }

  predicate AllVerified(slices: seq<Slice>) {
    slices != [] && forall i :: 0 <= i < |slices| ==> slices[i].verified
  }

  /** The announced table does not fit the buffer: reading it throws a RangeError. */
  predicate Truncated(buf: Bytes) {
    Count(buf) > 0 && StructOff(Count(buf)) > |buf|
  }

  /** What decodeAndVerifyEd25519 returns for a buffer; every field is determined. */
  predicate DecodesTo(buf: Bytes, verify: Verifier, d: Decoded) {
    && !Truncated(buf)
    && d.numSignatures == ByteAt(buf, 0) && d.padding == ByteAt(buf, 1) && d.dataLen == |buf|
    && |d.slices| == Count(buf) && d.allVerified == AllVerified(d.slices)
    && forall i :: 0 <= i < |d.slices| ==> d.slices[i] == SliceAt(buf, verify, i)
  }

  method Decode(data: Bytes, verify: Verifier) returns (r: Result<Decoded, DecodeError>)
    ensures r.Err? <==> Truncated(data)
    ensures r.Err? <==> |data| > 0 && data[0] > 0 && |data| - 2 < 14 * (data[0] as int)
    ensures r.Ok? ==> DecodesTo(data, verify, r.value)
  {
    var N := Count(data);
    var slices := [];
    for i := 0 to N
      invariant i > 0 ==> StructOff(i) <= |data|
      invariant |slices| == i
      invariant forall k :: 0 <= k < i ==> slices[k] == SliceAt(data, verify, k)
    {
      if StructOff(i) + 14 > |data| { return Err(RangeError); }
      slices := slices + [SliceAt(data, verify, i)];
    }
    var all := EverySliceVerified(slices);
    r := Ok(Decoded(ByteAt(data, 0), ByteAt(data, 1), |data|, slices, all));
  }

  method EverySliceVerified(slices: seq<Slice>) returns (all: bool)
    ensures all == AllVerified(slices)
  {
    for k := 0 to |slices|
      invariant forall j :: 0 <= j < k ==> slices[j].verified
    {
      if !slices[k].verified { return false; }
    }
    return |slices| > 0;
  }

  /** Reading back seven fields that were written one behind the other, each with its own value. */
  lemma FieldsReadBack(sigOff: nat, sigIx: nat, pkOff: nat, pkIx: nat, msgOff: nat, len: nat, msgIx: nat)
    requires sigOff <= U16_MAX && sigIx <= U16_MAX && pkOff <= U16_MAX && pkIx <= U16_MAX
    requires msgOff <= U16_MAX && len <= U16_MAX && msgIx <= U16_MAX
    ensures ReadStruct(U16(sigOff) + U16(sigIx) + U16(pkOff) + U16(pkIx) + U16(msgOff) + U16(len) + U16(msgIx), 0)
         == Offsets(sigOff, sigIx, pkOff, pkIx, msgOff, len, msgIx)
  {
  }

  /** A slice past the end of the data is cut off there, not refused. */
  lemma SubarrayMeans(buf: Bytes, start: nat, len: nat, k: nat)
    ensures |Subarray(buf, start, start + len)| == Max(0, Min(len, |buf| - start))
    ensures k < len && start + k < |buf| ==> Subarray(buf, start, start + len)[k] == buf[start + k]
  {
  }

  // ---- The regions tile the buffer ---------------------------------------------------------

  /** `bytes` stands at offset `off` of the buffer. */
  predicate At(buf: Bytes, off: nat, bytes: Bytes) {
    off + |bytes| <= |buf| && buf[off..off + |bytes|] == bytes
  }

  lemma AtLonger(buf: Bytes, off: nat, bytes: Bytes, more: Bytes)
    requires At(buf, off, bytes)
    ensures At(buf + more, off, bytes)
  {
    assert (buf + more)[off..off + |bytes|] == buf[off..off + |bytes|];
  }

  lemma AtPart(buf: Bytes, off: nat, bytes: Bytes, o: nat, part: Bytes)
    requires At(buf, off, bytes) && At(bytes, o, part)
    ensures At(buf, off + o, part)
  {
    var inside := buf[off..off + |bytes|];
    forall k | 0 <= k < |part| ensures buf[off + o + k] == part[k] {
      assert inside[o + k] == buf[off + o + k] && bytes[o..o + |part|][k] == bytes[o + k];
    }
  }

  lemma AtSubarray(buf: Bytes, off: nat, bytes: Bytes)
    requires At(buf, off, bytes)
    ensures Subarray(buf, off, off + |bytes|) == bytes
  {
  }

  /** Appending keeps everything in place. */
  lemma Append(buf: Bytes, bytes: Bytes)
    ensures At(buf + bytes, |buf|, bytes)
  {
  }

  lemma FrontRegions(h: Bytes, t: Bytes, b: Bytes, m: Bytes)
    ensures var buf := h + t + b + m;
      && At(buf, 0, h) && At(buf, |h|, t) && At(buf, |h + t|, b) && At(buf, |h + t + b|, m)
  {
    Append(h, t);
    AtLonger(h + t, |h|, t, b);
    Append(h + t, b);
    AtLonger(h + t + b, |h|, t, m);
    AtLonger(h + t + b, |h + t|, b, m);
    Append(h + t + b, m);
  }

  lemma TrailerRegions(front: Bytes, o: Bytes, s: Bytes, v: Bytes, tag: Bytes)
    ensures var buf := front + o + s + v + tag;
      && At(buf, 0, front) && At(buf, |front|, o) && At(buf, |front + o|, s)
      && At(buf, |front + o + s|, v) && At(buf, |front + o + s + v|, tag)
  {
    Append(front, o);
    AtLonger(front + o, |front|, o, s);
    Append(front + o, s);
    AtLonger(front + o + s, |front|, o, v);
    AtLonger(front + o + s, |front + o|, s, v);
    Append(front + o + s, v);
    AtLonger(front + o + s + v, |front|, o, tag);
    AtLonger(front + o + s + v, |front + o|, s, tag);
    AtLonger(front + o + s + v, |front + o + s|, v, tag);
    Append(front + o + s + v, tag);
  }

  /** Header, table, blobs, message and trailer stand one behind the other and fill the buffer. */
  predicate Regions(buf: Bytes, ts: seq<Triple>, idx: int, slot: int, version: int) {
    && ts != [] && WellSized(ts) && SharedMessage(ts) && Fits(|ts|, idx, |ts[0].message|) && slot >= 0
    && At(buf, 0, Header(|ts|))
    && At(buf, 2, Table(|ts|, |ts|, idx, |ts[0].message|))
    && At(buf, DataStart(|ts|), Blobs(ts))
    && At(buf, MsgOff(|ts|), ts[0].message)
    && TrailerAt(buf, MsgOff(|ts|) + |ts[0].message|, ts, slot, version)
  }

  predicate TrailerAt(buf: Bytes, at: nat, ts: seq<Triple>, slot: nat, version: int) {
    && At(buf, at, OracleBytes(ts))
    && At(buf, at + |ts|, LeBytes(slot, 8))
    && At(buf, at + |ts| + 8, [U8(version)])
    && At(buf, at + |ts| + 9, SBOD)
    && |buf| == at + |ts| + 13
  }

  lemma PackedRegions(ts: seq<Triple>, idx: int, slot: int, version: int)
    requires Packable(ts, idx, slot)
    ensures Regions(Packed(ts, idx, slot, version), Sorted1(ts), idx, slot, version)
  {
    LayoutRegions(Sorted1(ts), idx, slot, version);
  }

  lemma LayoutRegions(ts: seq<Triple>, idx: nat, slot: nat, version: int)
    requires ts != [] && WellSized(ts) && SharedMessage(ts) && Fits(|ts|, idx, |ts[0].message|)
    ensures Regions(Layout(ts, idx, slot, version), ts, idx, slot, version)
  {
    var buf := Layout(ts, idx, slot, version);
    LayoutFront(buf, ts, idx, slot, version);
    LayoutTrailer(buf, ts, idx, slot, version);
  }

  lemma LayoutFront(buf: Bytes, ts: seq<Triple>, idx: nat, slot: nat, version: int)
    requires ts != [] && WellSized(ts) && Fits(|ts|, idx, |ts[0].message|) && buf == Layout(ts, idx, slot, version)
    ensures At(buf, 0, Header(|ts|)) && At(buf, 2, Table(|ts|, |ts|, idx, |ts[0].message|))
    ensures At(buf, DataStart(|ts|), Blobs(ts)) && At(buf, MsgOff(|ts|), ts[0].message)
  {
    var n, m := |ts|, ts[0].message;
    var h, t, b := Header(n), Table(n, n, idx, |m|), Blobs(ts);
    TrailerRegions(h + t + b + m, OracleBytes(ts), LeBytes(slot, 8), [U8(version)], SBOD);
    FrontPlaces(buf, h, t, b, m, n);
  }

  lemma FrontPlaces(buf: Bytes, h: Bytes, t: Bytes, b: Bytes, m: Bytes, n: nat)
    requires At(buf, 0, h + t + b + m) && |h| == 2 && |t| == 14 * n && |b| == 96 * n
    ensures At(buf, 0, h) && At(buf, 2, t) && At(buf, DataStart(n), b) && At(buf, MsgOff(n), m)
  {
    FrontStays(buf, h, t, b, m);
  }

  lemma LayoutTrailer(buf: Bytes, ts: seq<Triple>, idx: nat, slot: nat, version: int)
    requires ts != [] && WellSized(ts) && Fits(|ts|, idx, |ts[0].message|) && buf == Layout(ts, idx, slot, version)
    ensures TrailerAt(buf, MsgOff(|ts|) + |ts[0].message|, ts, slot, version)
  {
    var n, m := |ts|, ts[0].message;
    var front := Header(n) + Table(n, n, idx, |m|) + Blobs(ts) + m;
    TrailerRegions(front, OracleBytes(ts), LeBytes(slot, 8), [U8(version)], SBOD);
  }

  lemma FrontStays(buf: Bytes, h: Bytes, t: Bytes, b: Bytes, m: Bytes)
    requires At(buf, 0, h + t + b + m)
    ensures At(buf, 0, h) && At(buf, |h|, t) && At(buf, |h + t|, b) && At(buf, |h + t + b|, m)
  {
    var front := h + t + b + m;
    FrontRegions(h, t, b, m);
    AtPart(buf, 0, front, 0, h);
    AtPart(buf, 0, front, |h|, t);
    AtPart(buf, 0, front, |h + t|, b);
    AtPart(buf, 0, front, |h + t + b|, m);
  }

  lemma {:induction false} TableAt(n: nat, k: nat, idx: nat, len: nat, i: nat)
    requires i < k <= n && Fits(n, idx, len)
    ensures At(Table(n, k, idx, len), 14 * i, OffsetStruct(n, i, idx, len))
    decreases k
  {
    if i < k - 1 {
      TableAt(n, k - 1, idx, len, i);
      AtLonger(Table(n, k - 1, idx, len), 14 * i, OffsetStruct(n, i, idx, len), OffsetStruct(n, k - 1, idx, len));
    } else {
      Append(Table(n, k - 1, idx, len), OffsetStruct(n, k - 1, idx, len));
    }
  }

  lemma {:induction false} BlobAt(ts: seq<Triple>, i: nat)
    requires WellSized(ts) && i < |ts|
    ensures At(Blobs(ts), 96 * i, ts[i].signature + ts[i].pubkey)
    decreases |ts|
  {
    var n := |ts| - 1;
    if i < n {
      BlobAt(ts[..n], i);
      AtLonger(Blobs(ts[..n]), 96 * i, ts[i].signature + ts[i].pubkey, ts[n].signature + ts[n].pubkey);
    } else {
      Append(Blobs(ts[..n]), ts[n].signature + ts[n].pubkey);
    }
  }

  lemma PairAt(buf: Bytes, off: nat, sig: Bytes, pk: Bytes)
    requires At(buf, off, sig + pk)
    ensures At(buf, off, sig) && At(buf, off + |sig|, pk)
  {
    Append(sig, pk);
    assert At(sig + pk, 0, sig);
    AtPart(buf, off, sig + pk, 0, sig);
    AtPart(buf, off, sig + pk, |sig|, pk);
  }

  lemma ReadAt(buf: Bytes, b: nat, f: Bytes, o: nat)
    requires At(buf, b, f) && o + 2 <= |f|
    ensures ReadU16(buf, b + o) == ReadU16(f, o)
  {
    assert buf[b + o] == buf[b..b + |f|][o] && buf[b + o + 1] == buf[b..b + |f|][o + 1];
  }

  lemma ReadFields(buf: Bytes, b: nat, sigOff: nat, pkOff: nat, msgOff: nat, len: nat, idx: nat)
    requires sigOff <= U16_MAX && pkOff <= U16_MAX && msgOff <= U16_MAX && len <= U16_MAX && idx <= U16_MAX
    requires At(buf, b, Fields(sigOff, pkOff, msgOff, len, idx))
    ensures ReadStruct(buf, b) == Offsets(sigOff, idx, pkOff, idx, msgOff, len, idx)
  {
    var f := Fields(sigOff, pkOff, msgOff, len, idx);
    ReadAt(buf, b, f, 0);
    ReadAt(buf, b, f, 2);
    ReadAt(buf, b, f, 4);
    ReadAt(buf, b, f, 6);
    ReadAt(buf, b, f, 8);
    ReadAt(buf, b, f, 10);
    ReadAt(buf, b, f, 12);
  }

  /** Struct `i` of the packed table says where triple `i` is. */
  lemma StructOfRegions(buf: Bytes, ts: seq<Triple>, idx: int, slot: int, version: int, i: nat)
    requires Regions(buf, ts, idx, slot, version) && i < |ts|
    ensures StructOff(i) + 14 <= |buf|
    ensures ReadStruct(buf, StructOff(i))
         == Offsets(SigOff(|ts|, i), idx, SigOff(|ts|, i) + 64, idx, MsgOff(|ts|), |ts[0].message|, idx)
  {
    var n, len := |ts|, |ts[0].message|;
    TableAt(n, n, idx, len, i);
    AtPart(buf, 2, Table(n, n, idx, len), 14 * i, OffsetStruct(n, i, idx, len));
    ReadFields(buf, StructOff(i), SigOff(n, i), SigOff(n, i) + 64, MsgOff(n), len, idx);
  }

  /** Following those offsets leads back to triple `i`. */
  lemma OffsetsLeadBack(buf: Bytes, ts: seq<Triple>, idx: int, slot: int, version: int, i: nat)
    requires Regions(buf, ts, idx, slot, version) && i < |ts|
    ensures Subarray(buf, SigOff(|ts|, i), SigOff(|ts|, i) + 64) == ts[i].signature
    ensures Subarray(buf, SigOff(|ts|, i) + 64, SigOff(|ts|, i) + 96) == ts[i].pubkey
    ensures Subarray(buf, MsgOff(|ts|), MsgOff(|ts|) + |ts[0].message|) == ts[0].message
  {
    BlobLeadsBack(buf, DataStart(|ts|), Blobs(ts), ts, i, SigOff(|ts|, i));
    AtSubarray(buf, MsgOff(|ts|), ts[0].message);
  }

  lemma BlobLeadsBack(buf: Bytes, start: nat, blobs: Bytes, ts: seq<Triple>, i: nat, off: nat)
    requires WellSized(ts) && i < |ts| && blobs == Blobs(ts) && At(buf, start, blobs) && off == start + 96 * i
    ensures Subarray(buf, off, off + 64) == ts[i].signature && Subarray(buf, off + 64, off + 96) == ts[i].pubkey
  {
    BlobAt(ts, i);
    PartLeadsBack(buf, start, blobs, 96 * i, ts[i].signature, ts[i].pubkey, off);
  }

  lemma PartLeadsBack(buf: Bytes, start: nat, blobs: Bytes, o: nat, sig: Bytes, pk: Bytes, off: nat)
    requires At(buf, start, blobs) && At(blobs, o, sig + pk) && |sig| == SIG_LEN && |pk| == PK_LEN && off == start + o
    ensures Subarray(buf, off, off + 64) == sig && Subarray(buf, off + 64, off + 96) == pk
  {
    AtPart(buf, start, blobs, o, sig + pk);
    PairLeadsBack(buf, off, sig, pk);
  }

  lemma PairLeadsBack(buf: Bytes, off: nat, sig: Bytes, pk: Bytes)
    requires At(buf, off, sig + pk) && |sig| == SIG_LEN && |pk| == PK_LEN
    ensures Subarray(buf, off, off + 64) == sig && Subarray(buf, off + 64, off + 96) == pk
  {
    PairAt(buf, off, sig, pk);
    AtSubarray(buf, off, sig);
    AtSubarray(buf, off + 64, pk);
  }

  // ---- The round trip --------------------------------------------------------------------------

  /** The slice a triple decodes to. */
  function SliceFor(ts: seq<Triple>, idx: nat, verify: Verifier, i: nat): Slice
    requires i < |ts|
  {
    var n, t := |ts|, ts[i];
    Slice(i, Offsets(SigOff(n, i), idx, SigOff(n, i) + 64, idx, MsgOff(n), |ts[0].message|, idx),
          t.signature, t.pubkey, t.message, verify(t.message, t.signature, t.pubkey) == Accepts)
  }

  lemma SliceOfRegions(buf: Bytes, ts: seq<Triple>, idx: int, slot: int, version: int, verify: Verifier, i: nat)
    requires Regions(buf, ts, idx, slot, version) && i < |ts|
    ensures StructOff(i) + 14 <= |buf| && SliceAt(buf, verify, i) == SliceFor(ts, idx, verify, i)
  {
    StructOfRegions(buf, ts, idx, slot, version, i);
    OffsetsLeadBack(buf, ts, idx, slot, version, i);
  }

  lemma CountOfRegions(buf: Bytes, ts: seq<Triple>, idx: int, slot: int, version: int)
    requires Regions(buf, ts, idx, slot, version)
    ensures Count(buf) == |ts| % 256 <= |ts| && ByteAt(buf, 0) == Some(|ts| % 256) && ByteAt(buf, 1) == Some(0)
    ensures !Truncated(buf) && |buf| == Total(|ts|, |ts[0].message|)
  {
    assert buf[0] == buf[0..2][0] && buf[1] == buf[0..2][1];
  }

  datatype Signed = Signed(signature: Bytes, pubkey: Bytes, message: Bytes)

  function SignedTriples(ts: seq<Triple>): seq<Signed> {
    seq(|ts|, i requires 0 <= i < |ts| => Signed(ts[i].signature, ts[i].pubkey, ts[i].message))
  }

  function SignedSlices(slices: seq<Slice>): seq<Signed> {
    seq(|slices|, i requires 0 <= i < |slices| => Signed(slices[i].signature, slices[i].pubkey, slices[i].message))
  }

  predicate Accepted(t: Triple, verify: Verifier) {
    verify(t.message, t.signature, t.pubkey) == Accepts
  }

  /** The decoded slices are those of the first |ts| % 256 triples, verified as the verifier says. */
  predicate CarriesBack(d: Decoded, ts: seq<Triple>, verify: Verifier) {
    && d.numSignatures == Some(|ts| % 256) && d.padding == Some(0)
    && SignedSlices(d.slices) == SignedTriples(ts)[..|ts| % 256]
    && (d.allVerified <==> |ts| % 256 != 0 && forall i :: 0 <= i < |ts| % 256 ==> Accepted(ts[i], verify))
  }

  lemma SlicesCarryTriples(slices: seq<Slice>, ts: seq<Triple>, idx: nat, verify: Verifier)
    requires |slices| == |ts| % 256
    requires forall i :: 0 <= i < |slices| ==> slices[i] == SliceFor(ts, idx, verify, i)
    ensures SignedSlices(slices) == SignedTriples(ts)[..|ts| % 256]
    ensures AllVerified(slices) <==> |ts| % 256 != 0 && forall i :: 0 <= i < |ts| % 256 ==> Accepted(ts[i], verify)
  {
    assert forall i :: 0 <= i < |slices| ==> slices[i].verified == Accepted(ts[i], verify);
  }

  lemma SlicesOfRegions(buf: Bytes, ts: seq<Triple>, idx: nat, slot: int, version: int, verify: Verifier, d: Decoded)
    requires Regions(buf, ts, idx, slot, version) && DecodesTo(buf, verify, d) && |d.slices| <= |ts|
    ensures forall i :: 0 <= i < |d.slices| ==> d.slices[i] == SliceFor(ts, idx, verify, i)
  {
    forall i | 0 <= i < |d.slices| ensures d.slices[i] == SliceFor(ts, idx, verify, i) {
      SliceOfRegions(buf, ts, idx, slot, version, verify, i);
    }
  }

  lemma RegionsCarryBack(buf: Bytes, ts: seq<Triple>, idx: int, slot: int, version: int, verify: Verifier, d: Decoded)
    requires Regions(buf, ts, idx, slot, version) && DecodesTo(buf, verify, d)
    ensures CarriesBack(d, ts, verify)
  {
    CountOfRegions(buf, ts, idx, slot, version);
    SlicesOfRegions(buf, ts, idx, slot, version, verify, d);
    SlicesCarryBack(d, ts, idx, verify);
  }

  lemma SlicesCarryBack(d: Decoded, ts: seq<Triple>, idx: nat, verify: Verifier)
    requires |d.slices| == |ts| % 256 && d.numSignatures == Some(|ts| % 256) && d.padding == Some(0)
    requires d.allVerified == AllVerified(d.slices)
    requires forall i :: 0 <= i < |d.slices| ==> d.slices[i] == SliceFor(ts, idx, verify, i)
    ensures CarriesBack(d, ts, verify)
  {
    SlicesCarryTriples(d.slices, ts, idx, verify);
  }

  /** Round trip: whatever is packed is decoded without a RangeError to the input triples, stably
      sorted by oracle index and cut off at the count modulo 256. */
  lemma RoundTrip(ts: seq<Triple>, idx: int, slot: int, version: int, verify: Verifier, d: Decoded)
    returns (order: seq<nat>)
    requires Packable(ts, idx, slot)
    requires DecodesTo(Packed(ts, idx, slot, version), verify, d)
    ensures CarriesBack(d, Sorted1(ts), verify)
    ensures InPackOrder(ts, order) && |d.slices| == |ts| % 256 <= |order|
    ensures forall i :: 0 <= i < |d.slices| ==>
      SliceIs(d.slices[i], ts[order[i]], verify)
  {
    PackedRegions(ts, idx, slot, version);
    RegionsCarryBack(Packed(ts, idx, slot, version), Sorted1(ts), idx, slot, version, verify, d);
    CarriedBackInOrder(Packed(ts, idx, slot, version), Sorted1(ts), idx, slot, version, verify, d);
    order := PackOrder(ts);
    forall i | 0 <= i < |d.slices| ensures SliceIs(d.slices[i], ts[order[i]], verify) {
      assert Sorted1(ts)[i] == ts[order[i]];
    }
  }

  /** The slice shows this triple, and whether the verifier accepts it. */
  predicate SliceIs(s: Slice, t: Triple, verify: Verifier) {
    && s.signature == t.signature && s.pubkey == t.pubkey && s.message == t.message
    && s.verified == (verify(t.message, t.signature, t.pubkey) == Accepts)
  }

  lemma CarriedBackInOrder(buf: Bytes, ts: seq<Triple>, idx: nat, slot: int, version: int, verify: Verifier, d: Decoded)
    requires Regions(buf, ts, idx, slot, version) && DecodesTo(buf, verify, d)
    ensures |d.slices| == |ts| % 256 <= |ts|
    ensures forall i :: 0 <= i < |d.slices| ==> SliceIs(d.slices[i], ts[i], verify)
  {
    CountOfRegions(buf, ts, idx, slot, version);
    SlicesOfRegions(buf, ts, idx, slot, version, verify, d);
  }

  lemma {:induction false} PackedIsNeverTruncated(ts: seq<Triple>, idx: int, slot: int, version: int)
    requires Packable(ts, idx, slot)
    ensures !Truncated(Packed(ts, idx, slot, version))
  {
    PackedRegions(ts, idx, slot, version);
    CountOfRegions(Packed(ts, idx, slot, version), Sorted1(ts), idx, slot, version);
  }

  /** The packer never checks the count: decoding gives all the triples back iff there are at most
      255 of them. */
  lemma CompleteIffCountFits(ts: seq<Triple>, idx: int, slot: int, version: int, verify: Verifier, d: Decoded)
    requires Packable(ts, idx, slot)
    requires DecodesTo(Packed(ts, idx, slot, version), verify, d)
    ensures (SignedSlices(d.slices) == SignedTriples(Sorted1(ts))) <==> |ts| <= 255
  {
    var _ := RoundTrip(ts, idx, slot, version, verify, d);
    PrefixIsWhole(d, Sorted1(ts), verify);
  }

  lemma PrefixIsWhole(d: Decoded, ts: seq<Triple>, verify: Verifier)
    requires CarriesBack(d, ts, verify)
    ensures (SignedSlices(d.slices) == SignedTriples(ts)) <==> |ts| <= 255
  {
    assert |SignedTriples(ts)[..|ts| % 256]| == |ts| % 256;
    if |ts| <= 255 {
      assert SignedTriples(ts)[..|ts|] == SignedTriples(ts);
    }
  }

  /** For at most 255 triples, `allVerified` holds iff the verifier accepts every input triple. */
  lemma AllVerifiedIffAllAccepted(ts: seq<Triple>, idx: int, slot: int, version: int, verify: Verifier, d: Decoded)
    requires Packable(ts, idx, slot) && |ts| <= 255
    requires DecodesTo(Packed(ts, idx, slot, version), verify, d)
    ensures d.allVerified <==> forall t :: t in ts ==> verify(t.message, t.signature, t.pubkey) == Accepts
  {
    var _ := RoundTrip(ts, idx, slot, version, verify, d);
    VerifiedInAnyOrder(d, ts, verify);
  }

  lemma VerifiedInAnyOrder(d: Decoded, ts: seq<Triple>, verify: Verifier)
    requires ts != [] && |ts| <= 255 && CarriesBack(d, Sorted1(ts), verify)
    ensures d.allVerified <==> forall t :: t in ts ==> Accepted(t, verify)
  {
    AcceptedInAnyOrder(ts, verify);
  }

  lemma AcceptedInAnyOrder(ts: seq<Triple>, verify: Verifier)
    ensures (forall i :: 0 <= i < |Sorted1(ts)| ==> Accepted(Sorted1(ts)[i], verify))
            <==> (forall t :: t in ts ==> Accepted(t, verify))
  {
    SortKeepsElements(ts);
    var sorted := Sorted1(ts);
    if forall i :: 0 <= i < |sorted| ==> Accepted(sorted[i], verify) {
      forall t | t in ts ensures Accepted(t, verify) {
        assert t in sorted;
      }
    } else {
      var i :| 0 <= i < |sorted| && !Accepted(sorted[i], verify);
      assert sorted[i] in sorted;
    }
  }

  lemma SortKeepsElements(ts: seq<Triple>)
    ensures forall t :: t in ts <==> t in Sorted1(ts)
  {
    SortIsStable(ts, OracleKey);
    forall t ensures t in ts <==> t in Sorted1(ts) {
      assert t in ts <==> t in multiset(ts);
      assert t in Sorted1(ts) <==> t in multiset(Sorted1(ts));
    }
  }

  /** The other side of the count: up to 595 triples are packed without complaint, although past 255
      they can never come back. */
  lemma SilentTruncation(n: nat) returns (ts: seq<Triple>)
    requires 256 <= n <= 595
    ensures |ts| == n && Packable(ts, 1, 0)
  {
    var t := Triple(0, seq(64, _ => 0), seq(32, _ => 0), []);
    ts := seq(n, _ => t);
    SortedStaysWellSized(ts);
    SortKeepsElements(ts);
    var sorted := Sorted1(ts);
    forall i | 0 <= i < |sorted| ensures sorted[i] == t {
      assert sorted[i] in sorted;
    }
  }

  // ---- Every byte of the payload ------------------------------------------------------------------

  /** A little-endian 16-bit number. */
  ghost predicate Word(buf: Bytes, off: nat, v: int) {
    off + 2 <= |buf| && var low: int, high: int := buf[off], buf[off + 1]; low + 256 * high == v
  }

  /** Offset struct i of n, for a message of `len` bytes. */
  ghost predicate StructBytes(buf: Bytes, n: nat, len: nat, idx: int, i: nat) {
    && Word(buf, 2 + 14 * i, 2 + 14 * n + 96 * i)
    && Word(buf, 4 + 14 * i, idx)
    && Word(buf, 6 + 14 * i, 66 + 14 * n + 96 * i)
    && Word(buf, 8 + 14 * i, idx)
    && Word(buf, 10 + 14 * i, 2 + 110 * n)
    && Word(buf, 12 + 14 * i, len)
    && Word(buf, 14 + 14 * i, idx)
  }

  /** Header, offset structs, keys and message of the payload, in literal offsets. */
  ghost predicate FrontBytes(buf: Bytes, ts: seq<Triple>, order: seq<nat>, idx: int)
    requires ts != [] && InPackOrder(ts, order)
  {
    var n, len := |ts|, |ts[0].message|;
    && At(buf, 0, [n % 256, 0])
    && (forall i :: 0 <= i < n ==> StructBytes(buf, n, len, idx, i))
    && (forall i :: 0 <= i < n ==> At(buf, 2 + 14 * n + 96 * i, ts[order[i]].signature))
    && (forall i :: 0 <= i < n ==> At(buf, 66 + 14 * n + 96 * i, ts[order[i]].pubkey))
    && At(buf, 2 + 110 * n, ts[0].message)
  }

  /** And the trailer the quote program reads: oracle indexes, slot, version, "SBOD". */
  ghost predicate TrailerBytes(buf: Bytes, ts: seq<Triple>, order: seq<nat>, slot: nat, version: int)
    requires ts != [] && InPackOrder(ts, order)
  {
    var n := |ts|;
    var at := 2 + 110 * n + |ts[0].message|;
    && |buf| == at + n + 13
    && (forall i :: 0 <= i < n ==> buf[at + i] == ts[order[i]].oracleIdx % 256)
    && (forall j :: 0 <= j < 8 ==> buf[at + n + j] == slot / Power256(j) % 256)
    && buf[at + n + 8] == version % 256
    && buf[at + n + 9..] == ['S' as int, 'B' as int, 'O' as int, 'D' as int]
  }

  lemma WordsOfStruct(buf: Bytes, n: nat, len: nat, idx: nat, i: nat)
    requires i < n && StructOff(i) + 14 <= |buf|
    requires ReadStruct(buf, StructOff(i)) == Offsets(SigOff(n, i), idx, SigOff(n, i) + 64, idx, MsgOff(n), len, idx)
    ensures StructBytes(buf, n, len, idx, i)
  {
  }

  lemma StructsOfRegions(buf: Bytes, ts: seq<Triple>, idx: int, slot: int, version: int)
    requires Regions(buf, ts, idx, slot, version)
    ensures forall i :: 0 <= i < |ts| ==> StructBytes(buf, |ts|, |ts[0].message|, idx, i)
  {
    forall i | 0 <= i < |ts| ensures StructBytes(buf, |ts|, |ts[0].message|, idx, i) {
      StructOfRegions(buf, ts, idx, slot, version, i);
      WordsOfStruct(buf, |ts|, |ts[0].message|, idx, i);
    }
  }

  lemma PartPairAt(buf: Bytes, start: nat, blobs: Bytes, o: nat, sig: Bytes, pk: Bytes, sigOff: nat, pkOff: nat)
    requires At(buf, start, blobs) && At(blobs, o, sig + pk) && |sig| == SIG_LEN
    requires sigOff == start + o && pkOff == sigOff + 64
    ensures At(buf, sigOff, sig) && At(buf, pkOff, pk)
  {
    AtPart(buf, start, blobs, o, sig + pk);
    PairAt(buf, sigOff, sig, pk);
  }

  ghost predicate KeysStand(buf: Bytes, ts: seq<Triple>, i: nat)
    requires i < |ts|
  {
    At(buf, 2 + 14 * |ts| + 96 * i, ts[i].signature) && At(buf, 66 + 14 * |ts| + 96 * i, ts[i].pubkey)
  }

  lemma KeysOfRegions(buf: Bytes, ts: seq<Triple>, idx: int, slot: int, version: int)
    requires Regions(buf, ts, idx, slot, version)
    ensures forall i :: 0 <= i < |ts| ==> KeysStand(buf, ts, i)
  {
    forall i | 0 <= i < |ts| ensures KeysStand(buf, ts, i) {
      BlobAt(ts, i);
      var sigOff := 2 + 14 * |ts| + 96 * i;
      PartPairAt(buf, DataStart(|ts|), Blobs(ts), 96 * i, ts[i].signature, ts[i].pubkey, sigOff, sigOff + 64);
    }
  }

  lemma FrontOfRegions(buf: Bytes, ts: seq<Triple>, sorted: seq<Triple>, order: seq<nat>, idx: int, slot: int, version: int)
    requires Regions(buf, sorted, idx, slot, version) && Arranged(ts, sorted, order)
    ensures FrontBytes(buf, ts, order, idx)
  {
    StructsOfRegions(buf, sorted, idx, slot, version);
    KeysOfRegions(buf, sorted, idx, slot, version);
    HeaderOfRegions(buf, sorted, idx, slot, version);
    FrontInOrder(buf, ts, sorted, order, idx);
  }

  lemma HeaderOfRegions(buf: Bytes, ts: seq<Triple>, idx: int, slot: int, version: int)
    requires Regions(buf, ts, idx, slot, version)
    ensures At(buf, 0, [|ts| % 256, 0]) && At(buf, 2 + 110 * |ts|, ts[0].message)
  {
  }

  lemma FrontInOrder(buf: Bytes, ts: seq<Triple>, sorted: seq<Triple>, order: seq<nat>, idx: int)
    requires Arranged(ts, sorted, order)
    requires At(buf, 0, [|ts| % 256, 0]) && At(buf, 2 + 110 * |ts|, sorted[0].message)
    requires forall i :: 0 <= i < |ts| ==> KeysStand(buf, sorted, i)
    requires forall i :: 0 <= i < |ts| ==> StructBytes(buf, |ts|, |sorted[0].message|, idx, i)
    ensures FrontBytes(buf, ts, order, idx)
  {
    forall i | 0 <= i < |ts|
      ensures At(buf, 2 + 14 * |ts| + 96 * i, ts[order[i]].signature) && At(buf, 66 + 14 * |ts| + 96 * i, ts[order[i]].pubkey)
    {
      assert KeysStand(buf, sorted, i) && sorted[i] == ts[order[i]];
    }
  }

  /** The input in packed order. */
  ghost predicate Arranged(ts: seq<Triple>, sorted: seq<Triple>, order: seq<nat>) {
    && ts != [] && |ts| == |sorted| && InPackOrder(ts, order) && ts[0].message == sorted[0].message
    && forall k :: 0 <= k < |ts| ==> sorted[k] == ts[order[k]]
  }

  lemma AtIndex(buf: Bytes, off: nat, bytes: Bytes, k: nat)
    requires At(buf, off, bytes) && k < |bytes|
    ensures buf[off + k] == bytes[k]
  {
    assert buf[off..off + |bytes|][k] == bytes[k];
  }

  lemma TrailerOfRegions(buf: Bytes, ts: seq<Triple>, sorted: seq<Triple>, order: seq<nat>, slot: int, version: int)
    requires Arranged(ts, sorted, order) && slot >= 0
    requires TrailerAt(buf, MsgOff(|ts|) + |ts[0].message|, sorted, slot, version)
    ensures TrailerBytes(buf, ts, order, slot, version)
  {
    var n := |ts|;
    var at := MsgOff(n) + |ts[0].message|;
    forall i | 0 <= i < n ensures buf[at + i] == ts[order[i]].oracleIdx % 256 {
      AtIndex(buf, at, OracleBytes(sorted), i);
    }
    forall j: nat | j < 8 ensures buf[at + n + j] == slot / Power256(j) % 256 {
      AtIndex(buf, at + n, LeBytes(slot, 8), j);
      LeDigit(slot, 8, j);
    }
    AtIndex(buf, at + n + 8, [U8(version)], 0);
  }

  lemma SharedWithInput(ts: seq<Triple>)
    requires ts != [] && SharedMessage(Sorted1(ts))
    ensures forall t :: t in ts ==> t.message == Sorted1(ts)[0].message
  {
    SortKeepsElements(ts);
    forall t | t in ts ensures t.message == Sorted1(ts)[0].message {
      var i :| 0 <= i < |Sorted1(ts)| && Sorted1(ts)[i] == t;
    }
  }

  lemma PackedParts(ts: seq<Triple>, idx: int, slot: int, version: int)
    returns (buf: Bytes, sorted: seq<Triple>, order: seq<nat>)
    requires Packable(ts, idx, slot)
    ensures buf == Packed(ts, idx, slot, version) && 0 <= slot <= U64_MAX
    ensures Regions(buf, sorted, idx, slot, version) && Arranged(ts, sorted, order)
  {
    buf, sorted := Packed(ts, idx, slot, version), Sorted1(ts);
    order := PackOrder(ts);
    PackedRegions(ts, idx, slot, version);
    SharedWithInput(ts);
    assert ts[0] in ts;
  }

  /** Every byte of an accepted payload: where it stands and what it says of which triple. */
  lemma PayloadBytes(ts: seq<Triple>, idx: int, slot: int, version: int) returns (buf: Bytes, order: seq<nat>)
    requires Packable(ts, idx, slot)
    ensures buf == Packed(ts, idx, slot, version) && InPackOrder(ts, order)
    ensures FrontBytes(buf, ts, order, idx) && TrailerBytes(buf, ts, order, slot, version)
  {
    var sorted;
    buf, sorted, order := PackedParts(ts, idx, slot, version);
    BytesOfRegions(buf, ts, sorted, order, idx, slot, version);
  }

  lemma BytesOfRegions(buf: Bytes, ts: seq<Triple>, sorted: seq<Triple>, order: seq<nat>, idx: int, slot: nat, version: int)
    requires Regions(buf, sorted, idx, slot, version) && Arranged(ts, sorted, order)
    ensures FrontBytes(buf, ts, order, idx) && TrailerBytes(buf, ts, order, slot, version)
  {
    FrontOfRegions(buf, ts, sorted, order, idx, slot, version);
    TrailerOfRegions(buf, ts, sorted, order, slot, version);
  }

  /** Following the offsets of struct i leads to the triple whose oracle index is byte i of the trailer. */
  ghost predicate TrailerMatches(buf: Bytes, ts: seq<Triple>, order: seq<nat>, i: nat)
    requires ts != [] && InPackOrder(ts, order) && i < |ts|
  {
    && StructOff(i) + 14 <= |buf| && 2 + 110 * |ts| + |ts[0].message| + i < |buf|
    && var o := ReadStruct(buf, StructOff(i));
    && Subarray(buf, o.sigOff, o.sigOff + 64) == ts[order[i]].signature
    && buf[2 + 110 * |ts| + |ts[0].message| + i] == ts[order[i]].oracleIdx % 256
  }

  lemma MatchesAt(buf: Bytes, ts: seq<Triple>, sorted: seq<Triple>, order: seq<nat>, idx: int, slot: nat, version: int, i: nat)
    requires Regions(buf, sorted, idx, slot, version) && Arranged(ts, sorted, order) && i < |ts|
    requires TrailerBytes(buf, ts, order, slot, version)
    ensures TrailerMatches(buf, ts, order, i)
  {
    StructOfRegions(buf, sorted, idx, slot, version, i);
    OffsetsLeadBack(buf, sorted, idx, slot, version, i);
  }

  /** The trailer in terms of the rest: oracle byte i is that of the triple whose signature struct i leads
      to, and the slot reads back. */
  lemma TrailerReadsBack(ts: seq<Triple>, idx: int, slot: int, version: int) returns (buf: Bytes, order: seq<nat>)
    requires Packable(ts, idx, slot)
    ensures buf == Packed(ts, idx, slot, version) && InPackOrder(ts, order) && |ts| > 0
    ensures forall i :: 0 <= i < |ts| ==> TrailerMatches(buf, ts, order, i)
    ensures var at := 2 + 110 * |ts| + |ts[0].message| + |ts|; at + 8 <= |buf| && LeValue(buf[at..at + 8]) == slot
  {
    var sorted;
    buf, sorted, order := PackedParts(ts, idx, slot, version);
    RegionsMatch(buf, ts, sorted, order, idx, slot, version);
  }

  lemma RegionsMatch(buf: Bytes, ts: seq<Triple>, sorted: seq<Triple>, order: seq<nat>, idx: int, slot: nat, version: int)
    requires Regions(buf, sorted, idx, slot, version) && Arranged(ts, sorted, order) && slot <= U64_MAX
    ensures forall i :: 0 <= i < |ts| ==> TrailerMatches(buf, ts, order, i)
    ensures var at := 2 + 110 * |ts| + |ts[0].message| + |ts|; at + 8 <= |buf| && LeValue(buf[at..at + 8]) == slot
  {
    SlotReadsBack(buf, MsgOff(|ts|) + |ts[0].message|, sorted, slot, version);
    TrailerOfRegions(buf, ts, sorted, order, slot, version);
    forall i | 0 <= i < |ts| ensures TrailerMatches(buf, ts, order, i) {
      MatchesAt(buf, ts, sorted, order, idx, slot, version, i);
    }
  }

  lemma SlotReadsBack(buf: Bytes, at: nat, ts: seq<Triple>, slot: nat, version: int)
    requires slot <= U64_MAX && TrailerAt(buf, at, ts, slot, version)
    ensures at + |ts| + 8 <= |buf| && LeValue(buf[at + |ts|..at + |ts| + 8]) == slot
  {
    LeRoundTrip(slot, 8);
  }
}
