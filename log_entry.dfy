/** The fixed-binary frame-trace record `LogEntry` under `#pragma pack(4)`,
    the `FrameLogMetadataBlock` trailer, and the byte images the host writes
    for them on a little-endian machine. */
module LogEntryRecord {
  import opened MachineInts
  import opened GteTrace
  import opened StructLayout

  type Words12 = s: seq<u32> | |s| == 12 witness [0, 0, 0, 0, 0, 0, 0, 0, 0, 0, 0, 0]
  type Shorts4 = s: seq<i16> | |s| == 4 witness [0, 0, 0, 0]
  type Bytes4 = s: seq<u8> | |s| == 4 witness [0, 0, 0, 0]

  /** One record per logged command: the header of the command, its first
      twelve words and a flattened view of the attached GTE snapshot. */
  datatype LogEntry = LogEntry(
    frame: u32,
    pc: u32,
    gp0Cmd: u32,
    primitiveType: u16,
    vertexCount: u16,
    packetWords: Words12,
    vx: Shorts4,
    vy: Shorts4,
    vz: Shorts4,
    sx: Shorts4,
    sy: Shorts4,
    rot: Matrix3,
    trX: i32,
    trY: i32,
    trZ: i32,
    ofX: i32,
    ofY: i32,
    h: i16,
    dqa: i16,
    dqb: i16,
    zsf3: i16,
    zsf4: i16,
    clut: u16,
    tpage: u16,
    u: Bytes4,
    v: Bytes4)

  const ZeroWords: Words12 := [0, 0, 0, 0, 0, 0, 0, 0, 0, 0, 0, 0]
  const ZeroShorts: Shorts4 := [0, 0, 0, 0]
  const ZeroBytes: Bytes4 := [0, 0, 0, 0]

  /** A value-initialised record: every member zero. */
  const ZeroEntry: LogEntry :=
    LogEntry(0, 0, 0, 0, 0, ZeroWords, ZeroShorts, ZeroShorts, ZeroShorts, ZeroShorts, ZeroShorts,
             [ZeroTriple, ZeroTriple, ZeroTriple], 0, 0, 0, 0, 0, 0, 0, 0, 0, 0, 0, 0, ZeroBytes, ZeroBytes)

  // ---------------------------------------------------------------------
  // Layout

  /** The members from `frame` to `rot`, arrays expanded element by element:
      frame, pc, gp0_cmd; primitive_type, vertex_count; packet_words[12];
      vx, vy, vz, sx, sy (4 each) and rot[3][3]. */
  const EntryHead: seq<Scalar> := Run(U32, 3) + Run(U16, 2) + Run(U32, 12) + Run(I16, 29)

  /** The members from `trx` to `v`: trx, try_, trz, ofx, ofy; h, dqa, dqb,
      zsf3, zsf4; clut, tpage; u[4], v[4]. */
  const EntryTail: seq<Scalar> := Run(I32, 5) + Run(I16, 5) + Run(U16, 2) + Run(U8, 8)

  /** All 66 scalar members of `LogEntry` in declaration order. */
  const EntryKinds: seq<Scalar> := EntryHead + EntryTail

  /** Appending a run of one kind at an offset that is the `m`-th multiple
      of that kind's alignment. */
  lemma {:induction false} GroupStep(prefix: seq<Scalar>, k: Scalar, n: nat, off: nat, m: nat)
    requires LayoutEnd(prefix, off, 4) == m * AlignOf(k, 4)
    ensures LayoutEnd(prefix + Run(k, n), off, 4) == m * AlignOf(k, 4) + n * SizeOf(k)
  {
    AlignedMultiple(AlignOf(k, 4), m);
    LayoutEndAppend(prefix, Run(k, n), off, 4);
    LayoutEndRun(k, n, m * AlignOf(k, 4), 4);
  }

  /** The members up to `rot` take bytes 0 to 122 with no gap. */
  lemma EntryHeadLayout()
    ensures LayoutEnd(EntryHead, 0, 4) == 122
  {
    var g1 := Run(U32, 3);
    var g2 := g1 + Run(U16, 2);
    var g3 := g2 + Run(U32, 12);
    AlignedMultiple(4, 0);
    LayoutEndRun(U32, 3, 0, 4);
    GroupStep(g1, U16, 2, 0, 6);
    GroupStep(g2, U32, 12, 0, 4);
    GroupStep(g3, I16, 29, 0, 32);
    assert EntryHead == g3 + Run(I16, 29);
  }

  /** Placed after byte 122, `trx` is 4-aligned at 124 and the members
      through `v` end at 166. */
  lemma EntryTailLayout()
    ensures EntryTail[0] == I32 && PadTo(122, AlignOf(I32, 4)) == 2
    ensures LayoutEnd(EntryTail, 122, 4) == 166
  {
    var g1 := Run(I32, 5);
    var g2 := g1 + Run(I16, 5);
    var g3 := g2 + Run(U16, 2);
    PadToShift(2, 4, 30);
    RunAfter(I32, 5, 122, 4);
    GroupStep(g1, I16, 5, 122, 72);
    GroupStep(g2, U16, 2, 122, 77);
    GroupStep(g3, U8, 8, 122, 158);
    assert EntryTail == g3 + Run(U8, 8);
  }

  /** Under pack(4) the record has 4 bytes of padding: 2
      bytes after `rot` (122 to 124, so that `trx` is 4-aligned) and 2
      trailing bytes after `v` (166 to 168, so that the size is a multiple
      of the record's alignment 4). */
  lemma EntryLayout()
    ensures |EntryHead| == 46 && |EntryTail| == 20 && |EntryKinds| == 66
    ensures LayoutEnd(EntryKinds, 0, 4) == 166
    ensures StructAlign(EntryKinds, 4) == 4
    ensures StructSize(EntryKinds, 4) == 168
  {
    EntryHeadLayout();
    EntryTailLayout();
    LayoutEndAppend(EntryHead, EntryTail, 0, 4);
    StructAlignBound(EntryKinds, 4);
    assert AlignOf(EntryKinds[0], 4) == 4;
  }

  /** Of the 168 bytes, 164 hold members. */
  lemma EntryFieldBytes()
    ensures FieldBytes(EntryKinds) == 164
  {
    var h1, h2, h3 := Run(U32, 3), Run(U32, 3) + Run(U16, 2), Run(U32, 3) + Run(U16, 2) + Run(U32, 12);
    FieldBytesRun(U32, 3);
    FieldBytesRun(U16, 2);
    FieldBytesRun(U32, 12);
    FieldBytesRun(I16, 29);
    FieldBytesAppend(h1, Run(U16, 2));
    FieldBytesAppend(h2, Run(U32, 12));
    FieldBytesAppend(h3, Run(I16, 29));
    var t1, t2, t3 := Run(I32, 5), Run(I32, 5) + Run(I16, 5), Run(I32, 5) + Run(I16, 5) + Run(U16, 2);
    FieldBytesRun(I32, 5);
    FieldBytesRun(I16, 5);
    FieldBytesRun(U16, 2);
    FieldBytesRun(U8, 8);
    FieldBytesAppend(t1, Run(I16, 5));
    FieldBytesAppend(t2, Run(U16, 2));
    FieldBytesAppend(t3, Run(U8, 8));
    FieldBytesAppend(EntryHead, EntryTail);
  }

  /** `LogEntrySizeBytes()`: `sizeof(LogEntry)`, padding included. */
  function LogEntrySizeBytes(): (r: nat)
    ensures r == 168
  {
    EntryLayout();
    StructSize(EntryKinds, 4)
  }

  // ---------------------------------------------------------------------
  // Byte image

  /** The values of the members from `frame` to `rot`, in layout order. */
  function HeadValues(e: LogEntry): (r: seq<int>)
    ensures |r| == 46
  {
    [e.frame, e.pc, e.gp0Cmd] + [e.primitiveType, e.vertexCount] + e.packetWords + ShortValues(e)
  }

  /** The 29 values of `vx`, `vy`, `vz`, `sx`, `sy` and `rot`. */
  function ShortValues(e: LogEntry): (r: seq<i16>)
    ensures |r| == 29
  {
    e.vx + e.vy + e.vz + e.sx + e.sy + e.rot[0] + e.rot[1] + e.rot[2]
  }

  /** The values of the members from `trx` to `v`, in layout order. */
  function TailValues(e: LogEntry): (r: seq<int>)
    ensures |r| == 20
  {
    [e.trX, e.trY, e.trZ, e.ofX, e.ofY, e.h, e.dqa, e.dqb, e.zsf3, e.zsf4, e.clut, e.tpage] + e.u + e.v
  }

  /** The 66 member values of a record, in layout order. */
  function Flatten(e: LogEntry): (r: seq<int>)
    ensures |r| == 66
  {
    HeadValues(e) + TailValues(e)
  }

  /** The head values, member by member, fit the kinds of `EntryHead`. */
  predicate HeadFits(hv: seq<int>) {
    |hv| == 46
    && (forall i :: 0 <= i < 3 ==> Fits(U32, hv[i]))
    && (forall i :: 5 <= i < 17 ==> Fits(U32, hv[i]))
    && (forall i :: 3 <= i < 5 ==> Fits(U16, hv[i]))
    && (forall i :: 17 <= i < 46 ==> Fits(I16, hv[i]))
  }

  /** The tail values, member by member, fit the kinds of `EntryTail`. */
  predicate TailFits(tv: seq<int>) {
    |tv| == 20
    && (forall i :: 0 <= i < 5 ==> Fits(I32, tv[i]))
    && (forall i :: 5 <= i < 10 ==> Fits(I16, tv[i]))
    && (forall i :: 10 <= i < 12 ==> Fits(U16, tv[i]))
    && (forall i :: 12 <= i < 20 ==> Fits(U8, tv[i]))
  }

  lemma {:induction false} HeadFitsIff(hv: seq<int>)
    ensures AllFit(EntryHead, hv) <==> HeadFits(hv)
  {
    assert forall i :: 0 <= i < 3 ==> EntryHead[i] == U32;
    assert forall i :: 5 <= i < 17 ==> EntryHead[i] == U32;
    assert forall i :: 3 <= i < 5 ==> EntryHead[i] == U16;
    assert forall i :: 17 <= i < 46 ==> EntryHead[i] == I16;
  }

  lemma {:induction false} TailFitsIff(tv: seq<int>)
    ensures AllFit(EntryTail, tv) <==> TailFits(tv)
  {
    assert forall i :: 0 <= i < 5 ==> EntryTail[i] == I32;
    assert forall i :: 5 <= i < 10 ==> EntryTail[i] == I16;
    assert forall i :: 10 <= i < 12 ==> EntryTail[i] == U16;
    assert forall i :: 12 <= i < 20 ==> EntryTail[i] == U8;
  }

  lemma {:induction false} HeadValuesFit(e: LogEntry)
    ensures HeadFits(HeadValues(e))
  {
    var hv, sv := HeadValues(e), ShortValues(e);
    assert hv == [e.frame, e.pc, e.gp0Cmd, e.primitiveType, e.vertexCount] + e.packetWords + sv;
    assert forall i :: 5 <= i < 17 ==> hv[i] == e.packetWords[i - 5];
    assert forall i :: 17 <= i < 46 ==> hv[i] == sv[i - 17];
  }

  lemma {:induction false} TailValuesFit(e: LogEntry)
    ensures TailFits(TailValues(e))
  {
    var tv := TailValues(e);
    assert forall i :: 12 <= i < 16 ==> tv[i] == e.u[i - 12];
    assert forall i :: 16 <= i < 20 ==> tv[i] == e.v[i - 16];
  }

  /** Every member value of a record fits its member. */
  lemma {:induction false} FlattenFits(e: LogEntry)
    ensures HeadFits(HeadValues(e)) && TailFits(TailValues(e))
    ensures AllFit(EntryHead, HeadValues(e)) && AllFit(EntryTail, TailValues(e))
    ensures AllFit(EntryKinds, Flatten(e))
  {
    HeadValuesFit(e);
    TailValuesFit(e);
    HeadFitsIff(HeadValues(e));
    TailFitsIff(TailValues(e));
    AllFitAppend(EntryHead, EntryTail, HeadValues(e), TailValues(e));
  }

  /** Rebuilds a record from the values of its head and tail members. */
  function Assemble(hv: seq<int>, tv: seq<int>): (e: LogEntry)
    requires HeadFits(hv) && TailFits(tv)
  {
    LogEntry(
      hv[0], hv[1], hv[2], hv[3], hv[4],
      hv[5..17],
      hv[17..21], hv[21..25], hv[25..29], hv[29..33], hv[33..37],
      [hv[37..40], hv[40..43], hv[43..46]],
      tv[0], tv[1], tv[2], tv[3], tv[4],
      tv[5], tv[6], tv[7], tv[8], tv[9],
      tv[10], tv[11],
      tv[12..16], tv[16..20])
  }

  /** Rebuilds a record from its 66 member values. */
  function Unflatten(vals: seq<int>): (e: LogEntry)
    requires AllFit(EntryKinds, vals)
  {
    AllFitSplit(EntryHead, EntryTail, vals);
    HeadFitsIff(vals[..46]);
    TailFitsIff(vals[46..]);
    Assemble(vals[..46], vals[46..])
  }

  lemma {:induction false} ShortParts(e: LogEntry)
    ensures ShortValues(e)[0..4] == e.vx && ShortValues(e)[4..8] == e.vy && ShortValues(e)[8..12] == e.vz
    ensures ShortValues(e)[12..16] == e.sx && ShortValues(e)[16..20] == e.sy
    ensures ShortValues(e)[20..23] == e.rot[0] && ShortValues(e)[23..26] == e.rot[1] && ShortValues(e)[26..29] == e.rot[2]
  {
  }

  /** Where each head member's values sit among the head values. */
  lemma {:induction false} HeadParts(e: LogEntry)
    ensures HeadValues(e)[0] == e.frame && HeadValues(e)[1] == e.pc && HeadValues(e)[2] == e.gp0Cmd
    ensures HeadValues(e)[3] == e.primitiveType && HeadValues(e)[4] == e.vertexCount
    ensures HeadValues(e)[5..17] == e.packetWords
    ensures HeadValues(e)[17..21] == e.vx && HeadValues(e)[21..25] == e.vy && HeadValues(e)[25..29] == e.vz
    ensures HeadValues(e)[29..33] == e.sx && HeadValues(e)[33..37] == e.sy
    ensures [HeadValues(e)[37..40], HeadValues(e)[40..43], HeadValues(e)[43..46]] == e.rot
  {
    ShortParts(e);
    var hv, sv := HeadValues(e), ShortValues(e);
    assert hv[17..46] == sv;
    assert hv[17..21] == sv[0..4] && hv[21..25] == sv[4..8] && hv[25..29] == sv[8..12];
    assert hv[29..33] == sv[12..16] && hv[33..37] == sv[16..20];
    assert hv[37..40] == sv[20..23] && hv[40..43] == sv[23..26] && hv[43..46] == sv[26..29];
    assert [e.rot[0], e.rot[1], e.rot[2]] == e.rot;
  }

  lemma {:induction false} TailParts(e: LogEntry)
    ensures TailValues(e)[12..16] == e.u && TailValues(e)[16..20] == e.v
  {
    var a: seq<int> := [e.trX, e.trY, e.trZ, e.ofX, e.ofY, e.h, e.dqa, e.dqb, e.zsf3, e.zsf4, e.clut, e.tpage];
    assert TailValues(e) == a + e.u + e.v;
  }

  lemma {:induction false} AssembleParts(e: LogEntry)
    ensures HeadFits(HeadValues(e)) && TailFits(TailValues(e))
    ensures Assemble(HeadValues(e), TailValues(e)) == e
  {
    FlattenFits(e);
    HeadParts(e);
    TailParts(e);
  }

  lemma {:induction false} UnflattenFlatten(e: LogEntry)
    ensures AllFit(EntryKinds, Flatten(e)) && Unflatten(Flatten(e)) == e
  {
    FlattenFits(e);
    assert Flatten(e)[..46] == HeadValues(e) && Flatten(e)[46..] == TailValues(e);
    AssembleParts(e);
  }

  /** The 168 bytes `output.write(&entry, sizeof(entry))` puts on disk for a
      value-initialised record whose members were then assigned. */
  function EncodeEntry(e: LogEntry): (r: seq<u8>)
    ensures |r| == 168
  {
    EntryLayout();
    Pack(EntryKinds, Flatten(e), 0, 4) + Zeros(2)
  }

  /** Reads a record back from its 168 bytes. */
  function DecodeEntry(bs: seq<u8>): (e: LogEntry)
    requires |bs| == 168
  {
    EntryLayout();
    Unflatten(Unpack(EntryKinds, bs[..166], 0, 4))
  }

  /** Reading a record back from its image gives the record. */
  lemma {:induction false} EntryRoundTrip(e: LogEntry)
    ensures DecodeEntry(EncodeEntry(e)) == e
  {
    FlattenFits(e);
    EntryLayout();
    var bs := EncodeEntry(e);
    assert bs[..166] == Pack(EntryKinds, Flatten(e), 0, 4);
    PackRoundTrip(EntryKinds, Flatten(e), 0, 4);
    UnflattenFlatten(e);
  }

  /** The image is the head members' bytes, then the tail members' bytes
      from offset 122, then the two trailing bytes. */
  lemma {:induction false} EncodeEntrySplit(e: LogEntry)
    ensures |Pack(EntryHead, HeadValues(e), 0, 4)| == 122
    ensures |Pack(EntryTail, TailValues(e), 122, 4)| == 44
    ensures EncodeEntry(e) == Pack(EntryHead, HeadValues(e), 0, 4) + Pack(EntryTail, TailValues(e), 122, 4) + Zeros(2)
  {
    EntryHeadLayout();
    EntryTailLayout();
    PackAppend(EntryHead, EntryTail, HeadValues(e), TailValues(e), 0, 4);
  }

  /** Where the two gaps sit in a 168-byte image made of a 122-byte head,
      a 44-byte tail opening with its gap, and 2 trailing bytes. */
  lemma {:induction false} GapsOfImage(head: seq<u8>, tail: seq<u8>, trailing: seq<u8>)
    requires |head| == 122 && |tail| == 44 && |trailing| == 2
    ensures (head + tail + trailing)[122..124] == tail[..2]
    ensures (head + tail + trailing)[166..168] == trailing
  {
  }

  /** Both padding gaps of the image are zero bytes, whatever the record. */
  lemma {:induction false} EntryPaddingIsZero(e: LogEntry)
    ensures EncodeEntry(e)[122..124] == [0, 0]
    ensures EncodeEntry(e)[166..168] == [0, 0]
  {
    EncodeEntrySplit(e);
    EntryTailLayout();
    PackFirstGap(EntryTail, TailValues(e), 122, 4);
    GapsOfImage(Pack(EntryHead, HeadValues(e), 0, 4), Pack(EntryTail, TailValues(e), 122, 4), Zeros(2));
  }

  // ---------------------------------------------------------------------
  // The trailer

  /** `FrameLogMetadataBlock`, with its member defaults: sizes 0, count 0,
      version 1. No packing pragma is in force where it is declared, so its
      members take their natural alignment, which for these kinds is the
      alignment under pack(8) (`NaturalIsPack8`). */
  datatype FrameLogMetadata = FrameLogMetadata(
    metadataSize: u64,
    logEntrySize: u64,
    entryCount: u64,
    metadataVersion: u64)

  const DefaultMetadata: FrameLogMetadata := FrameLogMetadata(0, 0, 0, 1)

  const MetadataKinds: seq<Scalar> := Run(U64, 4)

  /** The trailer is four 8-byte members with no padding. */
  lemma MetadataLayout()
    ensures LayoutEnd(MetadataKinds, 0, 8) == 32 && StructSize(MetadataKinds, 8) == 32
  {
    LayoutEndRun(U64, 4, 0, 8);
  }

  /** `sizeof(FrameLogMetadataBlock)`. */
  function MetadataSizeBytes(): (r: nat)
    ensures r == 32
  {
    MetadataLayout();
    StructSize(MetadataKinds, 8)
  }

  function MetadataValues(m: FrameLogMetadata): (r: seq<int>)
    ensures AllFit(MetadataKinds, r)
  {
    [m.metadataSize, m.logEntrySize, m.entryCount, m.metadataVersion]
  }

  /** The 32 bytes `output.write(&metadata, sizeof(metadata))` puts on disk. */
  function EncodeMetadata(m: FrameLogMetadata): (r: seq<u8>)
    ensures |r| == 32
  {
    MetadataLayout();
    Pack(MetadataKinds, MetadataValues(m), 0, 8)
  }

  function DecodeMetadata(bs: seq<u8>): (m: FrameLogMetadata)
    requires |bs| == 32
  {
    MetadataLayout();
    var vals := Unpack(MetadataKinds, bs, 0, 8);
    assert forall i :: 0 <= i < 4 ==> Fits(U64, vals[i]);
    FrameLogMetadata(vals[0], vals[1], vals[2], vals[3])
  }

  /** Reading the trailer back from its image gives the trailer. */
  lemma {:induction false} MetadataRoundTrip(m: FrameLogMetadata)
    ensures DecodeMetadata(EncodeMetadata(m)) == m
  {
    MetadataLayout();
    PackRoundTrip(MetadataKinds, MetadataValues(m), 0, 8);
  }
}
