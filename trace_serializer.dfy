/** The fixed-binary frame trace: the projection of a logged command onto
    a `LogEntry` record, and the file `saveFrameLog` writes, one record per
    command in log order followed by the metadata trailer. */
module TraceSerializer {
  import opened Wrappers
  import opened MachineInts
  import opened GteTrace
  import opened GpuCommands
  import opened LogEntryRecord

  // ---------------------------------------------------------------------
  // One record

  /** The first twelve words, zero-filled past the end of `words`. */
  function PacketWords(words: seq<u32>): (r: Words12)
    ensures forall i :: 0 <= i < 12 ==> r[i] == (if i < |words| then words[i] else 0)
  {
    seq(12, i requires 0 <= i < 12 => if i < |words| then words[i] else 0)
  }

  /** Component `k` of the three rows of `m`, then a fourth element 0. */
  function Column(m: Matrix3, k: nat): (r: Shorts4)
    requires k < 3
    ensures forall i :: 0 <= i < 3 ==> r[i] == m[i][k]
    ensures r[3] == 0
  {
    [m[0][k], m[1][k], m[2][k], 0]
  }

  /** Component `k` of the three screen coordinates, then a fourth element 0. */
  function ScreenColumn(s: ScreenCoords, k: nat): (r: Shorts4)
    requires k < 2
    ensures forall i :: 0 <= i < 3 ==> r[i] == s[i][k]
    ensures r[3] == 0
  {
    [s[0][k], s[1][k], s[2][k], 0]
  }

  /** `(gp0_cmd >> 24) & 0xff`: the command byte of the first word. */
  function PrimitiveType(cmd: u32): (r: u16)
    ensures r < 0x100 && r == cmd / 0x100_0000
  {
    cmd / 0x100_0000 % 0x100
  }

  /** The GTE members of a record, every one of them zero. */
  predicate GteFieldsZero(e: LogEntry) {
    && e.vx == ZeroShorts && e.vy == ZeroShorts && e.vz == ZeroShorts
    && e.sx == ZeroShorts && e.sy == ZeroShorts
    && e.rot == [ZeroTriple, ZeroTriple, ZeroTriple]
    && e.trX == 0 && e.trY == 0 && e.trZ == 0 && e.ofX == 0 && e.ofY == 0
    && e.h == 0 && e.dqa == 0 && e.dqb == 0 && e.zsf3 == 0 && e.zsf4 == 0
  }

  /** A zeroed record with the command's header and its first twelve words. */
  function HeaderOf(n: Logged): (e: LogEntry)
  {
    var cmd := if n.words == [] then 0 else n.words[0];
    LogEntry(ToU32(n.frame), n.pc, cmd, PrimitiveType(cmd), ToU16(|n.words|), PacketWords(n.words),
             ZeroShorts, ZeroShorts, ZeroShorts, ZeroShorts, ZeroShorts, [ZeroTriple, ZeroTriple, ZeroTriple],
             0, 0, 0, 0, 0, 0, 0, 0, 0, 0, 0, 0, ZeroBytes, ZeroBytes)
  }

  /** `e` with the GTE members taken from the state `g`: the input vertices,
      rotation, translation and projection parameters and the output
      screen coordinates. */
  function WithSnapshot(e: LogEntry, g: GteState): (r: LogEntry)
  {
    e.(vx := Column(g.input.vertices, 0), vy := Column(g.input.vertices, 1),
       vz := Column(g.input.vertices, 2),
       sx := ScreenColumn(g.output.screenCoords, 0), sy := ScreenColumn(g.output.screenCoords, 1),
       rot := g.input.rotationMatrix,
       trX := g.input.translation[0], trY := g.input.translation[1], trZ := g.input.translation[2],
       ofX := g.input.offsetX, ofY := g.input.offsetY, h := g.input.projectionPlaneDistance,
       dqa := g.input.depthQueueA, dqb := ToI16(g.input.depthQueueB),
       zsf3 := g.input.depthScaleFactor3, zsf4 := g.input.depthScaleFactor4)
  }

  /** `buildLogEntry(logged)`: the header, and the GTE members when a state is attached. */
  function LogEntryOf(n: Logged): (e: LogEntry)
    ensures e.frame == ToU32(n.frame) && e.pc == n.pc
  {
    match n.gteState
    case None => HeaderOf(n)
    case Some(g) => WithSnapshot(HeaderOf(n), g)
  }

  /** The header members of a record: frame and pc copied, the first word
      or 0, its command byte, the word count, the first min(12, n) words
      with the rest zero, and texture members that are never assigned. */
  lemma {:induction false} LogEntryHeader(n: Logged)
    ensures LogEntryOf(n).frame == ToU32(n.frame) && LogEntryOf(n).pc == n.pc
    ensures LogEntryOf(n).gp0Cmd == (if n.words == [] then 0 else n.words[0])
    ensures LogEntryOf(n).primitiveType < 0x100 && LogEntryOf(n).primitiveType == LogEntryOf(n).gp0Cmd / 0x100_0000
    ensures LogEntryOf(n).vertexCount == ToU16(|n.words|)
    ensures forall i :: 0 <= i < 12 ==> LogEntryOf(n).packetWords[i] == (if i < |n.words| then n.words[i] else 0)
    ensures LogEntryOf(n).clut == 0 && LogEntryOf(n).tpage == 0
    ensures LogEntryOf(n).u == ZeroBytes && LogEntryOf(n).v == ZeroBytes
  {
    var e := LogEntryOf(n);
    assert e.packetWords == PacketWords(n.words);
  }

  /** The GTE members of a record: all zero without a state; otherwise the
      three input vertices and output screen coordinates, the rotation,
      translation and projection parameters, `depthQueueB` cut to 16 bits.
      The fourth vertex and screen slots stay zero either way. */
  lemma {:induction false} LogEntrySnapshot(n: Logged)
    ensures var e := LogEntryOf(n);
      e.vx[3] == 0 && e.vy[3] == 0 && e.vz[3] == 0 && e.sx[3] == 0 && e.sy[3] == 0
    ensures n.gteState.None? ==> GteFieldsZero(LogEntryOf(n))
    ensures n.gteState.Some? ==>
      var e := LogEntryOf(n);
      var input := n.gteState.value.input;
      var output := n.gteState.value.output;
      && (forall i :: 0 <= i < 3 ==> e.vx[i] == input.vertices[i][0] && e.vy[i] == input.vertices[i][1]
                                      && e.vz[i] == input.vertices[i][2])
      && (forall i :: 0 <= i < 3 ==> e.sx[i] == output.screenCoords[i][0] && e.sy[i] == output.screenCoords[i][1])
      && e.rot == input.rotationMatrix
      && e.trX == input.translation[0] && e.trY == input.translation[1] && e.trZ == input.translation[2]
      && e.ofX == input.offsetX && e.ofY == input.offsetY && e.h == input.projectionPlaneDistance
      && e.dqa == input.depthQueueA && e.dqb == ToI16(input.depthQueueB)
      && e.zsf3 == input.depthScaleFactor3 && e.zsf4 == input.depthScaleFactor4
  {
  }

  /** With at most 1024 words, as the logger keeps them, the word count is stored exactly. */
  lemma {:induction false} VertexCountExact(n: Logged)
    requires |n.words| <= 1024
    ensures LogEntryOf(n).vertexCount == |n.words|
  {
    LogEntryHeader(n);
  }

  /** `buildLogEntry` as the source writes it: a zeroed record filled in by
      assignments and bounded copy loops. */
  method BuildLogEntry(n: Logged) returns (entry: LogEntry)
    ensures entry == LogEntryOf(n)
  {
    var cmd := if n.words == [] then 0 else n.words[0];
    var words := CopyPacketWords(n.words);
    entry := ZeroEntry.(frame := ToU32(n.frame), pc := n.pc, gp0Cmd := cmd, primitiveType := PrimitiveType(cmd),
                        vertexCount := ToU16(|n.words|), packetWords := words);
    if n.gteState.Some? {
      entry := CopySnapshot(entry, n.gteState.value);
    }
  }

  /** The loop over the first `min(12, n)` packet words. */
  method CopyPacketWords(ws: seq<u32>) returns (words: Words12)
    ensures words == PacketWords(ws)
  {
    var packetCount := if |ws| < 12 then |ws| else 12;
    words := ZeroWords;
    for i := 0 to packetCount
      invariant forall k :: 0 <= k < 12 ==> words[k] == (if k < i then ws[k] else 0)
    {
      words := words[i := ws[i]];
    }
  }

  /** The GTE part of `buildLogEntry`: the vertex and screen loops, the
      rotation copy and the scalar members. */
  method CopySnapshot(e: LogEntry, g: GteState) returns (entry: LogEntry)
    ensures entry == WithSnapshot(e, g)
  {
    var vx, vy, vz := CopyVertices(g.input.vertices);
    var sx, sy := CopyScreen(g.output.screenCoords);
    var rot := RotationCopy(g.input.rotationMatrix);
    entry := e.(vx := vx, vy := vy, vz := vz, sx := sx, sy := sy, rot := rot,
                trX := g.input.translation[0], trY := g.input.translation[1], trZ := g.input.translation[2],
                ofX := g.input.offsetX, ofY := g.input.offsetY, h := g.input.projectionPlaneDistance,
                dqa := g.input.depthQueueA, dqb := ToI16(g.input.depthQueueB),
                zsf3 := g.input.depthScaleFactor3, zsf4 := g.input.depthScaleFactor4);
  }

  /** The loop over the three input vertices. */
  method CopyVertices(m: Matrix3) returns (vx: Shorts4, vy: Shorts4, vz: Shorts4)
    ensures vx == Column(m, 0) && vy == Column(m, 1) && vz == Column(m, 2)
  {
    vx, vy, vz := ZeroShorts, ZeroShorts, ZeroShorts;
    for i := 0 to 3
      invariant forall k :: 0 <= k < 4 ==> vx[k] == (if k < i then m[k][0] else 0)
      invariant forall k :: 0 <= k < 4 ==> vy[k] == (if k < i then m[k][1] else 0)
      invariant forall k :: 0 <= k < 4 ==> vz[k] == (if k < i then m[k][2] else 0)
    {
      vx := vx[i := m[i][0]];
      vy := vy[i := m[i][1]];
      vz := vz[i := m[i][2]];
    }
  }

  /** The loop over the three output screen coordinates. */
  method CopyScreen(s: ScreenCoords) returns (sx: Shorts4, sy: Shorts4)
    ensures sx == ScreenColumn(s, 0) && sy == ScreenColumn(s, 1)
  {
    sx, sy := ZeroShorts, ZeroShorts;
    for i := 0 to 3
      invariant forall k :: 0 <= k < 4 ==> sx[k] == (if k < i then s[k][0] else 0)
      invariant forall k :: 0 <= k < 4 ==> sy[k] == (if k < i then s[k][1] else 0)
    {
      sx := sx[i := s[i][0]];
      sy := sy[i := s[i][1]];
    }
  }

  /** The nested loop that copies `rot[y][x]` element by element. */
  method RotationCopy(m: Matrix3) returns (rot: Matrix3)
    ensures rot == m
  {
    rot := [ZeroTriple, ZeroTriple, ZeroTriple];
    for y := 0 to 3
      invariant forall r :: 0 <= r < 3 ==> rot[r] == (if r < y then m[r] else ZeroTriple)
    {
      var row := ZeroTriple;
      for x := 0 to 3
        invariant forall c :: 0 <= c < 3 ==> row[c] == (if c < x then m[y][c] else 0)
      {
        row := row[x := m[y][x]];
      }
      assert row == m[y];
      rot := rot[y := row];
    }
    assert rot == m;
  }

  // ---------------------------------------------------------------------
  // The frame file

  /** The trailer written after `count` records: the two structure sizes
      (`TrailerSizes`), the record count cut to 64 bits and version 1. */
  function Trailer(count: nat): (t: FrameLogMetadata)
    ensures t.metadataSize == 32 && t.logEntrySize == 168 && t.metadataVersion == 1
    ensures count < 0x1_0000_0000_0000_0000 ==> t.entryCount == count
  {
    FrameLogMetadata(32, 168, ToU64(count), 1)
  }

  /** The sizes the trailer declares are `sizeof(FrameLogMetadataBlock)`
      and `sizeof(LogEntry)`, and its version is the member default. */
  lemma {:induction false} TrailerSizes(count: nat)
    ensures Trailer(count).metadataSize == MetadataSizeBytes()
    ensures Trailer(count).logEntrySize == LogEntrySizeBytes()
    ensures Trailer(count).metadataVersion == DefaultMetadata.metadataVersion
  {
  }

  /** The records of the commands, in order. */
  function Entries(nodes: seq<Logged>): (r: seq<LogEntry>)
    ensures |r| == |nodes|
    ensures forall i :: 0 <= i < |nodes| ==> r[i] == LogEntryOf(nodes[i])
  {
    if nodes == [] then [] else Entries(nodes[..|nodes| - 1]) + [LogEntryOf(nodes[|nodes| - 1])]
  }

  /** The bytes of the records of the commands, one 168-byte image each. */
  function RecordBytes(nodes: seq<Logged>): (r: seq<u8>)
    ensures |r| == 168 * |nodes|
  {
    if nodes == [] then [] else RecordBytes(nodes[..|nodes| - 1]) + EncodeEntry(LogEntryOf(nodes[|nodes| - 1]))
  }

  /** The whole binary file for a frame log: the records, then the trailer. */
  function FrameFile(nodes: seq<Logged>): (r: seq<u8>)
    ensures |r| == 168 * |nodes| + 32
  {
    RecordBytes(nodes) + EncodeMetadata(Trailer(|nodes|))
  }

  /** A frame file read back: its records and its trailer. */
  datatype FrameImage = FrameImage(entries: seq<LogEntry>, trailer: FrameLogMetadata)

  /** Records read back from consecutive 168-byte images. */
  function DecodeRecords(bs: seq<u8>, count: nat): (r: seq<LogEntry>)
    requires |bs| == 168 * count
    ensures |r| == count
  {
    if count == 0 then [] else DecodeRecords(bs[..168 * (count - 1)], count - 1) + [DecodeEntry(bs[168 * (count - 1)..])]
  }

  /** Reads a frame file the way a consumer that validates the trailer
      would: the length must be whole records plus a trailer, and the
      trailer must declare the sizes and the count found. */
  function ParseFrameFile(bs: seq<u8>): (r: Option<FrameImage>)
    ensures r.Some? ==> r.value.trailer.entryCount == |r.value.entries|
    ensures r.Some? ==> |bs| == 168 * |r.value.entries| + 32
  {
    if |bs| < 32 || (|bs| - 32) % 168 != 0 then None
    else
      var count := (|bs| - 32) / 168;
      var trailer := DecodeMetadata(bs[|bs| - 32..]);
      if trailer.metadataSize != 32 || trailer.logEntrySize != 168 || trailer.entryCount != count then None
      else Some(FrameImage(DecodeRecords(bs[..|bs| - 32], count), trailer))
  }

  lemma {:induction false} RecordsRoundTrip(nodes: seq<Logged>)
    ensures DecodeRecords(RecordBytes(nodes), |nodes|) == Entries(nodes)
  {
    if nodes != [] {
      var init := nodes[..|nodes| - 1];
      var last := EncodeEntry(LogEntryOf(nodes[|nodes| - 1]));
      var bs := RecordBytes(nodes);
      assert bs == RecordBytes(init) + last;
      assert bs[..168 * |init|] == RecordBytes(init);
      assert bs[168 * |init|..] == last;
      RecordsRoundTrip(init);
      EntryRoundTrip(LogEntryOf(nodes[|nodes| - 1]));
    }
  }

  /** The length of `count` records divides into exactly `count` records. */
  lemma {:induction false} WholeRecords(count: nat)
    ensures (168 * count) % 168 == 0 && (168 * count) / 168 == count
  {
  }

  /** Whole records followed by a trailer that declares the two sizes and
      the count of those records parse as those records and that trailer. */
  lemma {:induction false} ParseWellFormed(records: seq<u8>, count: nat, trailerBytes: seq<u8>)
    requires |records| == 168 * count && |trailerBytes| == 32
    requires DecodeMetadata(trailerBytes).metadataSize == 32
    requires DecodeMetadata(trailerBytes).logEntrySize == 168
    requires DecodeMetadata(trailerBytes).entryCount == count
    ensures ParseFrameFile(records + trailerBytes)
         == Some(FrameImage(DecodeRecords(records, count), DecodeMetadata(trailerBytes)))
  {
    var bs := records + trailerBytes;
    WholeRecords(count);
    assert bs[|bs| - 32..] == trailerBytes;
    assert bs[..|bs| - 32] == records;
  }

  /** Reading back a saved frame gives one record per command, in order,
      each the projection of its command, and the trailer `saveFrameLog`
      wrote: sizes 32 and 168, version 1, and the number of records. */
  lemma {:induction false} FrameFileRoundTrip(nodes: seq<Logged>)
    requires |nodes| < 0x1_0000_0000_0000_0000
    ensures ParseFrameFile(FrameFile(nodes)) == Some(FrameImage(Entries(nodes), Trailer(|nodes|)))
  {
    MetadataRoundTrip(Trailer(|nodes|));
    ParseWellFormed(RecordBytes(nodes), |nodes|, EncodeMetadata(Trailer(|nodes|)));
    RecordsRoundTrip(nodes);
  }

  // ---------------------------------------------------------------------
  // Saving

  /** What the streams do: whether each file opens, which binary write
      fails first (records are numbered from 0, the trailer write comes
      after the last record), and whether the text file stays good. */
  datatype StreamFaults = StreamFaults(
    binaryOpens: bool,
    failingWrite: Option<nat>,
    textOpens: bool,
    textGood: bool)

  /** The first binary write that fails, among the `count + 1` writes. */
  predicate FailsAt(f: StreamFaults, k: nat, count: nat) {
    f.failingWrite.Some? && f.failingWrite.value == k && k <= count
  }

  /** The record bytes after one more command. */
  lemma {:induction false} RecordBytesSnoc(nodes: seq<Logged>, i: nat)
    requires i < |nodes|
    ensures RecordBytes(nodes[..i + 1]) == RecordBytes(nodes[..i]) + EncodeEntry(LogEntryOf(nodes[i]))
  {
    assert nodes[..i + 1][..i] == nodes[..i];
  }

  /** The file, with the records written as the whole prefix of the log. */
  lemma {:induction false} FrameFileWhole(nodes: seq<Logged>)
    ensures FrameFile(nodes) == RecordBytes(nodes[..|nodes|]) + EncodeMetadata(Trailer(|nodes|))
  {
    assert nodes[..|nodes|] == nodes;
  }

  /** The record loop of `saveFrameLog`: one `buildLogEntry` and one write
      per command, stopping at the first failing write. `entryCount` counts
      the records written. */
  method WriteRecords(nodes: seq<Logged>, failingWrite: Option<nat>)
    returns (completed: bool, entryCount: nat, written: seq<u8>)
    ensures entryCount <= |nodes| && written == RecordBytes(nodes[..entryCount])
    ensures completed <==> !(failingWrite.Some? && failingWrite.value < |nodes|)
    ensures completed ==> entryCount == |nodes|
    ensures !completed ==> entryCount == failingWrite.value
  {
    written := [];
    entryCount := 0;
    for i := 0 to |nodes|
      invariant entryCount == i
      invariant written == RecordBytes(nodes[..i])
      invariant failingWrite.Some? ==> i <= failingWrite.value
    {
      var entry := BuildLogEntry(nodes[i]);
      if failingWrite.Some? && failingWrite.value == i {
        return false, entryCount, written;
      }
      RecordBytesSnoc(nodes, i);
      written := written + EncodeEntry(entry);
      entryCount := entryCount + 1;
    }
    completed := true;
  }

  /** `saveFrameLog(path)`: the bytes that reach the binary file, and whether
      the save reports success. The records go out in log order, then the
      trailer with the number of records; the companion text file is
      written only after the binary one succeeded. A failing write is
      modelled as adding no bytes. */
  method SaveFrameLog(nodes: seq<Logged>, faults: StreamFaults) returns (ok: bool, written: seq<u8>)
    ensures !faults.binaryOpens ==> !ok && written == []
    ensures faults.binaryOpens && faults.failingWrite.Some? && faults.failingWrite.value <= |nodes| ==>
      !ok && written == RecordBytes(nodes[..faults.failingWrite.value])
    ensures faults.binaryOpens && !(faults.failingWrite.Some? && faults.failingWrite.value <= |nodes|) ==>
      written == FrameFile(nodes) && (ok <==> faults.textOpens && faults.textGood)
  {
    if !faults.binaryOpens {
      return false, [];
    }
    var completed, entryCount;
    completed, entryCount, written := WriteRecords(nodes, faults.failingWrite);
    if !completed {
      return false, written;
    }
    var metadata := FrameLogMetadata(MetadataSizeBytes(), LogEntrySizeBytes(), ToU64(entryCount), 1);
    if faults.failingWrite.Some? && faults.failingWrite.value == |nodes| {
      return false, written;
    }
    assert metadata == Trailer(|nodes|);
    FrameFileWhole(nodes);
    written := written + EncodeMetadata(metadata);
    // The companion text file: it must open, and the stream must stay good.
    ok := faults.textOpens && faults.textGood;
  }
}
