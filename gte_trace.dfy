/** The GTE (geometry transformation coprocessor) trace records: one snapshot
    pair per executed instruction and the vertex loads attributed to it. */
module GteTrace {
  import opened MachineInts

  /** One vertex-load micro-operation; every field defaults to 0 and only the
      offset applied to the base register is signed 16-bit. */
  datatype GteFetchContext = GteFetchContext(
    pc: u32,
    address: u32,
    baseRegister: u32,
    baseValue: u32,
    offset: i16,
    targetRegister: u32,
    value: u32)

  function DefaultFetchContext(): (f: GteFetchContext)
    ensures f.pc == f.address == f.baseRegister == f.baseValue == 0
    ensures f.offset == 0 && f.targetRegister == 0 && f.value == 0
  {
    GteFetchContext(0, 0, 0, 0, 0, 0, 0)
  }

  /** The fetches attributed to one instruction, in the order they happened. */
  datatype GteLogMetadata = GteLogMetadata(vertexFetches: seq<GteFetchContext>)

  /** The coprocessor opcodes the trace distinguishes, `Unknown` first. */
  datatype GteCommand =
    | Unknown | RTPT | RTPS | NCLIP | OP | DPCS | INTPL | MVMVA | NCDS | CDP | NCDT
    | NCCS | CC | NCS | NCT | SQR | DCPL | DPCT | AVSZ3 | AVSZ4 | GPL | GPF | NCCT

  /** The enumerators in declaration order. */
  const Commands: seq<GteCommand> :=
    [Unknown, RTPT, RTPS, NCLIP, OP, DPCS, INTPL, MVMVA, NCDS, CDP, NCDT,
     NCCS, CC, NCS, NCT, SQR, DCPL, DPCT, AVSZ3, AVSZ4, GPL, GPF, NCCT]

  /** The underlying value of an enumerator: its position in the declaration. */
  function CommandOrdinal(c: GteCommand): (r: nat)
    ensures r < |Commands| && Commands[r] == c
    ensures r == 0 <==> c == Unknown
  {
    match c
    case Unknown => 0 case RTPT => 1 case RTPS => 2 case NCLIP => 3 case OP => 4
    case DPCS => 5 case INTPL => 6 case MVMVA => 7 case NCDS => 8 case CDP => 9
    case NCDT => 10 case NCCS => 11 case CC => 12 case NCS => 13 case NCT => 14
    case SQR => 15 case DCPL => 16 case DPCT => 17 case AVSZ3 => 18 case AVSZ4 => 19
    case GPL => 20 case GPF => 21 case NCCT => 22
  }

  /** `Unknown` is followed by exactly 22 named opcodes, all distinct. */
  lemma CommandCatalogue()
    ensures |Commands| == 23 && Commands[0] == Unknown
    ensures forall i :: 1 <= i < |Commands| ==> Commands[i] != Unknown
    ensures forall i, j :: 0 <= i < j < |Commands| ==> Commands[i] != Commands[j]
  {
    forall i, j | 0 <= i < j < |Commands|
      ensures Commands[i] != Commands[j]
    {
      assert CommandOrdinal(Commands[i]) == i && CommandOrdinal(Commands[j]) == j;
    }
  }

  type Triple16 = s: seq<i16> | |s| == 3 witness [0, 0, 0]
  type Pair16 = s: seq<i16> | |s| == 2 witness [0, 0]
  type Triple32 = s: seq<i32> | |s| == 3 witness [0, 0, 0]
  /** Three rows of three int16: a 3x3 matrix, or three vertices. */
  type Matrix3 = m: seq<Triple16> | |m| == 3 witness [ZeroTriple, ZeroTriple, ZeroTriple]
  type ScreenCoords = s: seq<Pair16> | |s| == 3 witness [ZeroPair, ZeroPair, ZeroPair]
  const ZeroTriple: Triple16 := [0, 0, 0]
  const ZeroPair: Pair16 := [0, 0]
  type RegisterFile = s: seq<u32> | |s| == 32 witness seq(32, _ => 0)

  /** The coprocessor state either side of one instruction. */
  datatype Snapshot = Snapshot(
    vertices: Matrix3,
    screenCoords: ScreenCoords,
    rotationMatrix: Matrix3,
    lightMatrix: Matrix3,
    colorMatrix: Matrix3,
    translation: Triple32,
    dataRegisters: RegisterFile,
    controlRegisters: RegisterFile,
    offsetX: i32,
    offsetY: i32,
    projectionPlaneDistance: i16,
    depthQueueA: i16,
    depthQueueB: i32,
    depthScaleFactor3: i16,
    depthScaleFactor4: i16)

  /** A default-constructed snapshot. The vertex, screen-coordinate, matrix and
      translation arrays have no initialiser, so their contents are whatever
      the caller supplies here; the register files and projection scalars are
      zero. */
  function DefaultSnapshot(vertices: Matrix3, screenCoords: ScreenCoords, rotation: Matrix3,
                           light: Matrix3, color: Matrix3, translation: Triple32): (s: Snapshot)
    ensures forall i :: 0 <= i < 32 ==> s.dataRegisters[i] == 0 && s.controlRegisters[i] == 0
    ensures s.offsetX == 0 && s.offsetY == 0 && s.projectionPlaneDistance == 0
    ensures s.depthQueueA == 0 && s.depthQueueB == 0
    ensures s.depthScaleFactor3 == 0 && s.depthScaleFactor4 == 0
    ensures s.vertices == vertices && s.screenCoords == screenCoords && s.translation == translation
    ensures s.rotationMatrix == rotation && s.lightMatrix == light && s.colorMatrix == color
  {
    Snapshot(vertices, screenCoords, rotation, light, color, translation,
             seq(32, _ => 0), seq(32, _ => 0), 0, 0, 0, 0, 0, 0, 0)
  }

  /** One traced coprocessor instruction. */
  datatype GteState = GteState(
    command: GteCommand,
    pc: u32,
    input: Snapshot,
    output: Snapshot,
    metadata: GteLogMetadata)

  /** A default-constructed state: command `Unknown`, pc 0, no fetches. */
  function DefaultGteState(input: Snapshot, output: Snapshot): (g: GteState)
    ensures g.command == Unknown && CommandOrdinal(g.command) == 0
    ensures g.pc == 0 && g.metadata.vertexFetches == []
  {
    GteState(Unknown, 0, input, output, GteLogMetadata([]))
  }
}
