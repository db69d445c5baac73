/** The logged GPU commands: the shared header every logged command carries,
    the geometry of the variants the logger knows, the display-mode
    bit-field decoder and the colour formatter used by the text output. */
module GpuCommands {
  import opened Wrappers
  import opened MachineInts
  import opened GteTrace

  /** How a command reached the GPU. */
  datatype Origin = DataWrite | CtrlWrite | DirectDma | ChainDma | Replay

  /** The access kind coverage is requested for. */
  datatype PixelOp = Read | Write

  datatype BlendFunction =
    | HalfBackAndHalfFront | FullBackAndFullFront | FullBackSubFullFront | FullBackAndQuarterFront

  datatype TexDepth = Tex4Bits | Tex8Bits | Tex16Bits

  datatype Dma = Off | FifoQuery | DmaRead | DmaWrite

  // ---------------------------------------------------------------------
  // Display mode (GP1 0x08)

  /** Horizontal resolutions, in the order their enumerators are declared. */
  datatype HorizontalRes = Hr256 | Hr320 | Hr512 | Hr640 | Hr368 | Hr384

  datatype VerticalRes = Vr240 | Vr480

  datatype VideoMode = Ntsc | Pal

  datatype ColorDepth = Cd15Bits | Cd24Bits

  datatype DisplayMode = DisplayMode(
    hres: HorizontalRes,
    vres: VerticalRes,
    mode: VideoMode,
    depth: ColorDepth,
    interlace: bool,
    widthRaw: nat)

  function HResOrdinal(h: HorizontalRes): (r: nat)
    ensures r < 6
  {
    match h
    case Hr256 => 0 case Hr320 => 1 case Hr512 => 2 case Hr640 => 3 case Hr368 => 4 case Hr384 => 5
  }

  /** `magic_enum::enum_cast` of a value below 4: the enumerator declared at that position. */
  function HResAt(n: nat): (h: HorizontalRes)
    requires n < 4
    ensures HResOrdinal(h) == n
  {
    [Hr256, Hr320, Hr512, Hr640][n]
  }

  /** The resolution selected when bit 6 is set, by the two low bits. */
  function ExtendedHRes(n: nat): (h: HorizontalRes)
    requires n < 4
  {
    [Hr368, Hr384, Hr512, Hr640][n]
  }

  /** The number of pixels the debugger's display names for each resolution. */
  function HResPixels(h: HorizontalRes): (r: nat)
  {
    match h
    case Hr256 => 256 case Hr320 => 320 case Hr512 => 512 case Hr640 => 640
    case Hr368 => 368 case Hr384 => 384
  }

  function VRes(bit: nat): VerticalRes requires bit < 2 { if bit == 0 then Vr240 else Vr480 }
  function VMode(bit: nat): VideoMode requires bit < 2 { if bit == 0 then Ntsc else Pal }
  function CDepth(bit: nat): ColorDepth requires bit < 2 { if bit == 0 then Cd15Bits else Cd24Bits }

  /** `v >> k`. */
  function Shr(v: nat, k: nat): (r: nat)
  {
    if k == 0 then v else Shr(v, k - 1) / 2
  }

  /** `(v >> k) & 1`. */
  function Bit(v: nat, k: nat): (r: nat)
    ensures r < 2
  {
    Shr(v, k) % 2
  }

  /** `CtrlDisplayMode(uint32_t value)`: bits 0-1 and 6 pick the horizontal
      resolution, bits 2, 3, 4 and 5 the vertical resolution, video mode,
      colour depth and interlace; `widthRaw` is bit 6 over the two low bits. */
  function DecodeDisplayMode(value: u32): (d: DisplayMode)
    ensures d.widthRaw < 8
    ensures d.widthRaw % 2 == Bit(value, 6) && d.widthRaw / 2 == value % 4
    ensures Bit(value, 6) == 0 ==> HResOrdinal(d.hres) == value % 4
    ensures Bit(value, 6) == 1 ==> HResPixels(d.hres) == [368, 384, 512, 640][value % 4]
    ensures d.vres == (if Bit(value, 2) == 0 then Vr240 else Vr480)
    ensures d.mode == (if Bit(value, 3) == 0 then Ntsc else Pal)
    ensures d.depth == (if Bit(value, 4) == 0 then Cd15Bits else Cd24Bits)
    ensures d.interlace <==> Bit(value, 5) == 1
  {
    var low := value % 4;
    var ext := Bit(value, 6);
    DisplayMode(
      if ext == 1 then ExtendedHRes(low) else HResAt(low),
      VRes(Bit(value, 2)),
      VMode(Bit(value, 3)),
      CDepth(Bit(value, 4)),
      Bit(value, 5) == 1,
      ext + low * 2)
  }

  /** The horizontal resolution `widthRaw` stands for. */
  function HResOfWidthRaw(w: nat): (h: HorizontalRes)
    requires w < 8
  {
    if w % 2 == 1 then ExtendedHRes(w / 2) else HResAt(w / 2)
  }

  /** The width in pixels by `widthRaw`, least significant bit = bit 6. */
  const WidthTable: seq<nat> := [256, 368, 320, 384, 512, 512, 640, 640]

  /** A decoded display mode whose resolution agrees with its `widthRaw`. */
  predicate WellFormedMode(d: DisplayMode) {
    d.widthRaw < 8 && d.hres == HResOfWidthRaw(d.widthRaw)
  }

  /** The seven bits of a GP1 display-mode word that describe `d`. */
  function EncodeDisplayMode(d: DisplayMode): (r: nat)
    requires d.widthRaw < 8
    ensures r < 128
  {
    d.widthRaw / 2
    + 4 * (if d.vres == Vr240 then 0 else 1)
    + 8 * (if d.mode == Ntsc then 0 else 1)
    + 16 * (if d.depth == Cd15Bits then 0 else 1)
    + 32 * (if d.interlace then 1 else 0)
    + 64 * (d.widthRaw % 2)
  }

  /** One shift: the value is twice the shifted value plus the bit shifted out. */
  lemma {:induction false} ShrStep(v: nat, k: nat)
    ensures Shr(v, k) == 2 * Shr(v, k + 1) + Bit(v, k)
  {
  }

  /** Peeling the lowest bit off a shifted value. */
  lemma {:induction false} BitPeel(v: nat, k: nat, b: nat, rest: nat)
    requires b < 2 && Shr(v, k) == b + 2 * rest
    ensures Bit(v, k) == b && Shr(v, k + 1) == rest
  {
    ShrStep(v, k);
  }

  lemma {:induction false} Mod4Split(v: nat, lo: nat, q: nat)
    requires lo < 4 && v == lo + 4 * q
    ensures v % 4 == lo
  {
  }

  lemma {:induction false} Mod128Split(v: nat, lo: nat, q: nat)
    requires lo < 128 && v == lo + 128 * q
    ensures v % 128 == lo
  {
  }

  /** The seven low bits of a word, one by one. */
  lemma {:induction false} SevenBits(v: nat)
    ensures v % 128 == v % 4 + 4 * Bit(v, 2) + 8 * Bit(v, 3) + 16 * Bit(v, 4) + 32 * Bit(v, 5) + 64 * Bit(v, 6)
  {
    ShrStep(v, 0); ShrStep(v, 1); ShrStep(v, 2); ShrStep(v, 3); ShrStep(v, 4); ShrStep(v, 5); ShrStep(v, 6);
    var lo := Bit(v, 0) + 2 * Bit(v, 1);
    Mod4Split(v, lo, Shr(v, 2));
    var low7 := lo + 4 * Bit(v, 2) + 8 * Bit(v, 3) + 16 * Bit(v, 4) + 32 * Bit(v, 5) + 64 * Bit(v, 6);
    Mod128Split(v, low7, Shr(v, 7));
  }

  /** A number below 128 has the bits it is written with. */
  lemma {:induction false} BitsOfSum(v: nat, b0: nat, b1: nat, b2: nat, b3: nat, b4: nat, b5: nat, b6: nat)
    requires b0 < 2 && b1 < 2 && b2 < 2 && b3 < 2 && b4 < 2 && b5 < 2 && b6 < 2
    requires v == b0 + 2 * b1 + 4 * b2 + 8 * b3 + 16 * b4 + 32 * b5 + 64 * b6
    ensures Bit(v, 2) == b2 && Bit(v, 3) == b3 && Bit(v, 4) == b4 && Bit(v, 5) == b5 && Bit(v, 6) == b6
    ensures v % 4 == b0 + 2 * b1
  {
    BitPeel(v, 0, b0, b1 + 2 * b2 + 4 * b3 + 8 * b4 + 16 * b5 + 32 * b6);
    BitPeel(v, 1, b1, b2 + 2 * b3 + 4 * b4 + 8 * b5 + 16 * b6);
    BitPeel(v, 2, b2, b3 + 2 * b4 + 4 * b5 + 8 * b6);
    BitPeel(v, 3, b3, b4 + 2 * b5 + 4 * b6);
    BitPeel(v, 4, b4, b5 + 2 * b6);
    BitPeel(v, 5, b5, b6);
    BitPeel(v, 6, b6, 0);
    Mod4Split(v, b0 + 2 * b1, b2 + 2 * b3 + 4 * b4 + 8 * b5 + 16 * b6);
  }

  /** Every decoded mode is well formed, and re-encoding it gives back the
      seven bits it was decoded from. */
  lemma {:induction false} DecodeEncodeDisplayMode(value: u32)
    ensures WellFormedMode(DecodeDisplayMode(value))
    ensures EncodeDisplayMode(DecodeDisplayMode(value)) == value % 128
  {
    SevenBits(value);
  }

  /** Decoding the encoding of a well-formed mode gives the mode. */
  lemma {:induction false} EncodeDecodeDisplayMode(d: DisplayMode)
    requires WellFormedMode(d)
    ensures DecodeDisplayMode(EncodeDisplayMode(d)) == d
  {
    var lo := d.widthRaw / 2;
    BitsOfSum(EncodeDisplayMode(d), lo % 2, lo / 2,
              if d.vres == Vr240 then 0 else 1, if d.mode == Ntsc then 0 else 1,
              if d.depth == Cd15Bits then 0 else 1, if d.interlace then 1 else 0, d.widthRaw % 2);
  }

  /** Bits above bit 6 do not take part in the decoding. */
  lemma {:induction false} DisplayModeIgnoresHighBits(value: u32)
    ensures DecodeDisplayMode(value) == DecodeDisplayMode(value % 128)
  {
    DecodeEncodeDisplayMode(value);
    EncodeDecodeDisplayMode(DecodeDisplayMode(value));
  }

  /** The displayed width depends on `widthRaw` alone, by the table above. */
  lemma {:induction false} DisplayWidthByWidthRaw(value: u32)
    ensures HResPixels(DecodeDisplayMode(value).hres) == WidthTable[DecodeDisplayMode(value).widthRaw]
  {
  }

  // ---------------------------------------------------------------------
  // Colours

  const HexDigits: string := "0123456789abcdef"

  function Pow16(n: nat): (r: nat)
    ensures r > 0
  {
    if n == 0 then 1 else 16 * Pow16(n - 1)
  }

  /** `v` written with exactly `n` lowercase hexadecimal digits, zero-padded
      on the left and keeping the `n` least significant digits. */
  function HexFixed(v: nat, n: nat): (r: string)
    ensures |r| == n
    ensures forall i :: 0 <= i < n ==> r[i] in HexDigits
  {
    if n == 0 then [] else HexFixed(v / 16, n - 1) + [HexDigits[v % 16]]
  }

  /** The value of a hexadecimal digit, 0 for any other character. */
  function DigitValue(c: char): (r: nat)
    ensures r < 16
  {
    if '0' <= c <= '9' then c as int - '0' as int
    else if 'a' <= c <= 'f' then c as int - 'a' as int + 10
    else 0
  }

  /** The number a string of hexadecimal digits denotes. */
  function ParseHex(s: string): (r: nat)
    ensures r < Pow16(|s|)
  {
    if s == [] then 0 else ParseHex(s[..|s| - 1]) * 16 + DigitValue(s[|s| - 1])
  }

  /** `colorToHex(color)`: "0x" followed by six hexadecimal digits of the low 24 bits. */
  function ColorToHex(color: u32): (r: string)
    ensures |r| == 8 && r[..2] == "0x"
    ensures forall i :: 2 <= i < 8 ==> r[i] in HexDigits
  {
    "0x" + HexFixed(color % 0x100_0000, 6)
  }

  /** Each digit reads back as its value. */
  lemma {:induction false} DigitValueOfDigit(d: nat)
    requires d < 16
    ensures DigitValue(HexDigits[d]) == d
  {
    if d < 10 {
      assert HexDigits[d] as int == '0' as int + d;
    } else {
      assert HexDigits[d] as int == 'a' as int + d - 10;
    }
  }

  /** Reading the digits back gives the value, when it has at most `n` digits. */
  lemma {:induction false} HexFixedRoundTrip(v: nat, n: nat)
    requires v < Pow16(n)
    ensures ParseHex(HexFixed(v, n)) == v
  {
    if n > 0 {
      var s := HexFixed(v, n);
      assert s[..n - 1] == HexFixed(v / 16, n - 1);
      assert v / 16 < Pow16(n - 1);
      HexFixedRoundTrip(v / 16, n - 1);
      assert s[n - 1] == HexDigits[v % 16];
      DigitValueOfDigit(v % 16);
    }
  }

  /** The six digits of `colorToHex` denote exactly `color & 0xffffff`. */
  lemma {:induction false} ColorToHexRoundTrip(color: u32)
    ensures ParseHex(ColorToHex(color)[2..]) == color % 0x100_0000
  {
    assert Pow16(6) == 0x100_0000;
    assert ColorToHex(color)[2..] == HexFixed(color % 0x100_0000, 6);
    HexFixedRoundTrip(color % 0x100_0000, 6);
  }

  /** Two colours print alike iff their low 24 bits agree. */
  lemma {:induction false} ColorToHexInjective(a: u32, b: u32)
    ensures ColorToHex(a) == ColorToHex(b) <==> a % 0x100_0000 == b % 0x100_0000
  {
    ColorToHexRoundTrip(a);
    ColorToHexRoundTrip(b);
  }

  // ---------------------------------------------------------------------
  // Logged commands

  /** The variant of a logged command with the fields the logger reads.
      Coordinates are the resolved (clipped) values the variants store. */
  datatype Geometry =
    | ClearCache
    | FastFill(color: u32, x: int, y: int, w: int, h: int)
    | BlitVramVram(sX: int, sY: int, dX: int, dY: int, w: int, h: int)
    | BlitRamVram(x: int, y: int, w: int, h: int)
    | BlitVramRam(x: int, y: int, w: int, h: int)
    | TexturePage(tx: int, ty: int, blendFunction: BlendFunction, texDepth: TexDepth, dither: bool)
    | TextureWindow(x: int, y: int, w: int, h: int)
    | DrawingAreaStart(x: int, y: int)
    | DrawingAreaEnd(x: int, y: int)
    | DrawingOffset(x: int, y: int)
    | MaskBit(setMask: bool, checkMask: bool)
    | CtrlReset
    | CtrlClearFifo
    | CtrlIrqAck
    | CtrlDisplayEnable(enable: bool)
    | CtrlDmaSetting(dma: Dma)
    | CtrlDisplayStart(x: int, y: int)
    | CtrlHorizontalDisplayRange(x0: int, x1: int)
    | CtrlVerticalDisplayRange(y0: int, y1: int)
    | CtrlDisplayMode(displayMode: DisplayMode)
    | CtrlQuery(queryType: nat)

  /** One logged command: its variant and the header the logger fills in. */
  datatype Logged = Logged(
    geometry: Geometry,
    origin: Origin,
    length: u32,
    sourceAddr: u32,
    words: seq<u32>,
    wordsTruncated: bool,
    pc: u32,
    frame: nat,
    enabled: bool,
    highlight: bool,
    gteState: Option<GteState>)
}
