/** Layout of a C struct whose members are fixed-width scalars, as a compiler
    places them under `#pragma pack(n)`, and the little-endian byte image of
    such a struct: each member at the next multiple of its alignment, zero
    bytes in the gaps. Packing value 0 stands for natural alignment (no
    pragma in force). */
module StructLayout {
  import opened MachineInts

  datatype Scalar = U8 | U16 | I16 | U32 | I32 | U64

  function SizeOf(k: Scalar): nat {
    match k
    case U8 => 1
    case U16 => 2
    case I16 => 2
    case U32 => 4
    case I32 => 4
    case U64 => 8
  }

  /** Alignment of a member: its natural alignment (its size), capped at the
      packing value when one is in force. */
  function AlignOf(k: Scalar, pack: nat): (r: nat)
    ensures r > 0
  {
    if pack == 0 || SizeOf(k) <= pack then SizeOf(k) else pack
  }

  /** Packing values a compiler accepts. */
  predicate ValidPack(pack: nat) {
    pack == 0 || pack == 1 || pack == 2 || pack == 4 || pack == 8
  }

  /** No scalar kind is wider than 8 bytes, so natural alignment is the
      alignment `#pragma pack(8)` gives. */
  lemma {:induction false} NaturalIsPack8(k: Scalar)
    ensures AlignOf(k, 0) == AlignOf(k, 8) == SizeOf(k)
  {
  }

  /** Bytes of padding that bring `off` up to the next multiple of `a`. */
  function PadTo(off: nat, a: nat): (r: nat)
    requires a > 0
    ensures r < a
  {
    if off == 0 then 0 else if off < a then a - off else PadTo(off - a, a)
  }

  /** `off` is a multiple of `a`. */
  predicate Aligned(off: nat, a: nat)
    requires a > 0
  {
    PadTo(off, a) == 0
  }

  /** Padding lands on a multiple: `off + PadTo(off, a)` is aligned. */
  lemma {:induction false} PadToAligns(off: nat, a: nat)
    requires a > 0
    ensures Aligned(off + PadTo(off, a), a)
  {
    if off >= a {
      PadToAligns(off - a, a);
      assert off + PadTo(off, a) == (off - a + PadTo(off - a, a)) + a;
    } else if off > 0 {
      assert off + PadTo(off, a) == a;
      assert PadTo(a, a) == PadTo(0, a);
    }
  }

  /** Alignment is unchanged by adding whole multiples of `a`. */
  lemma {:induction false} PadToShift(off: nat, a: nat, m: nat)
    requires a > 0
    ensures PadTo(off + m * a, a) == PadTo(off, a)
  {
    if m > 0 {
      PadToShift(off, a, m - 1);
      assert off + m * a == (off + (m - 1) * a) + a;
    }
  }

  /** Every whole multiple of `a` is aligned to `a`. */
  lemma {:induction false} AlignedMultiple(a: nat, m: nat)
    requires a > 0
    ensures Aligned(m * a, a)
  {
    PadToShift(0, a, m);
  }

  /** Where a member of kind `k` placed at or after `off` starts. */
  function MemberStart(k: Scalar, off: nat, pack: nat): (r: nat)
    ensures r >= off
  {
    off + PadTo(off, AlignOf(k, pack))
  }

  /** The offset just past the last of the members `ks` when the first is
      placed at or after `off`. */
  function LayoutEnd(ks: seq<Scalar>, off: nat, pack: nat): (r: nat)
    ensures r >= off
  {
    if ks == [] then off
    else LayoutEnd(ks[1..], MemberStart(ks[0], off, pack) + SizeOf(ks[0]), pack)
  }

  /** The strictest member alignment: the alignment of the struct itself. */
  function StructAlign(ks: seq<Scalar>, pack: nat): (r: nat)
    ensures r > 0
    ensures forall i :: 0 <= i < |ks| ==> AlignOf(ks[i], pack) <= r
  {
    if ks == [] then 1
    else
      var rest := StructAlign(ks[1..], pack);
      assert forall i :: 1 <= i < |ks| ==> ks[i] == ks[1..][i - 1];
      if AlignOf(ks[0], pack) < rest then rest else AlignOf(ks[0], pack)
  }

  /** Under a packing value no member is aligned more strictly than it. */
  lemma {:induction false} StructAlignBound(ks: seq<Scalar>, pack: nat)
    requires pack > 0
    ensures StructAlign(ks, pack) <= pack
  {
    if ks != [] {
      StructAlignBound(ks[1..], pack);
    }
  }

  /** `sizeof` of the struct: the members' extent rounded up to the struct's
      alignment, so that consecutive records in an array stay aligned. */
  function StructSize(ks: seq<Scalar>, pack: nat): (r: nat)
    ensures r >= LayoutEnd(ks, 0, pack)
  {
    var e := LayoutEnd(ks, 0, pack);
    e + PadTo(e, StructAlign(ks, pack))
  }

  /** A struct's size is a multiple of its alignment. */
  lemma {:induction false} StructSizeAligned(ks: seq<Scalar>, pack: nat)
    ensures Aligned(StructSize(ks, pack), StructAlign(ks, pack))
  {
    PadToAligns(LayoutEnd(ks, 0, pack), StructAlign(ks, pack));
  }

  /** Total size of the members themselves, padding excluded. */
  function FieldBytes(ks: seq<Scalar>): nat {
    if ks == [] then 0 else SizeOf(ks[0]) + FieldBytes(ks[1..])
  }

  /** `n` members of kind `k`: an array member `k m[n]` expanded. */
  function Run(k: Scalar, n: nat): (r: seq<Scalar>)
    ensures |r| == n && forall i :: 0 <= i < n ==> r[i] == k
  {
    seq(n, _ => k)
  }

  lemma {:induction false} LayoutEndAppend(a: seq<Scalar>, b: seq<Scalar>, off: nat, pack: nat)
    ensures LayoutEnd(a + b, off, pack) == LayoutEnd(b, LayoutEnd(a, off, pack), pack)
  {
    if a == [] {
      assert a + b == b;
    } else {
      assert (a + b)[0] == a[0] && (a + b)[1..] == a[1..] + b;
      LayoutEndAppend(a[1..], b, MemberStart(a[0], off, pack) + SizeOf(a[0]), pack);
    }
  }

  lemma {:induction false} FieldBytesAppend(a: seq<Scalar>, b: seq<Scalar>)
    ensures FieldBytes(a + b) == FieldBytes(a) + FieldBytes(b)
  {
    if a == [] {
      assert a + b == b;
    } else {
      assert (a + b)[0] == a[0] && (a + b)[1..] == a[1..] + b;
      FieldBytesAppend(a[1..], b);
    }
  }

  /** Under a valid packing every member size is a whole multiple of the
      member's alignment, so an aligned member needs no padding and leaves
      the next offset aligned for the same kind. */
  lemma {:induction false} AlignedStep(k: Scalar, off: nat, pack: nat)
    requires ValidPack(pack) && Aligned(off, AlignOf(k, pack))
    ensures MemberStart(k, off, pack) == off
    ensures Aligned(off + SizeOf(k), AlignOf(k, pack))
  {
    var a := AlignOf(k, pack);
    var s := SizeOf(k);
    if s == a {
      PadToShift(off, a, 1);
    } else if s == 2 * a {
      PadToShift(off, a, 2);
    } else if s == 4 * a {
      PadToShift(off, a, 4);
    } else {
      assert s == 8 * a;
      PadToShift(off, a, 8);
    }
  }

  /** A run of `n` members of kind `k` holds `n` times the member's bytes. */
  lemma {:induction false} FieldBytesRun(k: Scalar, n: nat)
    ensures FieldBytes(Run(k, n)) == n * SizeOf(k)
  {
    if n > 0 {
      assert Run(k, n)[1..] == Run(k, n - 1);
      FieldBytesRun(k, n - 1);
      assert n * SizeOf(k) == (n - 1) * SizeOf(k) + SizeOf(k);
    }
  }

  /** A run of one kind from an aligned offset has no padding inside it. */
  lemma {:induction false} LayoutEndRun(k: Scalar, n: nat, off: nat, pack: nat)
    requires ValidPack(pack) && Aligned(off, AlignOf(k, pack))
    ensures LayoutEnd(Run(k, n), off, pack) == off + n * SizeOf(k)
  {
    if n > 0 {
      var s := SizeOf(k);
      RunStep(k, n, off, pack);
      LayoutEndRun(k, n - 1, off + s, pack);
      MulStep(n, s);
    }
  }

  /** From an aligned offset, a run places its first member there and the
      shorter run at the next offset, which is aligned again. */
  lemma {:induction false} RunStep(k: Scalar, n: nat, off: nat, pack: nat)
    requires ValidPack(pack) && Aligned(off, AlignOf(k, pack)) && n > 0
    ensures LayoutEnd(Run(k, n), off, pack) == LayoutEnd(Run(k, n - 1), off + SizeOf(k), pack)
    ensures Aligned(off + SizeOf(k), AlignOf(k, pack))
  {
    assert Run(k, n)[1..] == Run(k, n - 1);
    AlignedStep(k, off, pack);
  }

  lemma {:induction false} MulStep(n: nat, s: nat)
    requires n > 0
    ensures n * s == (n - 1) * s + s
  {
  }

  /** A non-empty run of one kind starting from any offset: the first member
      is padded to its alignment, the rest follow without gaps. */
  lemma {:induction false} RunAfter(k: Scalar, n: nat, off: nat, pack: nat)
    requires ValidPack(pack) && n > 0
    ensures LayoutEnd(Run(k, n), off, pack) == MemberStart(k, off, pack) + n * SizeOf(k)
  {
    PadFirst(Run(k, n), off, pack);
    PadToAligns(off, AlignOf(k, pack));
    LayoutEndRun(k, n, MemberStart(k, off, pack), pack);
  }

  /** Padding the offset up to the first member's alignment beforehand
      changes nothing. */
  lemma {:induction false} PadFirst(ks: seq<Scalar>, off: nat, pack: nat)
    requires ks != []
    ensures LayoutEnd(ks, off, pack) == LayoutEnd(ks, MemberStart(ks[0], off, pack), pack)
  {
    var k, start := ks[0], MemberStart(ks[0], off, pack);
    PadToAligns(off, AlignOf(k, pack));
    assert MemberStart(k, start, pack) == start;
    assert LayoutEnd(ks, start, pack) == LayoutEnd(ks[1..], start + SizeOf(k), pack);
  }

  // ---------------------------------------------------------------------
  // Byte images

  /** `2^(8 * SizeOf(k))`: how many distinct values a member of kind `k` holds. */
  function Modulus(k: Scalar): (r: nat)
    ensures r == Pow256(SizeOf(k))
  {
    Pow256Widths();
    match k
    case U8 => 0x100
    case U16 => 0x1_0000
    case I16 => 0x1_0000
    case U32 => 0x1_0000_0000
    case I32 => 0x1_0000_0000
    case U64 => 0x1_0000_0000_0000_0000
  }

  /** The values a member of kind `k` can hold. */
  predicate Fits(k: Scalar, v: int) {
    match k
    case U8 => 0 <= v < 0x100
    case U16 => 0 <= v < 0x1_0000
    case I16 => -0x8000 <= v < 0x8000
    case U32 => 0 <= v < 0x1_0000_0000
    case I32 => -0x8000_0000 <= v < 0x8000_0000
    case U64 => 0 <= v < 0x1_0000_0000_0000_0000
  }

  predicate AllFit(ks: seq<Scalar>, vals: seq<int>) {
    |ks| == |vals| && forall i :: 0 <= i < |ks| ==> Fits(ks[i], vals[i])
  }

  /** Two's-complement little-endian image of one member. */
  function EncodeScalar(k: Scalar, v: int): (r: seq<u8>)
    ensures |r| == SizeOf(k)
  {
    LeBytes(v % Modulus(k), SizeOf(k))
  }

  /** Reads one member back; the signed kinds take the upper half of the
      range as negative. */
  function DecodeScalar(k: Scalar, bs: seq<u8>): (r: int)
    requires |bs| == SizeOf(k)
    ensures Fits(k, r)
  {
    var u := LeValue(bs);
    assert u < Modulus(k);
    match k
    case I16 => if u >= 0x8000 then u - 0x1_0000 else u
    case I32 => if u >= 0x8000_0000 then u - 0x1_0000_0000 else u
    case _ => u
  }

  lemma {:induction false} ScalarRoundTrip(k: Scalar, v: int)
    requires Fits(k, v)
    ensures DecodeScalar(k, EncodeScalar(k, v)) == v
  {
    var m := Modulus(k);
    assert v % m == if v < 0 then v + m else v;
    LeRoundTrip(v % m, SizeOf(k));
  }

  lemma {:induction false} AllFitAppend(a: seq<Scalar>, b: seq<Scalar>, va: seq<int>, vb: seq<int>)
    requires AllFit(a, va) && AllFit(b, vb)
    ensures AllFit(a + b, va + vb)
  {
    assert forall i :: |a| <= i < |a| + |b| ==> (a + b)[i] == b[i - |a|] && (va + vb)[i] == vb[i - |a|];
  }

  lemma {:induction false} AllFitSplit(a: seq<Scalar>, b: seq<Scalar>, vals: seq<int>)
    requires AllFit(a + b, vals)
    ensures AllFit(a, vals[..|a|]) && AllFit(b, vals[|a|..])
  {
    assert forall i :: 0 <= i < |b| ==> (a + b)[|a| + i] == b[i] && vals[|a|..][i] == vals[|a| + i];
  }

  /** Values of one kind fit a run of that kind. */
  lemma {:induction false} AllFitRun(k: Scalar, vals: seq<int>)
    requires forall i :: 0 <= i < |vals| ==> Fits(k, vals[i])
    ensures AllFit(Run(k, |vals|), vals)
  {
  }

  lemma {:induction false} AllFitTail(ks: seq<Scalar>, vals: seq<int>)
    requires AllFit(ks, vals) && ks != []
    ensures Fits(ks[0], vals[0]) && AllFit(ks[1..], vals[1..])
  {
    assert forall i :: 0 <= i < |ks| - 1 ==> ks[1..][i] == ks[i + 1] && vals[1..][i] == vals[i + 1];
  }

  /** The size of each member. */
  function Sizes(ks: seq<Scalar>): (r: seq<nat>)
    ensures |r| == |ks|
  {
    if ks == [] then [] else [SizeOf(ks[0])] + Sizes(ks[1..])
  }

  /** The padding placed before each member when the first is placed at or
      after `off`. */
  function Pads(ks: seq<Scalar>, off: nat, pack: nat): (r: seq<nat>)
    ensures |r| == |ks|
  {
    if ks == [] then []
    else [PadTo(off, AlignOf(ks[0], pack))] + Pads(ks[1..], MemberStart(ks[0], off, pack) + SizeOf(ks[0]), pack)
  }

  /** Bytes covered by gaps of sizes `pads` each followed by a piece of size `lens`. */
  function Extent(pads: seq<nat>, lens: seq<nat>): nat
    requires |pads| == |lens|
  {
    if pads == [] then 0 else pads[0] + lens[0] + Extent(pads[1..], lens[1..])
  }

  /** The gaps and the members together span the layout. */
  lemma {:induction false} ExtentLayout(ks: seq<Scalar>, off: nat, pack: nat)
    ensures Extent(Pads(ks, off, pack), Sizes(ks)) == LayoutEnd(ks, off, pack) - off
  {
    if ks != [] {
      var next := MemberStart(ks[0], off, pack) + SizeOf(ks[0]);
      assert Pads(ks, off, pack)[1..] == Pads(ks[1..], next, pack);
      assert Sizes(ks)[1..] == Sizes(ks[1..]);
      ExtentLayout(ks[1..], next, pack);
    }
  }

  /** One step of `Pads`: the first member's gap, then the rest placed after it. */
  lemma {:induction false} PadsCons(ks: seq<Scalar>, off: nat, pack: nat)
    requires ks != []
    ensures Pads(ks, off, pack)
         == [PadTo(off, AlignOf(ks[0], pack))] + Pads(ks[1..], MemberStart(ks[0], off, pack) + SizeOf(ks[0]), pack)
  {
  }

  lemma {:induction false} PadsAppend(a: seq<Scalar>, b: seq<Scalar>, off: nat, pack: nat)
    ensures Pads(a + b, off, pack) == Pads(a, off, pack) + Pads(b, LayoutEnd(a, off, pack), pack)
  {
    if a == [] {
      assert a + b == b;
    } else {
      var next := MemberStart(a[0], off, pack) + SizeOf(a[0]);
      assert (a + b)[0] == a[0] && (a + b)[1..] == a[1..] + b;
      PadsCons(a + b, off, pack);
      PadsCons(a, off, pack);
      assert LayoutEnd(a, off, pack) == LayoutEnd(a[1..], next, pack);
      PadsAppend(a[1..], b, next, pack);
    }
  }

  lemma {:induction false} SizesAppend(a: seq<Scalar>, b: seq<Scalar>)
    ensures Sizes(a + b) == Sizes(a) + Sizes(b)
  {
    if a == [] {
      assert a + b == b;
    } else {
      assert (a + b)[0] == a[0] && (a + b)[1..] == a[1..] + b;
      SizesAppend(a[1..], b);
    }
  }

  // ---------------------------------------------------------------------
  // Gaps and pieces of bytes

  /** The length of each piece. */
  function Lens(imgs: seq<seq<u8>>): (r: seq<nat>)
    ensures |r| == |imgs|
  {
    if imgs == [] then [] else [|imgs[0]|] + Lens(imgs[1..])
  }

  /** Each piece preceded by a gap of zero bytes. */
  function Spread(pads: seq<nat>, imgs: seq<seq<u8>>): (r: seq<u8>)
    requires |pads| == |imgs|
    ensures |r| == Extent(pads, Lens(imgs))
  {
    if pads == [] then []
    else
      assert Lens(imgs)[1..] == Lens(imgs[1..]);
      Zeros(pads[0]) + imgs[0] + Spread(pads[1..], imgs[1..])
  }

  /** Cuts the pieces back out, skipping the gaps. */
  function Cut(pads: seq<nat>, lens: seq<nat>, bs: seq<u8>): (r: seq<seq<u8>>)
    requires |pads| == |lens| && |bs| == Extent(pads, lens)
    ensures Lens(r) == lens
  {
    if pads == [] then []
    else
      var rest := Cut(pads[1..], lens[1..], bs[pads[0] + lens[0]..]);
      var r := [bs[pads[0]..pads[0] + lens[0]]] + rest;
      assert r[1..] == rest;
      r
  }

  lemma {:induction false} CutSpread(pads: seq<nat>, imgs: seq<seq<u8>>)
    requires |pads| == |imgs|
    ensures Cut(pads, Lens(imgs), Spread(pads, imgs)) == imgs
  {
    if pads != [] {
      var gap, tail := Zeros(pads[0]), Spread(pads[1..], imgs[1..]);
      var bs := gap + imgs[0] + tail;
      assert Lens(imgs)[1..] == Lens(imgs[1..]);
      assert bs[pads[0]..pads[0] + |imgs[0]|] == imgs[0];
      assert bs[pads[0] + |imgs[0]|..] == tail;
      CutSpread(pads[1..], imgs[1..]);
    }
  }

  lemma {:induction false} SpreadAppend(p1: seq<nat>, p2: seq<nat>, i1: seq<seq<u8>>, i2: seq<seq<u8>>)
    requires |p1| == |i1| && |p2| == |i2|
    ensures Spread(p1 + p2, i1 + i2) == Spread(p1, i1) + Spread(p2, i2)
  {
    if p1 == [] {
      assert p1 + p2 == p2 && i1 + i2 == i2;
    } else {
      assert (p1 + p2)[0] == p1[0] && (p1 + p2)[1..] == p1[1..] + p2;
      assert (i1 + i2)[0] == i1[0] && (i1 + i2)[1..] == i1[1..] + i2;
      SpreadAppend(p1[1..], p2, i1[1..], i2);
    }
  }

  // ---------------------------------------------------------------------
  // Struct images

  /** The images of the member values, one per member. */
  function Encodes(ks: seq<Scalar>, vals: seq<int>): (r: seq<seq<u8>>)
    requires |ks| == |vals|
    ensures |r| == |ks| && Lens(r) == Sizes(ks)
  {
    if ks == [] then []
    else
      var rest := Encodes(ks[1..], vals[1..]);
      var r := [EncodeScalar(ks[0], vals[0])] + rest;
      assert r[1..] == rest;
      r
  }

  /** The member values the images hold. */
  function Decodes(ks: seq<Scalar>, imgs: seq<seq<u8>>): (r: seq<int>)
    requires Lens(imgs) == Sizes(ks)
    ensures AllFit(ks, r)
  {
    if ks == [] then []
    else
      assert Lens(imgs)[0] == Sizes(ks)[0];
      assert Lens(imgs)[1..] == Lens(imgs[1..]) && Sizes(ks)[1..] == Sizes(ks[1..]);
      var rest := Decodes(ks[1..], imgs[1..]);
      assert forall i :: 1 <= i < |ks| ==> ks[i] == ks[1..][i - 1];
      [DecodeScalar(ks[0], imgs[0])] + rest
  }

  lemma {:induction false} DecodesEncodes(ks: seq<Scalar>, vals: seq<int>)
    requires AllFit(ks, vals)
    ensures Decodes(ks, Encodes(ks, vals)) == vals
  {
    if ks != [] {
      AllFitTail(ks, vals);
      ScalarRoundTrip(ks[0], vals[0]);
      DecodesEncodes(ks[1..], vals[1..]);
      assert Encodes(ks, vals)[1..] == Encodes(ks[1..], vals[1..]);
    }
  }

  lemma {:induction false} EncodesAppend(a: seq<Scalar>, b: seq<Scalar>, va: seq<int>, vb: seq<int>)
    requires |a| == |va| && |b| == |vb|
    ensures Encodes(a + b, va + vb) == Encodes(a, va) + Encodes(b, vb)
  {
    if a == [] {
      assert a + b == b && va + vb == vb;
    } else {
      assert (a + b)[0] == a[0] && (a + b)[1..] == a[1..] + b;
      assert (va + vb)[0] == va[0] && (va + vb)[1..] == va[1..] + vb;
      EncodesAppend(a[1..], b, va[1..], vb);
    }
  }

  /** The bytes from offset `off` to the end of the members `ks` holding
      `vals`: what a zero-initialised struct holds there once the values
      are stored. */
  function Pack(ks: seq<Scalar>, vals: seq<int>, off: nat, pack: nat): (r: seq<u8>)
    requires |ks| == |vals|
    ensures |r| == LayoutEnd(ks, off, pack) - off
  {
    ExtentLayout(ks, off, pack);
    Spread(Pads(ks, off, pack), Encodes(ks, vals))
  }

  /** Reads the members `ks` back from the bytes from offset `off` on. */
  function Unpack(ks: seq<Scalar>, bs: seq<u8>, off: nat, pack: nat): (r: seq<int>)
    requires |bs| == LayoutEnd(ks, off, pack) - off
    ensures AllFit(ks, r)
  {
    ExtentLayout(ks, off, pack);
    Decodes(ks, Cut(Pads(ks, off, pack), Sizes(ks), bs))
  }

  /** Reading back the image of values that fit their members gives the values. */
  lemma {:induction false} PackRoundTrip(ks: seq<Scalar>, vals: seq<int>, off: nat, pack: nat)
    requires AllFit(ks, vals)
    ensures Unpack(ks, Pack(ks, vals, off, pack), off, pack) == vals
  {
    CutSpread(Pads(ks, off, pack), Encodes(ks, vals));
    DecodesEncodes(ks, vals);
  }

  /** The image of two member lists in a row is the image of the first
      followed by the image of the second from where the first ends. */
  lemma {:induction false} PackAppend(a: seq<Scalar>, b: seq<Scalar>, va: seq<int>, vb: seq<int>, off: nat, pack: nat)
    requires |a| == |va| && |b| == |vb|
    ensures Pack(a + b, va + vb, off, pack) == Pack(a, va, off, pack) + Pack(b, vb, LayoutEnd(a, off, pack), pack)
  {
    EncodesAppend(a, b, va, vb);
    PadsAppend(a, b, off, pack);
    SpreadAppend(Pads(a, off, pack), Pads(b, LayoutEnd(a, off, pack), pack), Encodes(a, va), Encodes(b, vb));
  }

  /** The gap before the first member of an image is zero bytes. */
  lemma {:induction false} PackFirstGap(ks: seq<Scalar>, vals: seq<int>, off: nat, pack: nat)
    requires |ks| == |vals| && ks != []
    ensures PadTo(off, AlignOf(ks[0], pack)) <= |Pack(ks, vals, off, pack)|
    ensures Pack(ks, vals, off, pack)[..PadTo(off, AlignOf(ks[0], pack))] == Zeros(PadTo(off, AlignOf(ks[0], pack)))
  {
    var p := PadTo(off, AlignOf(ks[0], pack));
    var imgs := Encodes(ks, vals);
    assert Pads(ks, off, pack)[0] == p;
    var bs := Spread(Pads(ks, off, pack), imgs);
    assert bs == Zeros(p) + imgs[0] + Spread(Pads(ks, off, pack)[1..], imgs[1..]);
  }
}
