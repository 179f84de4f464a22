/** `.pcode' entries: two bytes of flags and execution address, one of flags,
    and as many operand bytes as those flags say. */
module Pcode {
  import opened Bits
  import opened Wrappers
  import opened Framing
  import opened Relocation
  import opened GasEmit

  datatype Mode = DirectWord | DirectByte | DirectSwap | DirectShl8 | IndirectWord | IndirectByte | IndirectSwap

  datatype Operand = Operand(ex: Expr, mode: Mode)

  /** One line of the directive. */
  datatype Line = Line(exec: Expr, op1: Operand, op2: Operand, op3: Operand)

  // ------------------------------------------------------------- flags

  /** The flags a word operand contributes for its upper and lower byte. */
  function WordFlags(first: bool, second: bool): bv16
  {
    (if first then 0x80 else 0) | (if second then 0x40 else 0)
  }

  /** decodePcodeOperand (): the flags, and whether the operand was refused. */
  function OperandFlags(o: Operand, swapable: bool): (bv16, bool)
  {
    var indirect: bv16 := if o.mode in {IndirectWord, IndirectByte, IndirectSwap} then 0x8000 else 0;
    match o.mode
    case DirectByte | IndirectWord | IndirectByte =>
      (match o.ex
       case Constant(v) => (indirect | WordFlags(false, Low8(v) != 0), !CheckRange(v, ModeImm8))
       case _ => (indirect | 0x40, false))
    case IndirectSwap =>
      (match o.ex
       case Constant(v) => (indirect | WordFlags(false, Low8(v) != 0) | 0x02, !CheckRange(v, ModeImm8))
       case _ => (indirect | 0x42, !swapable))
    case DirectShl8 =>
      (match o.ex
       case Constant(v) => (WordFlags(Low8(v) != 0, false), !CheckRange(v, ModeImm8))
       case _ => (0x80, false))
    case DirectWord =>
      (match o.ex
       case Constant(v) => (WordFlags(High8(v) != 0, Low8(v) != 0), !CheckRange(v, ModeImm16))
       case _ => (0xC0, false))
    case DirectSwap =>
      (match o.ex
       case Constant(v) => (WordFlags(Low8(v) != 0, High8(v) != 0) | 0x02, !CheckRange(v, ModeImm16))
       case _ => (0xC2, !swapable))
  }

  /** The flags of the three operands packed as i51_pcode () packs them. */
  function Packed(f1: bv16, f2: bv16, f3: bv16): bv16
  {
    f1 | ((f2 & 0x00C0) >> 2) | ((f2 & 0x8000) >> 1)
       | ((f3 & 0x00C0) >> 4) | ((f3 & 0x8000) >> 2) | ((f3 & 0x0002) >> 1)
  }

  function Bit(w: bv16, mask: bv16): nat { if w & mask != 0 then 1 else 0 }

  /** pflags & 0xFF, as a byte. */
  function FlagByte(w: bv16): byte
  {
    128 * Bit(w, 0x80) + 64 * Bit(w, 0x40) + 32 * Bit(w, 0x20) + 16 * Bit(w, 0x10)
    + 8 * Bit(w, 0x08) + 4 * Bit(w, 0x04) + 2 * Bit(w, 0x02) + Bit(w, 0x01)
  }

  /** The upper byte of (pflags & 0xE000) | (address & 0x1FFF). */
  function ExecHigh(w: bv16, address: int): byte
  {
    128 * Bit(w, 0x8000) + 64 * Bit(w, 0x4000) + 32 * Bit(w, 0x2000) + address / 0x100 % 32
  }

  // ------------------------------------------------------------- bytes

  function Maybe(b: byte): seq<byte> { if b != 0 then [b] else [] }

  /** writePcodeOperand () with the frag at position AT. */
  function OperandBytes(at: nat, o: Operand): Emission
  {
    match o.mode
    case DirectByte | DirectShl8 | IndirectWord | IndirectSwap =>
      (match o.ex
       case Constant(v) => Emission(Maybe(Low8(v)), [], false)
       case _ => Emission([0], [Fix(at, 1, o.ex, false, Byte8)], false))
    case IndirectByte =>
      (match o.ex
       case Constant(v) => Emission(if Low8(v) != 0 then [Low8(v - 1)] else [], [], false)
       case _ => Emission([0xFF], [Fix(at, 1, o.ex, false, Byte8)], false))
    case DirectWord =>
      (match o.ex
       case Constant(v) => Emission(Maybe(High8(v)) + Maybe(Low8(v)), [], false)
       case _ => Emission([0, 0], [Fix(at, 2, o.ex, false, Word16)], false))
    case DirectSwap =>
      (match o.ex
       case Constant(v) => Emission(Maybe(Low8(v)) + Maybe(High8(v)), [], false)
       case _ => Emission([0, 0], [Fix(at, 2, o.ex, false, Word16)], false))
  }

  /** The execution address with the flags over it. */
  function ExecBytes(at: nat, exec: Expr, w: bv16): (e: Emission)
    ensures |e.bytes| == 2
  {
    match exec
    case Constant(v) => Emission([ExecHigh(w, v), Low8(v)], [], v > 0x1FFF || v < 0x0100)
    case Symbolic(_, _) => Emission([ExecHigh(w, 0), 0], [Fix(at, 2, exec, false, Pcode13)], false)
    case Register => Emission([0, 0], [], true)
  }

  function LineFlags(l: Line): (bv16, bool)
  {
    var (f1, bad1) := OperandFlags(l.op1, true);
    var (f2, bad2) := OperandFlags(l.op2, false);
    var (f3, bad3) := OperandFlags(l.op3, true);
    (Packed(f1, f2, f3), bad1 || bad2 || bad3)
  }

  /** The three bytes every entry starts with. */
  function Head(at: nat, l: Line): (e: Emission)
    ensures |e.bytes| == 3
  {
    var (w, bad) := LineFlags(l);
    Then(ExecBytes(at, l.exec, w), Emission([FlagByte(w)], [], bad))
  }

  /** i51_pcode () with the frag at position AT. */
  function EmitLine(at: nat, l: Line): Emission
  {
    var e1 := OperandBytes(at + 3, l.op1);
    var e2 := OperandBytes(at + 3 + |e1.bytes|, l.op2);
    var e3 := OperandBytes(at + 3 + |e1.bytes| + |e2.bytes|, l.op3);
    Then(Then(Then(Head(at, l), e1), e2), e3)
  }

  method WriteOperand(f: Frag, o: Operand)
    modifies f
    ensures f.Grown(old(f.literal), old(f.fixes), old(f.bad), OperandBytes(|old(f.literal)|, o))
  {
    match o.mode {
      case DirectByte | DirectShl8 | IndirectWord | IndirectSwap =>
        if o.ex.Constant? {
          if Low8(o.ex.v) != 0 { f.literal := f.literal + [Low8(o.ex.v)]; }
        } else {
          f.fixes := f.fixes + [Fix(|f.literal|, 1, o.ex, false, Byte8)];
          f.literal := f.literal + [0];
        }
      case IndirectByte =>
        if o.ex.Constant? {
          if Low8(o.ex.v) != 0 { f.literal := f.literal + [Low8(o.ex.v - 1)]; }
        } else {
          f.fixes := f.fixes + [Fix(|f.literal|, 1, o.ex, false, Byte8)];
          f.literal := f.literal + [0xFF];
        }
      case DirectWord =>
        if o.ex.Constant? {
          if High8(o.ex.v) != 0 { f.literal := f.literal + [High8(o.ex.v)]; }
          if Low8(o.ex.v) != 0 { f.literal := f.literal + [Low8(o.ex.v)]; }
        } else {
          f.fixes := f.fixes + [Fix(|f.literal|, 2, o.ex, false, Word16)];
          f.literal := f.literal + [0, 0];
        }
      case DirectSwap =>
        if o.ex.Constant? {
          if Low8(o.ex.v) != 0 { f.literal := f.literal + [Low8(o.ex.v)]; }
          if High8(o.ex.v) != 0 { f.literal := f.literal + [High8(o.ex.v)]; }
        } else {
          f.fixes := f.fixes + [Fix(|f.literal|, 2, o.ex, false, Word16)];
          f.literal := f.literal + [0, 0];
        }
    }
  }

  method WriteExec(f: Frag, exec: Expr, w: bv16)
    modifies f
    ensures f.Grown(old(f.literal), old(f.fixes), old(f.bad), ExecBytes(|old(f.literal)|, exec, w))
  {
    match exec {
      case Constant(v) =>
        if v > 0x1FFF { f.bad := true; }
        if v < 0x0100 { f.bad := true; }
        f.literal := f.literal + [ExecHigh(w, v), Low8(v)];
      case Symbolic(_, _) =>
        f.fixes := f.fixes + [Fix(|f.literal|, 2, exec, false, Pcode13)];
        f.literal := f.literal + [ExecHigh(w, 0), 0];
      case Register =>
        f.bad := true;
        f.literal := f.literal + [0, 0];
    }
  }

  method WriteHead(f: Frag, l: Line)
    modifies f
    ensures f.Grown(old(f.literal), old(f.fixes), old(f.bad), Head(|old(f.literal)|, l))
  {
    hide LineFlags, FlagByte, ExecBytes;
    var (w, refused) := LineFlags(l);
    f.bad := f.bad || refused;
    WriteExec(f, l.exec, w);
    f.literal := f.literal + [FlagByte(w)];
  }

  /** i51_pcode () once its line is parsed. */
  method WriteLine(f: Frag, l: Line)
    modifies f
    ensures f.Grown(old(f.literal), old(f.fixes), old(f.bad), EmitLine(|old(f.literal)|, l))
  {
    hide Head, OperandBytes;
    ghost var lit, fixes, bad := f.literal, f.fixes, f.bad;
    WriteHead(f, l);
    ghost var e := Head(|lit|, l);
    WriteOperand(f, l.op1);
    e := Then(e, OperandBytes(|lit| + 3, l.op1));
    assert f.Grown(lit, fixes, bad, e);
    WriteOperand(f, l.op2);
    e := Then(e, OperandBytes(|lit| + |e.bytes|, l.op2));
    assert f.Grown(lit, fixes, bad, e);
    WriteOperand(f, l.op3);
  }

  // ---------------------------------------------------- reading an entry

  /** The bytes of an operand: the one its first allocation bit stands for and
      the one its second does. */
  datatype Data = Data(first: Option<byte>, second: Option<byte>)

  datatype Entry = Entry(exec: nat, ind1: bool, ind2: bool, ind3: bool, swap1: bool, swap3: bool,
                         d1: Data, d2: Data, d3: Data)

  /** The operand at POS of MEM with these allocation bits; its length. */
  function TakeData(mem: seq<byte>, pos: nat, first: bool, second: bool): Option<(Data, nat)>
  {
    var n := (if first then 1 else 0) + (if second then 1 else 0);
    if pos + n > |mem| then None
    else Some((Data(if first then Some(mem[pos]) else None, if second then Some(mem[pos + n - 1]) else None), n))
  }

  predicate BitSet(b: byte, weight: nat)
    requires weight > 0
  {
    b / weight % 2 == 1
  }

  /** An entry at the head of MEM, by its flags alone. */
  function SplitEntry(mem: seq<byte>, addr: nat): Option<(Entry, nat)>
  {
    if |mem| < 3 then None
    else
      var x, f := mem[0], mem[2];
      match TakeData(mem, 3, BitSet(f, 128), BitSet(f, 64))
      case None => None
      case Some((d1, n1)) =>
        match TakeData(mem, 3 + n1, BitSet(f, 32), BitSet(f, 16))
        case None => None
        case Some((d2, n2)) =>
          match TakeData(mem, 3 + n1 + n2, BitSet(f, 8), BitSet(f, 4))
          case None => None
          case Some((d3, n3)) =>
            Some((Entry(Word(x % 32, mem[1]), BitSet(x, 128), BitSet(x, 64), BitSet(x, 32),
                        BitSet(f, 2), BitSet(f, 1), d1, d2, d3), 3 + n1 + n2 + n3))
  }

  // --------------------------------------- flags describe what follows

  predicate First(o: Operand, swapable: bool) { OperandFlags(o, swapable).0 & 0x80 != 0 }
  predicate Second(o: Operand, swapable: bool) { OperandFlags(o, swapable).0 & 0x40 != 0 }

  function Allocated(o: Operand, swapable: bool): nat
  {
    (if First(o, swapable) then 1 else 0) + (if Second(o, swapable) then 1 else 0)
  }

  /** In every mode, for constants and symbols, an operand is as long as its two
      allocation bits say; its other flags are its indirection and its swap, and
      no flag lies outside the four. */
  lemma OperandFlagsDescribe(o: Operand, swapable: bool, at: nat)
    ensures |OperandBytes(at, o).bytes| == Allocated(o, swapable)
    ensures var f := OperandFlags(o, swapable).0;
            && f & 0x7F3D == 0
            && (f & 0x8000 != 0 <==> o.mode in {IndirectWord, IndirectByte, IndirectSwap})
            && (f & 0x0002 != 0 <==> o.mode in {DirectSwap, IndirectSwap})
  {
    hide Allocated, OperandBytes, OperandFlags;
    OperandLength(o, swapable, at);
    OperandOtherFlags(o, swapable);
  }

  lemma OperandLength(o: Operand, swapable: bool, at: nat)
    ensures |OperandBytes(at, o).bytes| == Allocated(o, swapable)
  {
  }

  lemma OperandOtherFlags(o: Operand, swapable: bool)
    ensures var f := OperandFlags(o, swapable).0;
            && f & 0x7F3D == 0
            && (f & 0x8000 != 0 <==> o.mode in {IndirectWord, IndirectByte, IndirectSwap})
            && (f & 0x0002 != 0 <==> o.mode in {DirectSwap, IndirectSwap})
  {
  }

  /** The packing keeps the flags of the three operands apart. */
  lemma PackedBits(f1: bv16, f2: bv16, f3: bv16)
    requires f1 & 0x7F3D == 0 && f2 & 0x7F3D == 0 && f3 & 0x7F3D == 0
    ensures var w := Packed(f1, f2, f3);
            && (w & 0x80 != 0 <==> f1 & 0x80 != 0) && (w & 0x40 != 0 <==> f1 & 0x40 != 0)
            && (w & 0x20 != 0 <==> f2 & 0x80 != 0) && (w & 0x10 != 0 <==> f2 & 0x40 != 0)
            && (w & 0x08 != 0 <==> f3 & 0x80 != 0) && (w & 0x04 != 0 <==> f3 & 0x40 != 0)
            && (w & 0x02 != 0 <==> f1 & 0x02 != 0) && (w & 0x01 != 0 <==> f3 & 0x02 != 0)
            && (w & 0x8000 != 0 <==> f1 & 0x8000 != 0) && (w & 0x4000 != 0 <==> f2 & 0x8000 != 0)
            && (w & 0x2000 != 0 <==> f3 & 0x8000 != 0)
  {
  }

  lemma FlagByteBits(w: bv16)
    ensures var f := FlagByte(w);
            && (BitSet(f, 128) <==> w & 0x80 != 0) && (BitSet(f, 64) <==> w & 0x40 != 0)
            && (BitSet(f, 32) <==> w & 0x20 != 0) && (BitSet(f, 16) <==> w & 0x10 != 0)
            && (BitSet(f, 8) <==> w & 0x08 != 0) && (BitSet(f, 4) <==> w & 0x04 != 0)
            && (BitSet(f, 2) <==> w & 0x02 != 0) && (BitSet(f, 1) <==> w & 0x01 != 0)
  {
    var a, b, c, d := Bit(w, 0x80), Bit(w, 0x40), Bit(w, 0x20), Bit(w, 0x10);
    var e, f, g, h := Bit(w, 0x08), Bit(w, 0x04), Bit(w, 0x02), Bit(w, 0x01);
    FlagBits(w, a, b, c, d, e, f, g, h);
    ByteOfBits(a, b, c, d, e, f, g, h);
    assert FlagByte(w) == 128 * a + 64 * b + 32 * c + 16 * d + 8 * e + 4 * f + 2 * g + h;
    hide FlagByte, Bit;
  }

  lemma FlagBits(w: bv16, a: nat, b: nat, c: nat, d: nat, e: nat, f: nat, g: nat, h: nat)
    requires a == Bit(w, 0x80) && b == Bit(w, 0x40) && c == Bit(w, 0x20) && d == Bit(w, 0x10)
    requires e == Bit(w, 0x08) && f == Bit(w, 0x04) && g == Bit(w, 0x02) && h == Bit(w, 0x01)
    ensures a <= 1 && b <= 1 && c <= 1 && d <= 1 && e <= 1 && f <= 1 && g <= 1 && h <= 1
    ensures (a == 1 <==> w & 0x80 != 0) && (b == 1 <==> w & 0x40 != 0) && (c == 1 <==> w & 0x20 != 0)
    ensures (d == 1 <==> w & 0x10 != 0) && (e == 1 <==> w & 0x08 != 0) && (f == 1 <==> w & 0x04 != 0)
    ensures (g == 1 <==> w & 0x02 != 0) && (h == 1 <==> w & 0x01 != 0)
  {
  }

  lemma ByteOfBits(a: nat, b: nat, c: nat, d: nat, e: nat, f: nat, g: nat, h: nat)
    requires a <= 1 && b <= 1 && c <= 1 && d <= 1 && e <= 1 && f <= 1 && g <= 1 && h <= 1
    ensures var s := 128 * a + 64 * b + 32 * c + 16 * d + 8 * e + 4 * f + 2 * g + h;
            && s / 128 % 2 == a && s / 64 % 2 == b && s / 32 % 2 == c && s / 16 % 2 == d
            && s / 8 % 2 == e && s / 4 % 2 == f && s / 2 % 2 == g && s / 1 % 2 == h
  {
    var s := 128 * a + 64 * b + 32 * c + 16 * d + 8 * e + 4 * f + 2 * g + h;
    assert s / 128 == a;
    assert s / 64 == 2 * a + b;
    assert s / 32 == 4 * a + 2 * b + c;
    assert s / 16 == 8 * a + 4 * b + 2 * c + d;
    assert s / 8 == 16 * a + 8 * b + 4 * c + 2 * d + e;
    assert s / 4 == 32 * a + 16 * b + 8 * c + 4 * d + 2 * e + f;
    assert s / 2 == 64 * a + 32 * b + 16 * c + 8 * d + 4 * e + 2 * f + g;
  }

  lemma ExecHighBits(w: bv16, v: int)
    ensures var x := ExecHigh(w, v);
            && (BitSet(x, 128) <==> w & 0x8000 != 0) && (BitSet(x, 64) <==> w & 0x4000 != 0)
            && (BitSet(x, 32) <==> w & 0x2000 != 0) && x % 32 == v / 0x100 % 32
  {
    var a, b, c, r := Bit(w, 0x8000), Bit(w, 0x4000), Bit(w, 0x2000), v / 0x100 % 32;
    var x := 128 * a + 64 * b + 32 * c + r;
    assert x / 32 == 4 * a + 2 * b + c && x % 32 == r;
    assert x / 64 == 2 * a + b && x / 128 == a;
  }

  // ------------------------------------------------------ self-delimiting

  /** An operand's bytes under its allocation bits. */
  function DataOf(o: Operand, swapable: bool): Data
    requires |OperandBytes(0, o).bytes| == Allocated(o, swapable)
  {
    var b := OperandBytes(0, o).bytes;
    Data(if First(o, swapable) then Some(b[0]) else None, if Second(o, swapable) then Some(b[|b| - 1]) else None)
  }

  predicate IsIndirect(o: Operand) { o.mode in {IndirectWord, IndirectByte, IndirectSwap} }
  predicate IsSwapped(o: Operand) { o.mode in {DirectSwap, IndirectSwap} }

  /** What an entry says, whatever follows it. */
  function EntryOf(l: Line): Entry
  {
    OperandFlagsDescribe(l.op1, true, 0);
    OperandFlagsDescribe(l.op2, false, 0);
    OperandFlagsDescribe(l.op3, true, 0);
    Entry(if l.exec.Constant? then l.exec.v % 0x2000 else 0,
          IsIndirect(l.op1), IsIndirect(l.op2), IsIndirect(l.op3), IsSwapped(l.op1), IsSwapped(l.op3),
          DataOf(l.op1, true), DataOf(l.op2, false), DataOf(l.op3, true))
  }

  /** A line assembled on its own; None when it is refused. */
  function Assemble(l: Line, addr: nat): Option<seq<byte>>
  {
    var e := EmitLine(0, l);
    if e.bad then None else Some(e.bytes)
  }

  /** The flag bits of an entry are those of its operands. */
  lemma HeadBits(l: Line)
    requires !l.exec.Register?
    ensures var h := Head(0, l).bytes;
            && (BitSet(h[2], 128) <==> First(l.op1, true)) && (BitSet(h[2], 64) <==> Second(l.op1, true))
            && (BitSet(h[2], 32) <==> First(l.op2, false)) && (BitSet(h[2], 16) <==> Second(l.op2, false))
            && (BitSet(h[2], 8) <==> First(l.op3, true)) && (BitSet(h[2], 4) <==> Second(l.op3, true))
            && (BitSet(h[2], 2) <==> IsSwapped(l.op1)) && (BitSet(h[2], 1) <==> IsSwapped(l.op3))
            && (BitSet(h[0], 128) <==> IsIndirect(l.op1)) && (BitSet(h[0], 64) <==> IsIndirect(l.op2))
            && (BitSet(h[0], 32) <==> IsIndirect(l.op3))
            && Word(h[0] % 32, h[1]) == (if l.exec.Constant? then l.exec.v % 0x2000 else 0)
  {
    var w := LineFlags(l).0;
    var v := if l.exec.Constant? then l.exec.v else 0;
    HeadIs(l, w, v);
    LineFlagBits(l);
    hide LineFlags, Head, FlagByte, ExecHigh, BitSet, First, Second;
    FlagByteBits(w);
    ExecHighBits(w, v);
    ThirteenBits(v);
  }

  lemma HeadIs(l: Line, w: bv16, v: int)
    requires !l.exec.Register? && w == LineFlags(l).0 && v == (if l.exec.Constant? then l.exec.v else 0)
    ensures Head(0, l).bytes == [ExecHigh(w, v), Low8(v), FlagByte(w)]
  {
    hide LineFlags, FlagByte, ExecHigh;
  }

  lemma LineFlagBits(l: Line)
    ensures var w := LineFlags(l).0;
            && (w & 0x80 != 0 <==> First(l.op1, true)) && (w & 0x40 != 0 <==> Second(l.op1, true))
            && (w & 0x20 != 0 <==> First(l.op2, false)) && (w & 0x10 != 0 <==> Second(l.op2, false))
            && (w & 0x08 != 0 <==> First(l.op3, true)) && (w & 0x04 != 0 <==> Second(l.op3, true))
            && (w & 0x02 != 0 <==> IsSwapped(l.op1)) && (w & 0x01 != 0 <==> IsSwapped(l.op3))
            && (w & 0x8000 != 0 <==> IsIndirect(l.op1)) && (w & 0x4000 != 0 <==> IsIndirect(l.op2))
            && (w & 0x2000 != 0 <==> IsIndirect(l.op3))
  {
    hide OperandFlags, OperandBytes, Packed;
    OperandFlagsDescribe(l.op1, true, 0);
    OperandFlagsDescribe(l.op2, false, 0);
    OperandFlagsDescribe(l.op3, true, 0);
    PackedBits(OperandFlags(l.op1, true).0, OperandFlags(l.op2, false).0, OperandFlags(l.op3, true).0);
  }

  lemma ThirteenBits(v: int)
    ensures Word(v / 0x100 % 32, Low8(v)) == v % 0x2000
  {
  }

  /** Taking an operand's bytes from where they were written. */
  lemma TakesOperand(pre: seq<byte>, o: Operand, swapable: bool, at: nat, post: seq<byte>)
    requires |OperandBytes(0, o).bytes| == Allocated(o, swapable)
    ensures OperandBytes(at, o).bytes == OperandBytes(0, o).bytes
    ensures TakeData(pre + OperandBytes(at, o).bytes + post, |pre|, First(o, swapable), Second(o, swapable))
            == Some((DataOf(o, swapable), Allocated(o, swapable)))
  {
    OperandBytesAt(o, at);
    hide OperandFlags, OperandBytes;
    var b := OperandBytes(0, o).bytes;
    var mem := pre + b + post;
    if |b| > 0 {
      assert mem[|pre|] == b[0] && mem[|pre| + |b| - 1] == b[|b| - 1];
    }
  }

  lemma OperandBytesAt(o: Operand, at: nat)
    ensures OperandBytes(at, o).bytes == OperandBytes(0, o).bytes
  {
  }

  /** The bytes of three operands after a head H. */
  function Operands3(l: Line): seq<byte>
  {
    OperandBytes(0, l.op1).bytes + OperandBytes(0, l.op2).bytes + OperandBytes(0, l.op3).bytes
  }

  predicate Described(l: Line)
  {
    && |OperandBytes(0, l.op1).bytes| == Allocated(l.op1, true)
    && |OperandBytes(0, l.op2).bytes| == Allocated(l.op2, false)
    && |OperandBytes(0, l.op3).bytes| == Allocated(l.op3, true)
  }

  lemma EveryLineDescribed(l: Line)
    ensures Described(l)
  {
    OperandFlagsDescribe(l.op1, true, 0);
    OperandFlagsDescribe(l.op2, false, 0);
    OperandFlagsDescribe(l.op3, true, 0);
  }

  lemma LineBytes(l: Line)
    ensures EmitLine(0, l).bytes == Head(0, l).bytes + Operands3(l)
  {
    hide OperandBytes, Head;
    var b1 := OperandBytes(3, l.op1).bytes;
    OperandBytesAt(l.op1, 3);
    var b2 := OperandBytes(3 + |b1|, l.op2).bytes;
    OperandBytesAt(l.op2, 3 + |b1|);
    OperandBytesAt(l.op3, 3 + |b1| + |b2|);
  }

  lemma TakesAll(h: seq<byte>, l: Line, tail: seq<byte>)
    requires |h| == 3 && Described(l)
    ensures var mem := h + Operands3(l) + tail;
            var n1, n2 := Allocated(l.op1, true), Allocated(l.op2, false);
            && TakeData(mem, 3, First(l.op1, true), Second(l.op1, true)) == Some((DataOf(l.op1, true), n1))
            && TakeData(mem, 3 + n1, First(l.op2, false), Second(l.op2, false)) == Some((DataOf(l.op2, false), n2))
            && TakeData(mem, 3 + n1 + n2, First(l.op3, true), Second(l.op3, true))
               == Some((DataOf(l.op3, true), Allocated(l.op3, true)))
  {
    hide OperandBytes, OperandFlags, TakeData, DataOf, First, Second, Allocated;
    var b1, b2, b3 := OperandBytes(0, l.op1).bytes, OperandBytes(0, l.op2).bytes, OperandBytes(0, l.op3).bytes;
    Layout(h, b1, b2, b3, tail);
    assert h + Operands3(l) + tail == h + b1 + b2 + b3 + tail;
    TakesOperand(h, l.op1, true, 0, b2 + b3 + tail);
    TakesOperand(h + b1, l.op2, false, 0, b3 + tail);
    TakesOperand(h + b1 + b2, l.op3, true, 0, tail);
  }

  /** An accepted line is read back whole in front of any bytes. */
  lemma EntryDelimitsItself(l: Line, tail: seq<byte>)
    requires Assemble(l, 0).Some?
    ensures var b := Assemble(l, 0).value;
            |b| >= 3 && SplitEntry(b + tail, 0) == Some((EntryOf(l), |b|))
  {
    NotRegister(l);
    LineBytes(l);
    EveryLineDescribed(l);
    EntryIs(l);
    HeadBits(l);
    LineLength(l);
    hide OperandBytes, OperandFlags, Head, TakeData, DataOf, BitSet, First, Second, EmitLine, SplitEntry,
         EntryOf, Allocated, IsIndirect, IsSwapped, Described, Operands3;
    var h := Head(0, l).bytes;
    TakesAll(h, l, tail);
    var mem := h + Operands3(l) + tail;
    assert mem[0] == h[0] && mem[1] == h[1] && mem[2] == h[2];
    SplitFrom(mem, DataOf(l.op1, true), Allocated(l.op1, true), DataOf(l.op2, false), Allocated(l.op2, false),
              DataOf(l.op3, true), Allocated(l.op3, true));
  }

  lemma LineLength(l: Line)
    requires Described(l)
    ensures |Operands3(l)| == Allocated(l.op1, true) + Allocated(l.op2, false) + Allocated(l.op3, true)
  {
    hide OperandBytes, OperandFlags, First, Second;
  }

  lemma EntryIs(l: Line)
    requires Described(l)
    ensures EntryOf(l)
         == Entry(if l.exec.Constant? then l.exec.v % 0x2000 else 0,
                  IsIndirect(l.op1), IsIndirect(l.op2), IsIndirect(l.op3), IsSwapped(l.op1), IsSwapped(l.op3),
                  DataOf(l.op1, true), DataOf(l.op2, false), DataOf(l.op3, true))
  {
    hide OperandBytes, OperandFlags, DataOf, First, Second;
  }

  lemma Layout(h: seq<byte>, b1: seq<byte>, b2: seq<byte>, b3: seq<byte>, tail: seq<byte>)
    ensures var mem := h + b1 + b2 + b3 + tail;
            mem == h + b1 + (b2 + b3 + tail) == (h + b1) + b2 + (b3 + tail) == (h + b1 + b2) + b3 + tail
    ensures forall i :: 0 <= i < |h| ==> (h + b1 + b2 + b3 + tail)[i] == h[i]
  {
  }

  lemma SplitFrom(mem: seq<byte>, d1: Data, n1: nat, d2: Data, n2: nat, d3: Data, n3: nat)
    requires |mem| >= 3
    requires TakeData(mem, 3, BitSet(mem[2], 128), BitSet(mem[2], 64)) == Some((d1, n1))
    requires TakeData(mem, 3 + n1, BitSet(mem[2], 32), BitSet(mem[2], 16)) == Some((d2, n2))
    requires TakeData(mem, 3 + n1 + n2, BitSet(mem[2], 8), BitSet(mem[2], 4)) == Some((d3, n3))
    ensures SplitEntry(mem, 0)
            == Some((Entry(Word(mem[0] % 32, mem[1]), BitSet(mem[0], 128), BitSet(mem[0], 64), BitSet(mem[0], 32),
                           BitSet(mem[2], 2), BitSet(mem[2], 1), d1, d2, d3), 3 + n1 + n2 + n3))
  {
    hide TakeData, BitSet;
  }

  lemma NotRegister(l: Line)
    requires !EmitLine(0, l).bad
    ensures !l.exec.Register?
  {
  }

  /** Any concatenation of entries splits back, uniquely, into what each says. */
  lemma EntriesSplitBack(ls: seq<Line>, addr: nat)
    requires WriteAll(Assemble, ls, addr).Some?
    ensures ReadAll(SplitEntry, WriteAll(Assemble, ls, addr).value, addr) == Some(MapSeq(EntryOf, ls))
  {
    hide Assemble, SplitEntry, EntryOf;
    forall l: Line, a: nat, tail: seq<byte>
      ensures ReadsItem(Assemble, SplitEntry, EntryOf, l, a, tail)
    {
      AddressFree(l, a, tail);
      if Assemble(l, a).Some? { EntryDelimitsItself(l, tail); }
    }
    ReadAllAfterWriteAll(Assemble, SplitEntry, EntryOf, ls, addr);
  }

  lemma AddressFree(l: Line, a: nat, tail: seq<byte>)
    ensures Assemble(l, a) == Assemble(l, 0)
    ensures forall mem :: SplitEntry(mem, a) == SplitEntry(mem, 0)
  {
  }

  // ----------------------------------------------------- what operands mean

  function Byte0(b: Option<byte>): byte { match b case Some(x) => x case None => 0 }

  /** The bytes of a constant give its value back, in the way of its mode. */
  lemma OperandMeans(o: Operand, swapable: bool)
    requires o.ex.Constant?
    ensures |OperandBytes(0, o).bytes| == Allocated(o, swapable)
    ensures var v, d := o.ex.v, DataOf(o, swapable);
            var w := Word(Byte0(d.first), Byte0(d.second));
            match o.mode
            case DirectWord => w == v % 0x10000
            case DirectSwap => w == Word(Low8(v), High8(v))
            case DirectShl8 => w == v % 0x100 * 0x100
            case DirectByte | IndirectWord | IndirectSwap => w == v % 0x100
            case IndirectByte => if d.second.Some? then d.second.value == (v - 1) % 0x100 else v % 0x100 == 0
  {
    OperandFlagsDescribe(o, swapable, 0);
    WordBack(o.ex.v);
  }

  /** A symbol has the flags of a value neither of whose bytes is 0. */
  lemma FlagsOfSymbol(mode: Mode, ex: Expr, swapable: bool)
    requires !ex.Constant?
    ensures OperandFlags(Operand(ex, mode), swapable).0 == OperandFlags(Operand(Constant(0x0101), mode), swapable).0
  {
  }

  // ------------------------------------------------------------ what is refused

  /** A constant outside what its mode can hold: a byte, or a word for the two word
      modes; or a symbol to be swapped in the operand that has no swap flag. */
  predicate BadOperand(o: Operand, swapable: bool)
  {
    match o.ex
    case Constant(v) =>
      if o.mode in {DirectWord, DirectSwap} then !(-65536 <= v <= 65535) else !(-128 <= v <= 255)
    case _ => !swapable && o.mode in {DirectSwap, IndirectSwap}
  }

  predicate BadExec(ex: Expr) { ex.Register? || (ex.Constant? && !(0x100 <= ex.v <= 0x1FFF)) }

  /** A line is refused for its address or for one of its operands, of which only
      the second cannot be swapped, and for nothing else. */
  lemma RefusedLines(at: nat, l: Line)
    ensures EmitLine(at, l).bad
       <==> BadExec(l.exec) || BadOperand(l.op1, true) || BadOperand(l.op2, false) || BadOperand(l.op3, true)
  {
    RefusedOperand(l.op1, true, at + 3);
    RefusedOperand(l.op2, false, at + 3);
    RefusedOperand(l.op3, true, at + 3);
    hide OperandFlags, OperandBytes, ExecHigh, FlagByte, Packed, BadOperand;
    var e1 := OperandBytes(at + 3, l.op1);
    var e2 := OperandBytes(at + 3 + |e1.bytes|, l.op2);
    NeverRefused(l.op1, at + 3);
    NeverRefused(l.op2, at + 3 + |e1.bytes|);
    NeverRefused(l.op3, at + 3 + |e1.bytes| + |e2.bytes|);
  }

  lemma RefusedOperand(o: Operand, swapable: bool, at: nat)
    ensures OperandFlags(o, swapable).1 <==> BadOperand(o, swapable)
  {
  }

  lemma NeverRefused(o: Operand, at: nat)
    ensures !OperandBytes(at, o).bad
  {
  }
}
