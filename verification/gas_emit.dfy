/** What the assembler emits for one instruction: the bytes, the fixups left
    for md_apply_fix () and whether a diagnostic was printed.  The methods of
    Frag append to the frag the way fixup8/11/16 () and i51_build_ins () do;
    the Emit functions are their specification. */
module GasEmit {
  import opened Bits
  import opened Relocation
  import opened OpcodeTable

  /** An operand expression: a constant, a register, or anything else. */
  datatype Expr = Constant(v: int) | Register | Symbolic(sym: nat, offset: int)

  datatype Prefix = NoPrefix | HighOf | LowOf | BitOf

  datatype ArgKind = NoKind | Direct | Immediate

  datatype Mode = ModeImm8 | ModeRel | ModeInpage | ModeImm16 | ModeBit

  datatype Fix = Fix(offset: nat, size: nat, ex: Expr, pcrel: bool, kind: Kind)

  datatype Emission = Emission(bytes: seq<byte>, fixes: seq<Fix>, bad: bool)

  function Then(a: Emission, b: Emission): Emission
  {
    Emission(a.bytes + b.bytes, a.fixes + b.fixes, a.bad || b.bad)
  }

  /** check_range () on an operand mode. */
  predicate CheckRange(num: int, mode: Mode)
  {
    match mode
    case ModeImm8 | ModeBit => -128 <= num <= 255
    case ModeRel => -128 <= num <= 127
    case ModeInpage | ModeImm16 => -65536 <= num <= 65535
  }

  /** check_range () on a HIGH or LOW prefix; the others name no range. */
  predicate CheckPrefix(num: int, prefix: Prefix)
  {
    match prefix
    case HighOf => -65536 <= num <= 65535
    case LowOf => true
    case _ => false
  }

  /** The byte a constant operand becomes, and whether it was refused. */
  function ConstantByte(v: int, mode: Mode, prefix: Prefix, b2bOffset: nat): (byte, bool)
  {
    match prefix
    case HighOf => (High8(v), !CheckPrefix(v, prefix))
    case LowOf => (Low8(v), !CheckPrefix(v, prefix))
    case BitOf =>
      if b2bOffset <= 7 && 0x20 <= v < 0x30 then ((v - 0x20) * 8 + b2bOffset, false)
      else if b2bOffset <= 7 && 0x80 <= v <= 0xF8 && v % 8 == 0 then (v + b2bOffset, false)
      else (0, true)
    case NoPrefix => (Low8(v), !CheckRange(v, mode))
  }

  /** The relocation of an 8-bit operand that is not a constant. */
  function OperandKind(mode: Mode, prefix: Prefix, kind: ArgKind): Kind
  {
    match mode
    case ModeRel => Pcrel7
    case ModeBit => if prefix == BitOf then B2b else Bit8
    case _ =>
      if prefix == NoPrefix && kind == Direct then Dir8
      else if prefix == NoPrefix && kind == Immediate then Imm8
      else if prefix == HighOf then High
      else if prefix == LowOf then Low
      else Byte8
  }

  /** fixup8 () with the frag at position AT. */
  function Emit8(at: nat, ex: Expr, mode: Mode, prefix: Prefix, kind: ArgKind, b2bOffset: nat): Emission
  {
    if ex.Constant? && mode != ModeRel then
      var (b, bad) := ConstantByte(ex.v, mode, prefix, b2bOffset);
      Emission([b], [], bad)
    else if ex.Register? then Emission([0], [], true)
    else
      var reloc := OperandKind(mode, prefix, kind);
      Emission([if reloc == B2b then Low8(b2bOffset) else 0],
               [Fix(at, 1, ex, mode == ModeRel, reloc)], false)
  }

  /** fixup11 () */
  function Emit11(at: nat, ex: Expr, opcode: byte): Emission
  {
    if ex.Register? then Emission([0, 0], [], true)
    else Emission([opcode, 0], [Fix(at, 2, ex, false, Abs11)],
                  ex.Constant? && !CheckRange(ex.v, ModeInpage))
  }

  /** fixup16 () */
  function Emit16(at: nat, ex: Expr): Emission
  {
    match ex
    case Constant(v) => Emission([High8(v), Low8(v)], [], !CheckRange(v, ModeImm16))
    case Register => Emission([0, 0], [], true)
    case Symbolic(_, _) => Emission([0, 0], [Fix(at, 2, ex, false, Word16)], false)
  }

  /** i51_arg_kind () */
  function KindOfArg(arg: char): ArgKind
  {
    if arg == 'D' then Direct else if arg == '#' then Immediate else NoKind
  }

  /** Everything i51_build_ins () takes besides the row. */
  datatype Operands = Operands(reg: nat, ex1: Expr, ex2: Expr, prefix1: Prefix, prefix2: Prefix, b2bOffset: nat)

  function Kinds(row: Row): (ArgKind, ArgKind)
  {
    var k1, k2 := KindOfArg(row.a0), KindOfArg(row.a1);
    if k1 == NoKind then (k2, NoKind) else (k1, k2)
  }

  /** The opcode byte with its register bits. */
  function OpcodeByte(row: Row, reg: nat): nat
  {
    if row.mreloc in {'I', 'i', 'X'} then BitOr(row.bin, reg % 2)
    else if row.mreloc in {'R', 'r', 'Y', 'W'} then BitOr(row.bin, reg % 8)
    else row.bin
  }

  predicate PrefixRefused(row: Row, o: Operands)
  {
    || (row.mreloc in {'7', 'W', '1', '6'} && o.prefix1 != NoPrefix)
    || (row.a1 == 'J' && o.prefix2 != NoPrefix)
  }

  /** i51_build_ins () with the frag at position AT. */
  function EmitIns(at: nat, row: Row, o: Operands): Emission
    requires OpcodeByte(row, o.reg) < 0x100
  {
    var (k1, k2) := Kinds(row);
    var op := Emission([OpcodeByte(row, o.reg)], [], false);
    if PrefixRefused(row, o) then Emission([], [], true)
    else if row.mreloc in {'N', 'I', 'R'} then op
    else if row.mreloc in {'D', 'i', 'r'} then
      Then(op, Emit8(at + 1, o.ex1, ModeImm8, o.prefix1, k1, o.b2bOffset))
    else if row.mreloc in {'7', 'W'} then
      Then(op, Emit8(at + 1, o.ex1, ModeRel, NoPrefix, NoKind, o.b2bOffset))
    else if row.mreloc == '1' then Emit11(at, o.ex1, OpcodeByte(row, o.reg))
    else if row.mreloc == 'B' then
      Then(op, Emit8(at + 1, o.ex1, ModeBit, o.prefix1, NoKind, o.b2bOffset))
    else if row.mreloc == 'd' then
      Then(op, Then(Emit8(at + 1, o.ex2, ModeImm8, o.prefix2, k2, o.b2bOffset),
                    Emit8(at + 2, o.ex1, ModeImm8, o.prefix1, k1, o.b2bOffset)))
    else if row.mreloc == 'a' then
      Then(op, Then(Emit8(at + 1, o.ex1, ModeImm8, o.prefix1, k1, o.b2bOffset),
                    Emit8(at + 2, o.ex2, ModeImm8, o.prefix2, k2, o.b2bOffset)))
    else if row.mreloc == 'J' then
      Then(op, Then(Emit8(at + 1, o.ex1, ModeBit, o.prefix1, NoKind, o.b2bOffset),
                    Emit8(at + 2, o.ex2, ModeRel, NoPrefix, NoKind, o.b2bOffset)))
    else if row.mreloc in {'X', 'Y', 'Z'} then
      Then(op, Then(Emit8(at + 1, o.ex1, ModeImm8, o.prefix1, k1, o.b2bOffset),
                    Emit8(at + 2, o.ex2, ModeRel, NoPrefix, NoKind, o.b2bOffset)))
    else if row.mreloc == '6' then Then(op, Emit16(at + 1, o.ex1))
    else Emission([], [], false)
  }

  /** The frag being filled, its fixups and had_errors (). */
  class Frag {
    var literal: seq<byte>
    var fixes: seq<Fix>
    var bad: bool

    constructor ()
      ensures literal == [] && fixes == [] && !bad
    {
      literal, fixes, bad := [], [], false;
    }

    /** The frag holds what it held at the time of BEFORE and E after it. */
    ghost predicate Grown(literal0: seq<byte>, fixes0: seq<Fix>, bad0: bool, e: Emission)
      reads this
    {
      literal == literal0 + e.bytes && fixes == fixes0 + e.fixes && bad == (bad0 || e.bad)
    }

    method Fixup8(ex: Expr, mode: Mode, prefix: Prefix, kind: ArgKind, b2bOffset: nat)
      modifies this
      ensures Grown(old(literal), old(fixes), old(bad),
                    Emit8(|old(literal)|, ex, mode, prefix, kind, b2bOffset))
    {
      var f := |literal|;
      literal := literal + [0];
      if ex.Constant? && mode != ModeRel {
        match prefix {
          case HighOf =>
            if !CheckPrefix(ex.v, prefix) { bad := true; }
            literal := literal[f := High8(ex.v)];
          case LowOf =>
            bad := bad || !CheckPrefix(ex.v, prefix);  // LOW has no range to leave
            literal := literal[f := Low8(ex.v)];
          case BitOf =>
            if b2bOffset <= 7 && 0x20 <= ex.v < 0x30 {
              literal := literal[f := (ex.v - 0x20) * 8 + b2bOffset];
            } else if b2bOffset <= 7 && 0x80 <= ex.v <= 0xF8 && ex.v % 8 == 0 {
              literal := literal[f := ex.v + b2bOffset];
            } else {
              bad := true;
            }
          case NoPrefix =>
            if !CheckRange(ex.v, mode) { bad := true; }
            literal := literal[f := Low8(ex.v)];
        }
      } else if !ex.Register? {
        var reloc := OperandKind(mode, prefix, kind);
        fixes := fixes + [Fix(f, 1, ex, mode == ModeRel, reloc)];
        if reloc == B2b { literal := literal[f := Low8(b2bOffset)]; }
      } else {
        bad := true;
      }
    }

    method Fixup11(ex: Expr, opcode: byte)
      modifies this
      ensures Grown(old(literal), old(fixes), old(bad), Emit11(|old(literal)|, ex, opcode))
    {
      var f := |literal|;
      literal := literal + [0, 0];
      if ex.Constant? && !CheckRange(ex.v, ModeInpage) { bad := true; }
      if !ex.Register? {
        fixes := fixes + [Fix(f, 2, ex, false, Abs11)];
        literal := literal[f := opcode];
      } else {
        bad := true;
      }
    }

    method Fixup16(ex: Expr)
      modifies this
      ensures Grown(old(literal), old(fixes), old(bad), Emit16(|old(literal)|, ex))
    {
      var f := |literal|;
      literal := literal + [0, 0];
      match ex {
        case Constant(v) =>
          if !CheckRange(v, ModeImm16) { bad := true; }
          literal := literal[f := High8(v)][f + 1 := Low8(v)];
        case Symbolic(_, _) =>
          fixes := fixes + [Fix(f, 2, ex, false, Word16)];
        case Register =>
          bad := true;
      }
    }

    method PutOpcode(opcode: byte)
      modifies this
      ensures Grown(old(literal), old(fixes), old(bad), Emission([opcode], [], false))
    {
      literal := literal + [opcode];
    }

    /** An opcode byte and one 8-bit operand. */
    method PutOne(opcode: byte, ex: Expr, mode: Mode, prefix: Prefix, kind: ArgKind, b2bOffset: nat)
      modifies this
      ensures Grown(old(literal), old(fixes), old(bad),
                    Then(Emission([opcode], [], false),
                         Emit8(|old(literal)| + 1, ex, mode, prefix, kind, b2bOffset)))
    {
      PutOpcode(opcode);
      Fixup8(ex, mode, prefix, kind, b2bOffset);
    }

    /** An opcode byte and two 8-bit operands. */
    method PutTwo(opcode: byte, ex: Expr, mode: Mode, prefix: Prefix, kind: ArgKind,
                  ex': Expr, mode': Mode, prefix': Prefix, kind': ArgKind, b2bOffset: nat)
      modifies this
      ensures Grown(old(literal), old(fixes), old(bad),
                    Then(Emission([opcode], [], false),
                         Then(Emit8(|old(literal)| + 1, ex, mode, prefix, kind, b2bOffset),
                              Emit8(|old(literal)| + 2, ex', mode', prefix', kind', b2bOffset))))
    {
      PutOne(opcode, ex, mode, prefix, kind, b2bOffset);
      Fixup8(ex', mode', prefix', kind', b2bOffset);
    }

    method BuildIns(row: Row, o: Operands)
      requires OpcodeByte(row, o.reg) < 0x100
      modifies this
      ensures Grown(old(literal), old(fixes), old(bad), EmitIns(|old(literal)|, row, o))
    {
      var opcode := OpcodeByte(row, o.reg);
      var (k1, k2) := Kinds(row);
      if row.mreloc in {'7', 'W', '1', '6'} && o.prefix1 != NoPrefix {
        bad := true;
        return;
      }
      if row.a1 == 'J' && o.prefix2 != NoPrefix {
        bad := true;
        return;
      }
      match row.mreloc {
        case 'N' | 'I' | 'R' =>
          PutOpcode(opcode);
        case 'D' | 'i' | 'r' =>
          PutOne(opcode, o.ex1, ModeImm8, o.prefix1, k1, o.b2bOffset);
        case '7' | 'W' =>
          PutOne(opcode, o.ex1, ModeRel, NoPrefix, NoKind, o.b2bOffset);
        case '1' =>
          Fixup11(o.ex1, opcode);
        case 'B' =>
          PutOne(opcode, o.ex1, ModeBit, o.prefix1, NoKind, o.b2bOffset);
        case 'd' =>
          PutTwo(opcode, o.ex2, ModeImm8, o.prefix2, k2, o.ex1, ModeImm8, o.prefix1, k1, o.b2bOffset);
        case 'a' =>
          PutTwo(opcode, o.ex1, ModeImm8, o.prefix1, k1, o.ex2, ModeImm8, o.prefix2, k2, o.b2bOffset);
        case 'J' =>
          PutTwo(opcode, o.ex1, ModeBit, o.prefix1, NoKind, o.ex2, ModeRel, NoPrefix, NoKind, o.b2bOffset);
        case 'X' | 'Y' | 'Z' =>
          PutTwo(opcode, o.ex1, ModeImm8, o.prefix1, k1, o.ex2, ModeRel, NoPrefix, NoKind, o.b2bOffset);
        case '6' =>
          PutOpcode(opcode);
          Fixup16(o.ex1);
        case _ =>
      }
    }
  }
}
