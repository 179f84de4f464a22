/** The assembler and the disassembler are inverse on the instruction set. */
module Codec {
  import opened Bits
  import opened Wrappers
  import opened Relocation
  import opened OpcodeTable
  import opened GasEmit
  import opened Disassembler
  import opened Agreement

  /** An instruction of resolved operands: a table row, the register of an Rn or
      @Ri operand, and the values of its expressions in source order.  A branch
      operand is its target address. */
  datatype Insn = Insn(row: nat, reg: nat, v1: int, v2: int)

  /** The value fixup_segment () hands md_apply_fix () for a constant operand. */
  function FixValue(f: Fix, v: int, addr: nat): int
  {
    if f.pcrel then v - (addr + f.offset + 1) else v
  }

  /** md_apply_fix () over the fixups of one instruction at ADDR. */
  function Resolve(bytes: seq<byte>, fixes: seq<Fix>, addr: nat): (r: Option<seq<byte>>)
    ensures r.Some? ==> |r.value| == |bytes|
    decreases |fixes|
  {
    if fixes == [] then Some(bytes)
    else
      var f := fixes[0];
      if !f.ex.Constant? || f.offset + Width(f.kind) > |bytes| then None
      else
        var p := GasPatch(f.kind, FixValue(f, f.ex.v, addr), addr + f.offset,
                          bytes[f.offset..f.offset + Width(f.kind)]);
        if !p.ok then None
        else Resolve(Splice(bytes, f.offset, p.bytes), fixes[1..], addr)
  }

  /** ROW with the operands of X assembled at ADDR; None when gas refuses it. */
  function EncodeRow(row: Row, x: Insn, addr: nat): Option<seq<byte>>
    requires OpcodeByte(row, x.reg) < 0x100
  {
    var e := EmitIns(0, row, Operands(x.reg, Constant(x.v1), Constant(x.v2), NoPrefix, NoPrefix, 0));
    if e.bad then None else Resolve(e.bytes, e.fixes, addr)
  }

  // -------------------------------------------------- shapes of the table

  /** The letters, length and mask each relocation letter comes with. */
  predicate ShapeKnown(row: Row)
  {
    && MaskKnown(row)
    && (match row.mreloc
        case 'N' => row.a2 == 'N' && row.Length() == 1 && row.mask == 0xFF
                    && row.a0 in {'N', 'A', 'C', 'r', 'P', '@', 'T'} && row.a1 in {'N', 'A', '@', 'X', 'T'}
        case 'I' => row.a2 == 'N' && row.Length() == 1 && row.mask == 0xFE
                    && ((row.a0 == 'I' && row.a1 in {'N', 'A'}) || (row.a0 == 'A' && row.a1 == 'I'))
        case 'R' => row.a2 == 'N' && row.Length() == 1 && row.mask == 0xF8
                    && ((row.a0 == 'R' && row.a1 in {'N', 'A'}) || (row.a0 == 'A' && row.a1 == 'R'))
        case 'D' => row.a2 == 'N' && row.Length() == 2 && row.mask == 0xFF
                    && ((row.a0 == 'A' && row.a1 in {'D', '#'}) || (row.a0 == 'D' && row.a1 in {'A', 'N'}))
        case 'r' => row.a2 == 'N' && row.Length() == 2
                    && (|| (row.mask == 0xF8 && row.a0 == 'R' && row.a1 in {'D', '#'})
                        || (row.mask == 0xF8 && row.a0 == 'D' && row.a1 == 'R')
                        || (row.mask == 0xFE && row.a0 == 'I' && row.a1 in {'D', '#'})
                        || (row.mask == 0xFE && row.a0 == 'D' && row.a1 == 'I'))
        case '7' => row.a2 == 'N' && row.Length() == 2 && row.mask == 0xFF && row.a0 == 'J' && row.a1 == 'N'
        case 'W' => row.a2 == 'N' && row.Length() == 2 && row.mask == 0xF8 && row.a0 == 'R' && row.a1 == 'J'
        case '1' => row.a2 == 'N' && row.Length() == 2 && row.mask == 0x1F && row.a0 == '1' && row.a1 == 'N'
        case 'B' => row.a2 == 'N' && row.Length() == 2 && row.mask == 0xFF
                    && ((row.a0 == 'r' && row.a1 in {'B', '/'}) || (row.a0 == 'B' && row.a1 in {'r', 'N'}))
        case 'd' => row.a2 == 'N' && row.Length() == 3 && row.mask == 0xFF && row.a0 == 'D' && row.a1 == 'D'
        case 'a' => row.a2 == 'N' && row.Length() == 3 && row.mask == 0xFF && row.a0 == 'D' && row.a1 == '#'
        case 'J' => row.a2 == 'N' && row.Length() == 3 && row.mask == 0xFF && row.a0 == 'B' && row.a1 == 'J'
        case 'X' => row.a2 == 'J' && row.Length() == 3 && row.mask == 0xFE && row.a0 == 'I' && row.a1 == '#'
        case 'Y' => row.a2 == 'J' && row.Length() == 3 && row.mask == 0xF8 && row.a0 == 'R' && row.a1 == '#'
        case 'Z' => row.Length() == 3 && row.mask == 0xFF
                    && ((row.a0 == 'A' && row.a1 in {'#', 'D'} && row.a2 == 'J')
                        || (row.a0 == 'D' && row.a1 == 'J' && row.a2 == 'N'))
        case '6' => row.a2 == 'N' && row.Length() == 3 && row.mask == 0xFF
                    && ((row.a0 == '6' && row.a1 == 'N') || (row.a0 == 'P' && row.a1 == '#'))
        case _ => false)
  }

  const EXPRESSIONS: set<char> := {'D', 'B', '/', '#', 'J', '1', '6'}

  lemma Shapes0(i: nat)
    requires 0 <= i < 14
    ensures ShapeKnown(RowAt(i))
  {
  }

  lemma Shapes1(i: nat)
    requires 14 <= i < 28
    ensures ShapeKnown(RowAt(i))
  {
  }

  lemma Shapes2(i: nat)
    requires 28 <= i < 42
    ensures ShapeKnown(RowAt(i))
  {
  }

  lemma Shapes3(i: nat)
    requires 42 <= i < 56
    ensures ShapeKnown(RowAt(i))
  {
  }

  lemma Shapes4(i: nat)
    requires 56 <= i < 70
    ensures ShapeKnown(RowAt(i))
  {
  }

  lemma Shapes5(i: nat)
    requires 70 <= i < 84
    ensures ShapeKnown(RowAt(i))
  {
  }

  lemma Shapes6(i: nat)
    requires 84 <= i < 98
    ensures ShapeKnown(RowAt(i))
  {
  }

  lemma Shapes7(i: nat)
    requires 98 <= i < 111
    ensures ShapeKnown(RowAt(i))
  {
  }

  lemma EveryShapeKnown(i: nat)
    requires i < ROWS
    ensures ShapeKnown(RowAt(i))
  {
    if i < 14 { Shapes0(i); } else if i < 28 { Shapes1(i); } else if i < 42 { Shapes2(i); }
    else if i < 56 { Shapes3(i); } else if i < 70 { Shapes4(i); } else if i < 84 { Shapes5(i); }
    else if i < 98 { Shapes6(i); } else { Shapes7(i); }
  }

  // -------------------------------------------------- reading back a line

  predicate UsesReg(row: Row) { row.a0 in {'R', 'I'} || row.a1 in {'R', 'I'} }

  /** The operand table holds R0..R7 and @R0, @R1 only. */
  predicate RegFits(row: Row, reg: nat)
  {
    reg < (if row.a0 == 'I' || row.a1 == 'I' then 2 else 8)
  }

  /** The letter of the first and of the second expression of a row, 'N' for none. */
  function Letter1(row: Row): char
  {
    if row.a0 in EXPRESSIONS then row.a0 else if row.a1 in EXPRESSIONS then row.a1
    else if row.a2 in EXPRESSIONS then row.a2 else 'N'
  }

  function Letter2(row: Row): char
  {
    if row.a0 in EXPRESSIONS then
      (if row.a1 in EXPRESSIONS then row.a1 else if row.a2 in EXPRESSIONS then row.a2 else 'N')
    else if row.a1 in EXPRESSIONS then (if row.a2 in EXPRESSIONS then row.a2 else 'N')
    else 'N'
  }

  /** The value an operand of a letter keeps once it is in the instruction. */
  function Kept(letter: char, first: char, v: int): int
  {
    if letter == 'N' then 0
    else if letter in {'D', 'B', '/'} || (letter == '#' && first != 'P') then v % 0x100
    else v % 0x10000
  }

  /** X as the disassembler can know it: the register and the values kept. */
  function Canonical(row: Row, x: Insn): Insn
  {
    Insn(x.row, if UsesReg(row) then x.reg else 0,
         Kept(Letter1(row), row.a0, x.v1), Kept(Letter2(row), row.a0, x.v2))
  }

  function Values(op: Operand, comment: Option<int>): seq<int>
  {
    match op
    case Byte(v) => [v]
    case NotBit(v) => [v]
    case Imm(v) => [v]
    case Imm16(v) => [v]
    case Code(v) => [v]
    case Rel(_) => if comment.Some? then [comment.value] else []
    case _ => []
  }

  function RegOf(op: Operand): nat
  {
    match op case Reg(n) => n case AtReg(n) => n case _ => 0
  }

  /** A printed line read back as an instruction. */
  function ReadBack(d: Decoded): Insn
    requires d.Decoded?
  {
    var vs := Values(d.op1, d.comment) + Values(d.op2, d.comment) + Values(d.op3, d.comment);
    Insn(d.row, RegOf(d.op1) + RegOf(d.op2),
         if |vs| > 0 then vs[0] else 0, if |vs| > 1 then vs[1] else 0)
  }

  // ------------------------------------------- decoding what was encoded

  /** BYTES are an instruction of ROW that prints as X, whatever follows it. */
  ghost predicate PrintsAs(row: Row, x: Insn, addr: nat, bytes: seq<byte>, tail: seq<byte>)
  {
    && |bytes| == row.Length() > 0
    && Carries(row, bytes[0])
    && var d := ReadRow(x.row, row, bytes + tail, addr);
       && d.Some? && d.value.Decoded? && d.value.length == |bytes| && ReadBack(d.value) == Canonical(row, x)
       && DisplacementNames(d.value.op1, addr, Target(row, x))
       && DisplacementNames(d.value.op2, addr, Target(row, x))
       && DisplacementNames(d.value.op3, addr, Target(row, x))
  }

  /** The operand of X that is a branch target, when it has one. */
  function Target(row: Row, x: Insn): int { if Letter1(row) == 'J' then x.v1 else x.v2 }

  /** A printed displacement counts from the instruction at ADDR to T. */
  predicate DisplacementNames(op: Operand, addr: nat, t: int) { op.Rel? ==> addr + op.disp == t }

  ghost predicate Encodes(row: Row, x: Insn, addr: nat)
  {
    && ShapeKnown(row) && RegFits(row, x.reg)
    && OpcodeByte(row, x.reg) < 0x100
    && EncodeRow(row, x, addr).Some?
  }

  /** The register letter of a row goes with its mask and its relocation letter. */
  lemma RegisterRows(row: Row)
    requires ShapeKnown(row)
    ensures row.mask == 0xF8 ==> UsesReg(row) && row.mreloc in {'R', 'r', 'Y', 'W'} && row.a0 != 'I' && row.a1 != 'I'
    ensures row.mask == 0xFE ==> UsesReg(row) && row.mreloc in {'I', 'r', 'X'} && (row.a0 == 'I' || row.a1 == 'I')
    ensures row.mask in {0xFF, 0x1F} ==> !UsesReg(row) && row.mreloc !in {'I', 'i', 'X', 'R', 'r', 'Y', 'W'}
  {
  }

  lemma OpcodeByteIs(row: Row, reg: nat)
    requires ShapeKnown(row) && RegFits(row, reg)
    ensures OpcodeByte(row, reg) == (if UsesReg(row) then row.bin + reg else row.bin)
    ensures OpcodeByte(row, reg) < 0x100
    ensures Carries(row, OpcodeByte(row, reg))
  {
    RegisterRows(row);
    OpcodeBits(row, reg);
  }

  lemma OpcodeBits(row: Row, reg: nat)
    requires MaskKnown(row) && RegFits(row, reg)
    requires row.mask == 0xF8 ==> row.mreloc in {'R', 'r', 'Y', 'W'}
    requires row.mask == 0xFE ==> row.mreloc in {'I', 'r', 'X'} && (row.a0 == 'I' || row.a1 == 'I')
    requires row.mask in {0xFF, 0x1F} ==> row.mreloc !in {'I', 'i', 'X', 'R', 'r', 'Y', 'W'}
    ensures OpcodeByte(row, reg) == (if row.mask in {0xF8, 0xFE} then row.bin + reg else row.bin)
    ensures OpcodeByte(row, reg) < 0x100
    ensures Carries(row, OpcodeByte(row, reg))
  {
    if row.mask == 0xF8 {
      assert reg % 8 == reg;
      OrRegister(row.bin, reg);
      RegisterBits(row.bin, reg);
    } else if row.mask == 0xFE {
      assert reg % 8 == reg && reg % 2 == reg;
      OrRegister(row.bin, reg);
      RegisterBits(row.bin, reg);
    }
  }

  lemma RegisterBits(bin: nat, reg: nat)
    ensures bin % 8 == 0 && reg < 8 && bin < 0x100 ==> (bin + reg) % 8 == reg && bin + reg < 0x100
    ensures bin % 2 == 0 && reg < 2 && bin < 0x100 ==> (bin + reg) % 2 == reg && bin + reg < 0x100
  {
  }

  lemma ResolveRel(bytes: seq<byte>, at: nat, v: int, addr: nat)
    requires at < |bytes|
    ensures var d := v - (addr + at + 1);
            Resolve(bytes, [Fix(at, 1, Constant(v), true, Pcrel7)], addr)
            == if -128 <= d <= 127 then Some(bytes[at := Low8(d)]) else None
  {
    var d := v - (addr + at + 1);
    assert bytes[at..at + 1] == [bytes[at]];
    assert Splice(bytes, at, [Low8(d)]) == bytes[at := Low8(d)];
  }

  lemma ResolveInpage(opcode: byte, v: int, addr: nat)
    ensures Resolve([opcode, 0], [Fix(0, 2, Constant(v), false, Abs11)], addr)
            == if Page(v) == Page(addr + 2) then Some([InpageHigh(v, opcode), Low8(v)]) else None
  {
    var bytes: seq<byte> := [opcode, 0];
    assert bytes[0..2] == bytes;
    assert Splice(bytes, 0, [InpageHigh(v, opcode), Low8(v)]) == [InpageHigh(v, opcode), Low8(v)];
  }

  /** A displacement byte names its target again. */
  lemma DisplacementBack(v: int, next: int)
    requires -128 <= v - next <= 127
    ensures SignExtend(Low8(v - next)) == v - next
    ensures (next + SignExtend(Low8(v - next))) % 0x10000 == v % 0x10000
  {
  }

  // For each group of relocation letters: the bytes gas writes, exactly when
  // it writes them, and what those bytes print as.

  lemma EncodesPlain(row: Row, x: Insn, addr: nat)
    requires OpcodeByte(row, x.reg) < 0x100 && row.mreloc in {'N', 'I', 'R'}
    ensures EncodeRow(row, x, addr) == Some([OpcodeByte(row, x.reg)])
  {
  }

  /** The register is read back from the opcode byte. */
  lemma RegisterBack(row: Row, reg: nat)
    requires ShapeKnown(row) && RegFits(row, reg)
    ensures OpcodeByte(row, reg) < 0x100
    ensures row.a0 == 'R' || row.a1 == 'R' ==> OpcodeByte(row, reg) % 8 == reg
    ensures row.a0 == 'I' || row.a1 == 'I' ==> OpcodeByte(row, reg) % 2 == reg
    ensures Carries(row, OpcodeByte(row, reg))
  {
    OpcodeByteIs(row, reg);
    RegisterBits(row.bin, reg);
  }

  lemma PrintsPlain(row: Row, x: Insn, addr: nat, tail: seq<byte>)
    requires ShapeKnown(row) && RegFits(row, x.reg) && row.mreloc in {'N', 'I', 'R'}
    ensures OpcodeByte(row, x.reg) < 0x100
    ensures PrintsAs(row, x, addr, [OpcodeByte(row, x.reg)], tail)
  {
    hide PrintsAs;
    OpcodeByteIs(row, x.reg);
    RegisterRows(row);
    if row.mreloc == 'N' { PrintsBare(row, x, addr, tail); } else { PrintsRegister(row, x, addr, tail); }
  }

  lemma PrintsBare(row: Row, x: Insn, addr: nat, tail: seq<byte>)
    requires ShapeKnown(row) && row.mreloc == 'N'
    ensures PrintsAs(row, x, addr, [row.bin], tail)
  {
    hide ReadOperand, Values, RegOf;
    var mem := [row.bin] + tail;
    var s1 := ReadsName(row.a0, row.a0, mem, addr, Step(1, 0, None, Nothing));
    var s2 := ReadsName(row.a1, row.a0, mem, addr, s1);
    var s3 := ReadsName(row.a2, row.a0, mem, addr, s2);
  }

  /** A letter of a fixed operand reads no byte and prints no value. */
  lemma ReadsName(c: char, first: char, mem: seq<byte>, addr: nat, s: Step) returns (t: Step)
    requires mem != [] && c in {'N', 'A', 'C', 'r', 'P', '@', 'X', 'T'}
    ensures ReadOperand(c, first, mem, addr, s) == Some(t) && t == s.(op := t.op)
    ensures Values(t.op, s.comment) == [] && RegOf(t.op) == 0 && !t.op.Rel?
  {
    t := ReadOperand(c, first, mem, addr, s).value;
  }

  lemma PrintsRegister(row: Row, x: Insn, addr: nat, tail: seq<byte>)
    requires ShapeKnown(row) && RegFits(row, x.reg) && row.mreloc in {'I', 'R'}
    ensures OpcodeByte(row, x.reg) < 0x100
    ensures PrintsAs(row, x, addr, [OpcodeByte(row, x.reg)], tail)
  {
    RegisterBack(row, x.reg);
    hide MaskKnown, OpcodeByte, Carries, RegFits;
  }

  lemma EncodesOne(row: Row, x: Insn, addr: nat)
    requires OpcodeByte(row, x.reg) < 0x100 && row.mreloc in {'D', 'r', 'B'}
    ensures EncodeRow(row, x, addr)
            == if -128 <= x.v1 <= 255 then Some([OpcodeByte(row, x.reg), Low8(x.v1)]) else None
  {
    var e := EmitIns(0, row, Operands(x.reg, Constant(x.v1), Constant(x.v2), NoPrefix, NoPrefix, 0));
    assert e.bytes == [OpcodeByte(row, x.reg), Low8(x.v1)];
    assert e.fixes == [];
  }

  lemma PrintsOne(row: Row, x: Insn, addr: nat, tail: seq<byte>)
    requires ShapeKnown(row) && RegFits(row, x.reg) && row.mreloc in {'D', 'r', 'B'}
    ensures OpcodeByte(row, x.reg) < 0x100
    ensures PrintsAs(row, x, addr, [OpcodeByte(row, x.reg), Low8(x.v1)], tail)
  {
    hide PrintsAs;
    OpcodeByteIs(row, x.reg);
    if row.mreloc == 'r' { PrintsRegisterData(row, x, addr, tail); } else { PrintsData(row, x, addr, tail); }
  }

  lemma PrintsData(row: Row, x: Insn, addr: nat, tail: seq<byte>)
    requires ShapeKnown(row) && row.mreloc in {'D', 'B'}
    ensures PrintsAs(row, x, addr, [row.bin, Low8(x.v1)], tail)
  {
  }

  lemma PrintsRegisterData(row: Row, x: Insn, addr: nat, tail: seq<byte>)
    requires ShapeKnown(row) && RegFits(row, x.reg) && row.mreloc == 'r'
    ensures OpcodeByte(row, x.reg) < 0x100
    ensures PrintsAs(row, x, addr, [OpcodeByte(row, x.reg), Low8(x.v1)], tail)
  {
    RegisterBack(row, x.reg);
    hide MaskKnown, OpcodeByte, Carries, RegFits;
  }

  /** A displacement of V from NEXT that fits its byte. */
  predicate Reaches(v: int, next: int) { -128 <= v - next <= 127 }

  lemma EmitsRel(row: Row, x: Insn)
    requires OpcodeByte(row, x.reg) < 0x100 && row.mreloc in {'7', 'W'}
    ensures EmitIns(0, row, Operands(x.reg, Constant(x.v1), Constant(x.v2), NoPrefix, NoPrefix, 0))
            == Emission([OpcodeByte(row, x.reg), 0], [Fix(1, 1, Constant(x.v1), true, Pcrel7)], false)
  {
    hide OpcodeByte;
    var e := EmitIns(0, row, Operands(x.reg, Constant(x.v1), Constant(x.v2), NoPrefix, NoPrefix, 0));
    assert e.bytes == [OpcodeByte(row, x.reg), 0];
    assert e.fixes == [Fix(1, 1, Constant(x.v1), true, Pcrel7)];
  }

  lemma EncodesRel(row: Row, x: Insn, addr: nat)
    requires OpcodeByte(row, x.reg) < 0x100 && row.mreloc in {'7', 'W'}
    ensures EncodeRow(row, x, addr)
            == if Reaches(x.v1, addr + 2) then Some([OpcodeByte(row, x.reg), Low8(x.v1 - (addr + 2))]) else None
  {
    hide EmitIns, Resolve, OpcodeByte;
    EmitsRel(row, x);
    var bytes: seq<byte> := [OpcodeByte(row, x.reg), 0];
    ResolveRel(bytes, 1, x.v1, addr);
    var d := Low8(x.v1 - (addr + 2));
    assert bytes[1 := d] == [OpcodeByte(row, x.reg), d];
  }

  lemma PrintsRel(row: Row, x: Insn, addr: nat, tail: seq<byte>)
    requires ShapeKnown(row) && RegFits(row, x.reg) && row.mreloc in {'7', 'W'}
    requires Reaches(x.v1, addr + 2)
    ensures OpcodeByte(row, x.reg) < 0x100
    ensures PrintsAs(row, x, addr, [OpcodeByte(row, x.reg), Low8(x.v1 - (addr + 2))], tail)
  {
    hide PrintsAs;
    OpcodeByteIs(row, x.reg);
    if row.mreloc == '7' { PrintsJump(row, x, addr, tail); } else { PrintsRegisterJump(row, x, addr, tail); }
  }

  lemma PrintsJump(row: Row, x: Insn, addr: nat, tail: seq<byte>)
    requires ShapeKnown(row) && row.mreloc == '7'
    requires Reaches(x.v1, addr + 2)
    ensures PrintsAs(row, x, addr, [row.bin, Low8(x.v1 - (addr + 2))], tail)
  {
    DisplacementBack(x.v1, addr + 2);
  }

  lemma PrintsRegisterJump(row: Row, x: Insn, addr: nat, tail: seq<byte>)
    requires ShapeKnown(row) && RegFits(row, x.reg) && row.mreloc == 'W'
    requires Reaches(x.v1, addr + 2)
    ensures OpcodeByte(row, x.reg) < 0x100
    ensures PrintsAs(row, x, addr, [OpcodeByte(row, x.reg), Low8(x.v1 - (addr + 2))], tail)
  {
    RegisterBack(row, x.reg);
    hide MaskKnown, OpcodeByte, Carries, RegFits;
    DisplacementBack(x.v1, addr + 2);
  }

  lemma EncodesInpage(row: Row, x: Insn, addr: nat)
    requires OpcodeByte(row, x.reg) < 0x100 && row.mreloc == '1'
    ensures var op := OpcodeByte(row, x.reg);
            EncodeRow(row, x, addr)
            == if -65536 <= x.v1 <= 65535 && Page(x.v1) == Page(addr + 2)
               then Some([InpageHigh(x.v1, op), Low8(x.v1)]) else None
  {
    ResolveInpage(OpcodeByte(row, x.reg), x.v1, addr);
  }

  lemma PrintsInpage(row: Row, x: Insn, addr: nat, tail: seq<byte>)
    requires ShapeKnown(row) && row.mreloc == '1'
    requires Page(x.v1) == Page(addr + 2)
    ensures PrintsAs(row, x, addr, [InpageHigh(x.v1, row.bin), Low8(x.v1)], tail)
  {
    InpageBack(x.v1, addr + 2, row.bin);
  }

  lemma EncodesTwo(row: Row, x: Insn, addr: nat)
    requires OpcodeByte(row, x.reg) < 0x100 && row.mreloc in {'d', 'a'}
    ensures EncodeRow(row, x, addr)
            == if -128 <= x.v1 <= 255 && -128 <= x.v2 <= 255 then
                 Some(if row.mreloc == 'd' then [OpcodeByte(row, x.reg), Low8(x.v2), Low8(x.v1)]
                      else [OpcodeByte(row, x.reg), Low8(x.v1), Low8(x.v2)])
               else None
  {
    var e := EmitIns(0, row, Operands(x.reg, Constant(x.v1), Constant(x.v2), NoPrefix, NoPrefix, 0));
    assert e.bytes == if row.mreloc == 'd' then [OpcodeByte(row, x.reg), Low8(x.v2), Low8(x.v1)]
                      else [OpcodeByte(row, x.reg), Low8(x.v1), Low8(x.v2)];
    assert e.fixes == [];
  }

  lemma PrintsTwo(row: Row, x: Insn, addr: nat, tail: seq<byte>)
    requires ShapeKnown(row) && row.mreloc in {'d', 'a'}
    ensures PrintsAs(row, x, addr, if row.mreloc == 'd' then [row.bin, Low8(x.v2), Low8(x.v1)]
                                   else [row.bin, Low8(x.v1), Low8(x.v2)], tail)
  {
  }

  lemma EmitsDataRel(row: Row, x: Insn)
    requires OpcodeByte(row, x.reg) < 0x100 && row.mreloc in {'J', 'X', 'Y', 'Z'}
    ensures EmitIns(0, row, Operands(x.reg, Constant(x.v1), Constant(x.v2), NoPrefix, NoPrefix, 0))
            == Emission([OpcodeByte(row, x.reg), Low8(x.v1), 0],
                        [Fix(2, 1, Constant(x.v2), true, Pcrel7)], !(-128 <= x.v1 <= 255))
  {
    hide OpcodeByte;
    var e := EmitIns(0, row, Operands(x.reg, Constant(x.v1), Constant(x.v2), NoPrefix, NoPrefix, 0));
    assert e.bytes == [OpcodeByte(row, x.reg), Low8(x.v1), 0];
    assert e.fixes == [Fix(2, 1, Constant(x.v2), true, Pcrel7)];
  }

  lemma EncodesDataRel(row: Row, x: Insn, addr: nat)
    requires OpcodeByte(row, x.reg) < 0x100 && row.mreloc in {'J', 'X', 'Y', 'Z'}
    ensures EncodeRow(row, x, addr)
            == if -128 <= x.v1 <= 255 && Reaches(x.v2, addr + 3)
               then Some([OpcodeByte(row, x.reg), Low8(x.v1), Low8(x.v2 - (addr + 3))]) else None
  {
    hide EmitIns, Resolve, OpcodeByte;
    EmitsDataRel(row, x);
    var bytes: seq<byte> := [OpcodeByte(row, x.reg), Low8(x.v1), 0];
    ResolveRel(bytes, 2, x.v2, addr);
    var d := Low8(x.v2 - (addr + 3));
    assert bytes[2 := d] == [OpcodeByte(row, x.reg), Low8(x.v1), d];
  }

  lemma PrintsDataRel(row: Row, x: Insn, addr: nat, tail: seq<byte>)
    requires ShapeKnown(row) && RegFits(row, x.reg) && row.mreloc in {'J', 'X', 'Y', 'Z'}
    requires Reaches(x.v2, addr + 3)
    ensures OpcodeByte(row, x.reg) < 0x100
    ensures PrintsAs(row, x, addr, [OpcodeByte(row, x.reg), Low8(x.v1), Low8(x.v2 - (addr + 3))], tail)
  {
    hide PrintsAs;
    OpcodeByteIs(row, x.reg);
    if row.mreloc == 'J' { PrintsBitRel(row, x, addr, tail); }
    else if row.mreloc == 'Z' { PrintsByteRel(row, x, addr, tail); }
    else { PrintsRegRel(row, x, addr, tail); }
  }

  lemma PrintsBitRel(row: Row, x: Insn, addr: nat, tail: seq<byte>)
    requires ShapeKnown(row) && RegFits(row, x.reg) && row.mreloc == 'J'
    requires Reaches(x.v2, addr + 3)
    ensures PrintsAs(row, x, addr, [row.bin, Low8(x.v1), Low8(x.v2 - (addr + 3))], tail)
  {
    DisplacementBack(x.v2, addr + 3);
  }

  lemma PrintsByteRel(row: Row, x: Insn, addr: nat, tail: seq<byte>)
    requires ShapeKnown(row) && RegFits(row, x.reg) && row.mreloc == 'Z'
    requires Reaches(x.v2, addr + 3)
    ensures PrintsAs(row, x, addr, [row.bin, Low8(x.v1), Low8(x.v2 - (addr + 3))], tail)
  {
    DisplacementBack(x.v2, addr + 3);
  }

  lemma PrintsRegRel(row: Row, x: Insn, addr: nat, tail: seq<byte>)
    requires ShapeKnown(row) && RegFits(row, x.reg) && row.mreloc in {'X', 'Y'}
    requires Reaches(x.v2, addr + 3)
    ensures OpcodeByte(row, x.reg) < 0x100
    ensures PrintsAs(row, x, addr, [OpcodeByte(row, x.reg), Low8(x.v1), Low8(x.v2 - (addr + 3))], tail)
  {
    RegisterBack(row, x.reg);
    hide MaskKnown, OpcodeByte, Carries, RegFits;
    DisplacementBack(x.v2, addr + 3);
  }

  lemma EncodesWord(row: Row, x: Insn, addr: nat)
    requires OpcodeByte(row, x.reg) < 0x100 && row.mreloc == '6'
    ensures EncodeRow(row, x, addr)
            == if -65536 <= x.v1 <= 65535 then Some([OpcodeByte(row, x.reg), High8(x.v1), Low8(x.v1)]) else None
  {
    var e := EmitIns(0, row, Operands(x.reg, Constant(x.v1), Constant(x.v2), NoPrefix, NoPrefix, 0));
    assert e.bytes == [OpcodeByte(row, x.reg), High8(x.v1), Low8(x.v1)];
    assert e.fixes == [];
  }

  lemma PrintsWord(row: Row, x: Insn, addr: nat, tail: seq<byte>)
    requires ShapeKnown(row) && row.mreloc == '6'
    ensures PrintsAs(row, x, addr, [row.bin, High8(x.v1), Low8(x.v1)], tail)
  {
    WordBack(x.v1);
  }

  // ------------------------------------------------------ one instruction

  /** Whatever gas accepts prints, in front of any bytes, as what it keeps of
      the instruction, and is as long as the table says. */
  lemma DecodeAfterEncode(row: Row, x: Insn, addr: nat, tail: seq<byte>)
    requires Encodes(row, x, addr)
    ensures PrintsAs(row, x, addr, EncodeRow(row, x, addr).value, tail)
  {
    hide EncodeRow, PrintsAs;
    OpcodeByteIs(row, x.reg);
    match row.mreloc {
      case 'N' | 'I' | 'R' => EncodesPlain(row, x, addr); PrintsPlain(row, x, addr, tail);
      case 'D' | 'r' | 'B' => EncodesOne(row, x, addr); PrintsOne(row, x, addr, tail);
      case '7' | 'W' => EncodesRel(row, x, addr); PrintsRel(row, x, addr, tail);
      case '1' => RegisterRows(row); EncodesInpage(row, x, addr); PrintsInpage(row, x, addr, tail);
      case 'd' | 'a' => RegisterRows(row); EncodesTwo(row, x, addr); PrintsTwo(row, x, addr, tail);
      case 'J' | 'X' | 'Y' | 'Z' => EncodesDataRel(row, x, addr); PrintsDataRel(row, x, addr, tail);
      case _ => RegisterRows(row); EncodesWord(row, x, addr); PrintsWord(row, x, addr, tail);
    }
  }

  /** The rows whose last byte is a displacement. */
  predicate Branch(row: Row) { row.mreloc in {'7', 'W', 'J', 'X', 'Y', 'Z'} }

  /** The branch at ADDR in MEM does not leave 0..0xFFFF. */
  predicate StaysInside(row: Row, mem: seq<byte>, addr: nat)
    requires |mem| >= row.Length() > 0
  {
    Branch(row) ==> 0 <= addr + row.Length() + SignExtend(mem[row.Length() - 1]) < 0x10000
  }

  /** MEM starts with a whole instruction of ROW, row I of the table. */
  ghost predicate Reads(i: nat, row: Row, mem: seq<byte>, addr: nat, x: Insn)
  {
    && ShapeKnown(row)
    && mem != [] && Carries(row, mem[0])
    && var d := ReadRow(i, row, mem, addr);
       d.Some? && d.value.Decoded? && x == ReadBack(d.value)
  }

  lemma RegisterOf(row: Row, b: byte, reg: nat)
    requires ShapeKnown(row) && Carries(row, b)
    requires row.mask == 0xF8 ==> reg == b % 8
    requires row.mask == 0xFE ==> reg == b % 2
    requires row.mask in {0xFF, 0x1F} ==> reg == 0
    ensures RegFits(row, reg)
    ensures row.mask != 0x1F ==> OpcodeByte(row, reg) == b
  {
    RegisterRows(row);
    OpcodeByteIs(row, reg);
  }

  lemma ReadsPlain(i: nat, row: Row, mem: seq<byte>, addr: nat, x: Insn)
    requires Reads(i, row, mem, addr, x) && row.mreloc in {'N', 'I', 'R'}
    ensures RegFits(row, x.reg) && OpcodeByte(row, x.reg) < 0x100
    ensures EncodeRow(row, x, addr) == Some(mem[..1])
  {
    hide EncodeRow;
    RegisterRows(row);
    RegisterOf(row, mem[0], x.reg);
    EncodesPlain(row, x, addr);
    assert mem[..1] == [mem[0]];
  }

  lemma ReadsOne(i: nat, row: Row, mem: seq<byte>, addr: nat, x: Insn)
    requires Reads(i, row, mem, addr, x) && row.mreloc in {'D', 'r', 'B'}
    ensures RegFits(row, x.reg) && OpcodeByte(row, x.reg) < 0x100 && |mem| >= 2
    ensures EncodeRow(row, x, addr) == Some(mem[..2])
  {
    hide EncodeRow;
    RegisterRows(row);
    assert x.v1 == mem[1];
    RegisterOf(row, mem[0], x.reg);
    EncodesOne(row, x, addr);
    assert mem[..2] == [mem[0], mem[1]];
  }

  lemma ReadsRel(i: nat, row: Row, mem: seq<byte>, addr: nat, x: Insn)
    requires Reads(i, row, mem, addr, x) && row.mreloc in {'7', 'W'}
    ensures RegFits(row, x.reg) && OpcodeByte(row, x.reg) < 0x100 && |mem| >= 2
    ensures EncodeRow(row, x, addr) == if StaysInside(row, mem, addr) then Some(mem[..2]) else None
  {
    hide EncodeRow;
    RegisterRows(row);
    var next := addr + 2;
    assert |mem| >= 2 && x.v1 == (next + SignExtend(mem[1])) % 0x10000;
    RegisterOf(row, mem[0], x.reg);
    EncodesRel(row, x, addr);
    TargetBack(next, mem[1]);
    assert mem[..2] == [mem[0], mem[1]];
  }

  /** A target read modulo 2^16 is in reach again only if it did not wrap, and
      then it is the same byte. */
  lemma TargetBack(next: nat, b: byte)
    ensures var v := (next + SignExtend(b)) % 0x10000;
            if 0 <= next + SignExtend(b) < 0x10000 then Reaches(v, next) && Low8(v - next) == b
            else !Reaches(v, next)
  {
  }

  lemma ReadsInpage(i: nat, row: Row, mem: seq<byte>, addr: nat, x: Insn)
    requires Reads(i, row, mem, addr, x) && row.mreloc == '1'
    ensures RegFits(row, x.reg) && OpcodeByte(row, x.reg) < 0x100 && |mem| >= 2
    ensures EncodeRow(row, x, addr) == Some(mem[..2])
  {
    hide EncodeRow;
    assert |mem| >= 2 && x.v1 == InpageTarget(addr + 2, mem[0], mem[1]);
    RegisterRows(row);
    RegisterOf(row, mem[0], x.reg);
    EncodesInpage(row, x, addr);
    InpageAgain(addr + 2, mem[0], mem[1], row.bin);
    assert mem[..2] == [mem[0], mem[1]];
  }

  lemma InpageAgain(next: nat, hi: byte, lo: byte, opcode: byte)
    requires hi % 32 == opcode % 32
    ensures var v := InpageTarget(next, hi, lo);
            && 0 <= v < 0x10000 && Page(v) == Page(next)
            && InpageHigh(v, opcode) == hi && Low8(v) == lo
  {
    var top: int := hi / 32;
    var p := Page(next);
    var v := p * 0x800 + top * 0x100 + lo;
    assert v / 0x100 == p * 8 + top;
    assert v / 0x800 == p;
  }

  lemma FieldsTwo(i: nat, row: Row, mem: seq<byte>, addr: nat, x: Insn)
    requires Reads(i, row, mem, addr, x) && row.mreloc in {'d', 'a'}
    ensures |mem| >= 3 && x.reg == 0
    ensures if row.mreloc == 'd' then x.v1 == mem[2] && x.v2 == mem[1] else x.v1 == mem[1] && x.v2 == mem[2]
  {
  }

  lemma TwoAgain(row: Row, mem: seq<byte>, addr: nat, x: Insn)
    requires ShapeKnown(row) && row.mreloc in {'d', 'a'} && |mem| >= 3 && Carries(row, mem[0])
    requires x.reg == 0 && (if row.mreloc == 'd' then x.v1 == mem[2] && x.v2 == mem[1]
                             else x.v1 == mem[1] && x.v2 == mem[2])
    ensures RegFits(row, x.reg) && OpcodeByte(row, x.reg) < 0x100
    ensures EncodeRow(row, x, addr) == Some(mem[..3])
  {
    hide EncodeRow;
    RegisterRows(row);
    RegisterOf(row, mem[0], x.reg);
    EncodesTwo(row, x, addr);
    assert mem[..3] == [mem[0], mem[1], mem[2]];
  }

  lemma ReadsTwo(i: nat, row: Row, mem: seq<byte>, addr: nat, x: Insn)
    requires Reads(i, row, mem, addr, x) && row.mreloc in {'d', 'a'}
    ensures RegFits(row, x.reg) && OpcodeByte(row, x.reg) < 0x100 && |mem| >= 3
    ensures EncodeRow(row, x, addr) == Some(mem[..3])
  {
    hide EncodeRow;
    FieldsTwo(i, row, mem, addr, x);
    TwoAgain(row, mem, addr, x);
  }

  lemma FieldsDataRel(i: nat, row: Row, mem: seq<byte>, addr: nat, x: Insn)
    requires Reads(i, row, mem, addr, x) && row.mreloc in {'J', 'X', 'Y', 'Z'}
    ensures |mem| >= 3 && x.v1 == mem[1] && x.v2 == (addr + 3 + SignExtend(mem[2])) % 0x10000
    ensures x.reg == (if row.mask == 0xF8 then mem[0] % 8 else if row.mask == 0xFE then mem[0] % 2 else 0)
  {
  }

  lemma DataRelAgain(row: Row, mem: seq<byte>, addr: nat, x: Insn)
    requires ShapeKnown(row) && row.mreloc in {'J', 'X', 'Y', 'Z'} && |mem| >= 3 && Carries(row, mem[0])
    requires x.v1 == mem[1] && x.v2 == (addr + 3 + SignExtend(mem[2])) % 0x10000
    requires x.reg == (if row.mask == 0xF8 then mem[0] % 8 else if row.mask == 0xFE then mem[0] % 2 else 0)
    ensures RegFits(row, x.reg) && OpcodeByte(row, x.reg) < 0x100
    ensures EncodeRow(row, x, addr) == if StaysInside(row, mem, addr) then Some(mem[..3]) else None
  {
    hide EncodeRow;
    RegisterRows(row);
    RegisterOf(row, mem[0], x.reg);
    EncodesDataRel(row, x, addr);
    TargetBack(addr + 3, mem[2]);
    assert mem[..3] == [mem[0], mem[1], mem[2]];
  }

  lemma ReadsDataRel(i: nat, row: Row, mem: seq<byte>, addr: nat, x: Insn)
    requires Reads(i, row, mem, addr, x) && row.mreloc in {'J', 'X', 'Y', 'Z'}
    ensures RegFits(row, x.reg) && OpcodeByte(row, x.reg) < 0x100 && |mem| >= 3
    ensures EncodeRow(row, x, addr) == if StaysInside(row, mem, addr) then Some(mem[..3]) else None
  {
    hide EncodeRow;
    FieldsDataRel(i, row, mem, addr, x);
    DataRelAgain(row, mem, addr, x);
  }

  lemma FieldsWord(i: nat, row: Row, mem: seq<byte>, addr: nat, x: Insn)
    requires Reads(i, row, mem, addr, x) && row.mreloc == '6'
    ensures |mem| >= 3 && x.v1 == Word(mem[1], mem[2]) && x.reg == 0
  {
  }

  lemma WordAgain(row: Row, mem: seq<byte>, addr: nat, x: Insn)
    requires ShapeKnown(row) && row.mreloc == '6' && |mem| >= 3 && Carries(row, mem[0])
    requires x.v1 == Word(mem[1], mem[2]) && x.reg == 0
    ensures RegFits(row, x.reg) && OpcodeByte(row, x.reg) < 0x100
    ensures EncodeRow(row, x, addr) == Some(mem[..3])
  {
    hide EncodeRow;
    RegisterRows(row);
    RegisterOf(row, mem[0], x.reg);
    EncodesWord(row, x, addr);
    WordHalves(mem[1], mem[2]);
    assert mem[..3] == [mem[0], mem[1], mem[2]];
  }

  lemma WordHalves(hi: byte, lo: byte)
    ensures High8(Word(hi, lo)) == hi && Low8(Word(hi, lo)) == lo
  {
  }

  lemma ReadsWord(i: nat, row: Row, mem: seq<byte>, addr: nat, x: Insn)
    requires Reads(i, row, mem, addr, x) && row.mreloc == '6'
    ensures RegFits(row, x.reg) && OpcodeByte(row, x.reg) < 0x100 && |mem| >= 3
    ensures EncodeRow(row, x, addr) == Some(mem[..3])
  {
    hide EncodeRow;
    FieldsWord(i, row, mem, addr, x);
    WordAgain(row, mem, addr, x);
  }

  /** Whatever prints as an instruction assembles back to the bytes it was read
      from, unless it is a branch whose target wraps past 0..0xFFFF: that one
      gas refuses. */
  lemma EncodeAfterDecode(i: nat, row: Row, mem: seq<byte>, addr: nat, x: Insn)
    requires Reads(i, row, mem, addr, x)
    ensures RegFits(row, x.reg) && OpcodeByte(row, x.reg) < 0x100 && |mem| >= row.Length() > 0
    ensures EncodeRow(row, x, addr)
            == if StaysInside(row, mem, addr) then Some(mem[..row.Length()]) else None
  {
    hide EncodeRow;
    match row.mreloc {
      case 'N' | 'I' | 'R' => ReadsPlain(i, row, mem, addr, x);
      case 'D' | 'r' | 'B' => ReadsOne(i, row, mem, addr, x);
      case '7' | 'W' => ReadsRel(i, row, mem, addr, x);
      case '1' => ReadsInpage(i, row, mem, addr, x);
      case 'd' | 'a' => ReadsTwo(i, row, mem, addr, x);
      case 'J' | 'X' | 'Y' | 'Z' => ReadsDataRel(i, row, mem, addr, x);
      case _ => ReadsWord(i, row, mem, addr, x);
    }
  }
}
