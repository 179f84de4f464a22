/** print_insn_i51 () with its operands as data instead of text. */
module Disassembler {
  import opened Bits
  import opened Wrappers
  import opened OpcodeTable

  datatype Operand =
    | Nothing
    | Acc | AB | Carry | Dptr | AtADptr | AtAPc | AtDptr
    | Reg(n: nat) | AtReg(n: nat)
    | Byte(value: int)      // 0x%02X, a direct or a bit address
    | NotBit(value: int)    // /0x%02X
    | Imm(value: int)       // #0x%02X
    | Imm16(value: int)     // #0x%04X
    | Code(value: int)      // an absolute code address
    | Rel(disp: int)        // .+0x%02X or .-0x%02X, from the instruction's start

  /** What is printed: BYTE for a byte no row carries, else the row, its three
      operands, the absolute target in the comment of a branch, the length. */
  datatype Decoded =
    | RawByte(b: byte)
    | Decoded(row: nat, op1: Operand, op2: Operand, op3: Operand, comment: Option<int>, length: nat)

  /** Where the reading stands: bytes consumed, the count that biases a printed
      displacement, the last comment, and the operand just read. */
  datatype Step = Step(pos: nat, offset: nat, comment: Option<int>, op: Operand)

  /** The target of an ACALL/AJMP from the address of the instruction after it. */
  function InpageTarget(next: nat, insn: byte, low: byte): int
  {
    var top: int := insn / 32;
    Page(next) * 0x800 + top * 0x100 + low
  }

  /** One operand letter.  MEM starts at the instruction, whose address is ADDR;
      FIRST is the row's first letter.  None when the bytes run out. */
  function ReadOperand(c: char, first: char, mem: seq<byte>, addr: nat, s: Step): (r: Option<Step>)
    requires mem != []
    ensures r.Some? ==> s.pos <= r.value.pos <= s.pos + 2
  {
    var insn := mem[0];
    if c == 'A' then Some(s.(op := Acc))
    else if c == 'C' then Some(s.(op := AB))
    else if c == 'r' then Some(s.(op := Carry))
    else if c == 'P' then Some(s.(op := Dptr))
    else if c == '@' then Some(s.(op := AtADptr))
    else if c == 'X' then Some(s.(op := AtAPc))
    else if c == 'T' then Some(s.(op := AtDptr))
    else if c == 'R' then Some(s.(op := Reg(insn % 8)))
    else if c == 'I' then Some(s.(op := AtReg(insn % 2)))
    else if c == 'D' || c == 'B' then
      if s.pos >= |mem| then None
      else Some(Step(s.pos + 1, s.offset + 1, s.comment, Byte(mem[s.pos])))
    else if c == '/' then
      if s.pos >= |mem| then None
      else Some(Step(s.pos + 1, s.offset + 1, s.comment, NotBit(mem[s.pos])))
    else if c == '#' && first != 'P' then
      if s.pos >= |mem| then None
      else Some(Step(s.pos + 1, s.offset + 1, s.comment, Imm(mem[s.pos])))
    else if c == '#' then
      if s.pos + 1 >= |mem| then None
      else Some(Step(s.pos + 2, s.offset, s.comment, Imm16(Word(mem[s.pos], mem[s.pos + 1]))))
    else if c == '6' then
      if s.pos + 1 >= |mem| then None
      else Some(Step(s.pos + 2, s.offset, s.comment, Code(Word(mem[s.pos], mem[s.pos + 1]))))
    else if c == '1' then
      if s.pos >= |mem| then None
      else
        Some(Step(s.pos + 1, s.offset, s.comment, Code(InpageTarget(addr + s.pos + 1, insn, mem[s.pos]))))
    else if c == 'J' then
      if s.pos >= |mem| then None
      else
        var disp := SignExtend(mem[s.pos]);
        Some(Step(s.pos + 1, s.offset, Some((addr + s.pos + 1 + disp) % 0x10000), Rel(disp + 2 + s.offset)))
    else Some(s.(op := Nothing))
  }

  /** The operands of ROW read from MEM. */
  function ReadRow(i: nat, row: Row, mem: seq<byte>, addr: nat): Option<Decoded>
    requires mem != []
  {
    match ReadOperand(row.a0, row.a0, mem, addr, Step(1, 0, None, Nothing))
    case None => None
    case Some(s1) =>
      match ReadOperand(row.a1, row.a0, mem, addr, s1)
      case None => None
      case Some(s2) =>
        match ReadOperand(row.a2, row.a0, mem, addr, s2)
        case None => None
        case Some(s3) =>
          // MOV direct,direct encodes the source byte first
          var swap := row.a0 == 'D' && row.a1 == 'D';
          var (o1, o2) := if swap then (s2.op, s1.op) else (s1.op, s2.op);
          Some(Decoded(i, o1, o2, s3.op, s3.comment, row.Length()))
  }

  /** The instruction at the head of MEM, whose address is ADDR. */
  function Decode(mem: seq<byte>, addr: nat): Option<Decoded>
  {
    if mem == [] then None
    else match RowOf(mem[0])
      case None => Some(RawByte(mem[0]))
      case Some(i) => if i < ROWS then ReadRow(i, RowAt(i), mem, addr) else None
  }

  /** The scan of the table for the row of an opcode byte: ROWS stands for the
      terminating null entry. */
  method FindRow(insn: byte) returns (i: nat)
    ensures i == (match RowOf(insn) case Some(k) => k case None => ROWS)
  {
    i := 0;
    while i < ROWS
      invariant i <= ROWS
      invariant forall j :: 0 <= j < i ==> RowOf(insn) != Some(j)
    {
      var row := RowAt(i);
      ScanFindsRow(insn, i);
      if BitAnd(insn, row.mask) == row.bin {
        return;
      }
      i := i + 1;
    }
    if insn != 0xA5 { RowOfCarries(insn); }
  }

  /** print_insn_i51 (): the scan, then the three operand letters. */
  method PrintInsn(mem: seq<byte>, addr: nat) returns (r: Option<Decoded>)
    ensures r == Decode(mem, addr)
  {
    if |mem| == 0 { return None; }
    var insn := mem[0];
    var i := FindRow(insn);
    if i == ROWS {
      if insn != 0xA5 { RowOfCarries(insn); }
      return Some(RawByte(insn));
    }
    var row := RowAt(i);
    var s := Step(1, 0, None, Nothing);
    var t := ReadOperand(row.a0, row.a0, mem, addr, s);
    if t.None? { return None; }
    var op1 := t.value.op;
    t := ReadOperand(row.a1, row.a0, mem, addr, t.value);
    if t.None? { return None; }
    var op2 := t.value.op;
    if row.a0 == 'D' && row.a1 == 'D' {
      op1, op2 := op2, op1;
    }
    t := ReadOperand(row.a2, row.a0, mem, addr, t.value);
    if t.None? { return None; }
    return Some(Decoded(i, op1, op2, t.value.op, t.value.comment, row.Length()));
  }
}
