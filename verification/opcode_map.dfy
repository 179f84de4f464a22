/** The MCS-51 instruction set by opcode, written down the way its opcode map is
    drawn, against which the table of rows is checked: mnemonic and operands. */
module OpcodeMap {
  import opened Bits
  import opened Wrappers
  import opened OpcodeTable

  /** An instruction: its mnemonic and its operands by their letters. */
  datatype Form = Form(name: Mnemonic, a0: char, a1: char, a2: char)

  function FormOf(row: Row): Form { Form(row.name, row.a0, row.a1, row.a2) }

  /** The opcodes 0x?0. */
  function Ending0(hi: nat): Form
    requires hi < 16
  {
    match hi
    case 0 => Form(Nop, 'N', 'N', 'N')
    case 1 => Form(Jbc, 'B', 'J', 'N')
    case 2 => Form(Jb, 'B', 'J', 'N')
    case 3 => Form(Jnb, 'B', 'J', 'N')
    case 4 => Form(Jc, 'J', 'N', 'N')
    case 5 => Form(Jnc, 'J', 'N', 'N')
    case 6 => Form(Jz, 'J', 'N', 'N')
    case 7 => Form(Jnz, 'J', 'N', 'N')
    case 8 => Form(Sjmp, 'J', 'N', 'N')
    case 9 => Form(Mov, 'P', '#', 'N')
    case 10 => Form(Orl, 'r', '/', 'N')
    case 11 => Form(Anl, 'r', '/', 'N')
    case 12 => Form(Push, 'D', 'N', 'N')
    case 13 => Form(Pop, 'D', 'N', 'N')
    case 14 => Form(Movx, 'A', 'T', 'N')
    case _ => Form(Movx, 'T', 'A', 'N')
  }

  /** The opcodes 0x?2. */
  function Ending2(hi: nat): Form
    requires hi < 16
  {
    match hi
    case 0 => Form(Ljmp, '6', 'N', 'N')
    case 1 => Form(Lcall, '6', 'N', 'N')
    case 2 => Form(Ret, 'N', 'N', 'N')
    case 3 => Form(Reti, 'N', 'N', 'N')
    case 4 => Form(Orl, 'D', 'A', 'N')
    case 5 => Form(Anl, 'D', 'A', 'N')
    case 6 => Form(Xrl, 'D', 'A', 'N')
    case 7 => Form(Orl, 'r', 'B', 'N')
    case 8 => Form(Anl, 'r', 'B', 'N')
    case 9 => Form(Mov, 'B', 'r', 'N')
    case 10 => Form(Mov, 'r', 'B', 'N')
    case 11 => Form(Cpl, 'B', 'N', 'N')
    case 12 => Form(Clr, 'B', 'N', 'N')
    case 13 => Form(Setb, 'B', 'N', 'N')
    case 14 => Form(Movx, 'A', 'I', 'N')
    case _ => Form(Movx, 'I', 'A', 'N')
  }

  /** The opcodes 0x?3. */
  function Ending3(hi: nat): Form
    requires hi < 16
  {
    match hi
    case 0 => Form(Rr, 'A', 'N', 'N')
    case 1 => Form(Rrc, 'A', 'N', 'N')
    case 2 => Form(Rl, 'A', 'N', 'N')
    case 3 => Form(Rlc, 'A', 'N', 'N')
    case 4 => Form(Orl, 'D', '#', 'N')
    case 5 => Form(Anl, 'D', '#', 'N')
    case 6 => Form(Xrl, 'D', '#', 'N')
    case 7 => Form(Jmp, '@', 'N', 'N')
    case 8 => Form(Movc, 'A', 'X', 'N')
    case 9 => Form(Movc, 'A', '@', 'N')
    case 10 => Form(Inc, 'P', 'N', 'N')
    case 11 => Form(Cpl, 'r', 'N', 'N')
    case 12 => Form(Clr, 'r', 'N', 'N')
    case 13 => Form(Setb, 'r', 'N', 'N')
    case 14 => Form(Movx, 'A', 'I', 'N')
    case _ => Form(Movx, 'I', 'A', 'N')
  }

  /** The opcodes 0x?4. */
  function Ending4(hi: nat): Form
    requires hi < 16
  {
    match hi
    case 0 => Form(Inc, 'A', 'N', 'N')
    case 1 => Form(Dec, 'A', 'N', 'N')
    case 2 => Form(Add, 'A', '#', 'N')
    case 3 => Form(Addc, 'A', '#', 'N')
    case 4 => Form(Orl, 'A', '#', 'N')
    case 5 => Form(Anl, 'A', '#', 'N')
    case 6 => Form(Xrl, 'A', '#', 'N')
    case 7 => Form(Mov, 'A', '#', 'N')
    case 8 => Form(Div, 'C', 'N', 'N')
    case 9 => Form(Subb, 'A', '#', 'N')
    case 10 => Form(Mul, 'C', 'N', 'N')
    case 11 => Form(Cjne, 'A', '#', 'J')
    case 12 => Form(Swap, 'A', 'N', 'N')
    case 13 => Form(Da, 'A', 'N', 'N')
    case 14 => Form(Clr, 'A', 'N', 'N')
    case _ => Form(Cpl, 'A', 'N', 'N')
  }

  /** The opcodes 0x?5 to 0x?F: one operation on X, which is a direct byte in 0x?5,
      @R0 and @R1 in the next two and R0 to R7 in the rest. */
  function Regular(hi: nat, x: char): Form
    requires hi < 16
  {
    match hi
    case 0 => Form(Inc, x, 'N', 'N')
    case 1 => Form(Dec, x, 'N', 'N')
    case 2 => Form(Add, 'A', x, 'N')
    case 3 => Form(Addc, 'A', x, 'N')
    case 4 => Form(Orl, 'A', x, 'N')
    case 5 => Form(Anl, 'A', x, 'N')
    case 6 => Form(Xrl, 'A', x, 'N')
    case 7 => Form(Mov, x, '#', 'N')
    case 8 => Form(Mov, 'D', x, 'N')
    case 9 => Form(Subb, 'A', x, 'N')
    case 10 => Form(Mov, x, 'D', 'N')
    case 11 => Form(Cjne, x, '#', 'J')
    case 12 => Form(Xch, 'A', x, 'N')
    case 13 => Form(Djnz, x, 'J', 'N')
    case 14 => Form(Mov, 'A', x, 'N')
    case _ => Form(Mov, x, 'A', 'N')
  }

  /** The instruction of an opcode byte. */
  function Instruction(b: byte): Option<Form>
  {
    var hi, lo := b / 16, b % 16;
    if lo == 0 then Some(Ending0(hi))
    else if lo == 1 then Some(Form(if hi % 2 == 0 then Ajmp else Acall, '1', 'N', 'N'))
    else if lo == 2 then Some(Ending2(hi))
    else if lo == 3 then Some(Ending3(hi))
    else if lo == 4 then Some(Ending4(hi))
    else if lo == 5 then
      if hi == 10 then None else Some(if hi == 11 then Form(Cjne, 'A', 'D', 'J') else Regular(hi, 'D'))
    else if lo < 8 then Some(if hi == 13 then Form(Xchd, 'A', 'I', 'N') else Regular(hi, 'I'))
    else Some(Regular(hi, 'R'))
  }

  lemma Map0(hi: nat)
    requires 0 <= hi < 8
    ensures Column0(hi) < ROWS && FormOf(RowAt(Column0(hi))) == Ending0(hi)
  {
  }

  lemma Map0b(hi: nat)
    requires 8 <= hi < 16
    ensures Column0(hi) < ROWS && FormOf(RowAt(Column0(hi))) == Ending0(hi)
  {
  }

  lemma Map2(hi: nat)
    requires 0 <= hi < 8
    ensures Column2(hi) < ROWS && FormOf(RowAt(Column2(hi))) == Ending2(hi)
  {
  }

  lemma Map2b(hi: nat)
    requires 8 <= hi < 16
    ensures Column2(hi) < ROWS && FormOf(RowAt(Column2(hi))) == Ending2(hi)
  {
  }

  lemma Map3(hi: nat)
    requires 0 <= hi < 8
    ensures Column3(hi) < ROWS && FormOf(RowAt(Column3(hi))) == Ending3(hi)
  {
  }

  lemma Map3b(hi: nat)
    requires 8 <= hi < 16
    ensures Column3(hi) < ROWS && FormOf(RowAt(Column3(hi))) == Ending3(hi)
  {
  }

  lemma Map4(hi: nat)
    requires 0 <= hi < 8
    ensures Column4(hi) < ROWS && FormOf(RowAt(Column4(hi))) == Ending4(hi)
  {
  }

  lemma Map4b(hi: nat)
    requires 8 <= hi < 16
    ensures Column4(hi) < ROWS && FormOf(RowAt(Column4(hi))) == Ending4(hi)
  {
  }

  lemma Map5(hi: nat)
    requires 0 <= hi < 8
    ensures Column5(hi) < ROWS && FormOf(RowAt(Column5(hi))) == Regular(hi, 'D')
  {
  }

  lemma Map5b(hi: nat)
    requires 8 <= hi < 16 && hi != 10
    ensures Column5(hi) < ROWS
    ensures FormOf(RowAt(Column5(hi))) == if hi == 11 then Form(Cjne, 'A', 'D', 'J') else Regular(hi, 'D')
  {
  }

  lemma Map6(hi: nat)
    requires 0 <= hi < 8
    ensures Column6(hi) < ROWS && FormOf(RowAt(Column6(hi))) == Regular(hi, 'I')
  {
  }

  lemma Map6b(hi: nat)
    requires 8 <= hi < 16
    ensures Column6(hi) < ROWS
    ensures FormOf(RowAt(Column6(hi))) == if hi == 13 then Form(Xchd, 'A', 'I', 'N') else Regular(hi, 'I')
  {
  }

  lemma Map8(hi: nat)
    requires 0 <= hi < 8
    ensures Column8(hi) < ROWS && FormOf(RowAt(Column8(hi))) == Regular(hi, 'R')
  {
  }

  lemma Map8b(hi: nat)
    requires 8 <= hi < 16
    ensures Column8(hi) < ROWS && FormOf(RowAt(Column8(hi))) == Regular(hi, 'R')
  {
  }

  lemma MapJumps()
    ensures FormOf(RowAt(0)) == Form(Acall, '1', 'N', 'N') && FormOf(RowAt(9)) == Form(Ajmp, '1', 'N', 'N')
  {
  }

  /** The row of every opcode byte is the instruction the map has there; the byte
      without one has no row. */
  lemma TableIsTheMap(b: byte)
    ensures match RowOf(b)
            case None => Instruction(b) == None
            case Some(i) => i < ROWS && Instruction(b) == Some(FormOf(RowAt(i)))
  {
    hide RowAt, Column0, Column2, Column3, Column4, Column5, Column6, Column8;
    hide Ending0, Ending2, Ending3, Ending4, Regular;
    var hi, lo := b / 16, b % 16;
    MapJumps();
    if lo == 0 { if hi < 8 { Map0(hi); } else { Map0b(hi); } }
    else if lo == 2 { if hi < 8 { Map2(hi); } else { Map2b(hi); } }
    else if lo == 3 { if hi < 8 { Map3(hi); } else { Map3b(hi); } }
    else if lo == 4 { if hi < 8 { Map4(hi); } else { Map4b(hi); } }
    else if lo == 5 && hi != 10 { if hi < 8 { Map5(hi); } else { Map5b(hi); } }
    else if 6 <= lo < 8 { if hi < 8 { Map6(hi); } else { Map6b(hi); } }
    else if 8 <= lo { if hi < 8 { Map8(hi); } else { Map8b(hi); } }
  }
}
