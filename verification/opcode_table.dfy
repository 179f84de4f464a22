/** The opcode table shared by the assembler and the disassembler, and the map
    from an opcode byte back to the one row that carries it. */
module OpcodeTable {
  import opened Bits
  import opened Wrappers

  datatype Mnemonic =
    | Acall | Add | Addc | Ajmp | Anl | Cjne | Clr | Cpl | Da | Dec | Div | Djnz | Inc | Jb | Jbc | Jc | Jmp
    | Jnb | Jnc | Jnz | Jz | Lcall | Ljmp | Mov | Movc | Movx | Mul | Nop | Orl | Pop | Push | Ret | Reti
    | Rl | Rlc | Rr | Rrc | Setb | Sjmp | Subb | Swap | Xch | Xchd | Xrl

  /** One row: the three operand letters, the instruction size with its
      last-row bit, the relocation letter, the opcode bits and their mask. */
  datatype Row = Row(name: Mnemonic, a0: char, a1: char, a2: char,
                     insnSize: nat, mreloc: char, bin: nat, mask: nat)
  {
    /** The last row of its mnemonic carries 0x80 in the size. */
    predicate Last() { insnSize >= 0x80 }

    /** insn_size & 0x03 */
    function Length(): nat { insnSize % 4 }
  }

  const ROWS: nat := 111

  // The table is written in slices so that a proof about one of them reads no
  // other.

  function Slice0(i: nat): Row
    requires 0 <= i < 14
  {
    match i
    case 0 => Row(Acall, '1', 'N', 'N', 0x82, '1', 0x11, 0x1F)
    case 1 => Row(Add, 'A', 'R', 'N', 0x01, 'R', 0x28, 0xF8)
    case 2 => Row(Add, 'A', 'I', 'N', 0x01, 'I', 0x26, 0xFE)
    case 3 => Row(Add, 'A', 'D', 'N', 0x02, 'D', 0x25, 0xFF)
    case 4 => Row(Add, 'A', '#', 'N', 0x82, 'D', 0x24, 0xFF)
    case 5 => Row(Addc, 'A', 'R', 'N', 0x01, 'R', 0x38, 0xF8)
    case 6 => Row(Addc, 'A', 'I', 'N', 0x01, 'I', 0x36, 0xFE)
    case 7 => Row(Addc, 'A', 'D', 'N', 0x02, 'D', 0x35, 0xFF)
    case 8 => Row(Addc, 'A', '#', 'N', 0x82, 'D', 0x34, 0xFF)
    case 9 => Row(Ajmp, '1', 'N', 'N', 0x82, '1', 0x01, 0x1F)
    case 10 => Row(Anl, 'A', 'R', 'N', 0x01, 'R', 0x58, 0xF8)
    case 11 => Row(Anl, 'A', 'I', 'N', 0x01, 'I', 0x56, 0xFE)
    case 12 => Row(Anl, 'A', 'D', 'N', 0x02, 'D', 0x55, 0xFF)
    case _ => Row(Anl, 'A', '#', 'N', 0x02, 'D', 0x54, 0xFF)
  }

  function Slice1(i: nat): Row
    requires 14 <= i < 28
  {
    match i
    case 14 => Row(Anl, 'r', 'B', 'N', 0x02, 'B', 0x82, 0xFF)
    case 15 => Row(Anl, 'r', '/', 'N', 0x02, 'B', 0xB0, 0xFF)
    case 16 => Row(Anl, 'D', 'A', 'N', 0x02, 'D', 0x52, 0xFF)
    case 17 => Row(Anl, 'D', '#', 'N', 0x83, 'a', 0x53, 0xFF)
    case 18 => Row(Cjne, 'A', '#', 'J', 0x03, 'Z', 0xB4, 0xFF)
    case 19 => Row(Cjne, 'R', '#', 'J', 0x03, 'Y', 0xB8, 0xF8)
    case 20 => Row(Cjne, 'I', '#', 'J', 0x03, 'X', 0xB6, 0xFE)
    case 21 => Row(Cjne, 'A', 'D', 'J', 0x83, 'Z', 0xB5, 0xFF)
    case 22 => Row(Clr, 'A', 'N', 'N', 0x01, 'N', 0xE4, 0xFF)
    case 23 => Row(Clr, 'r', 'N', 'N', 0x01, 'N', 0xC3, 0xFF)
    case 24 => Row(Clr, 'B', 'N', 'N', 0x82, 'B', 0xC2, 0xFF)
    case 25 => Row(Cpl, 'A', 'N', 'N', 0x01, 'N', 0xF4, 0xFF)
    case 26 => Row(Cpl, 'r', 'N', 'N', 0x01, 'N', 0xB3, 0xFF)
    case _ => Row(Cpl, 'B', 'N', 'N', 0x82, 'B', 0xB2, 0xFF)
  }

  function Slice2(i: nat): Row
    requires 28 <= i < 42
  {
    match i
    case 28 => Row(Da, 'A', 'N', 'N', 0x81, 'N', 0xD4, 0xFF)
    case 29 => Row(Dec, 'A', 'N', 'N', 0x01, 'N', 0x14, 0xFF)
    case 30 => Row(Dec, 'R', 'N', 'N', 0x01, 'R', 0x18, 0xF8)
    case 31 => Row(Dec, 'I', 'N', 'N', 0x01, 'I', 0x16, 0xFE)
    case 32 => Row(Dec, 'D', 'N', 'N', 0x82, 'D', 0x15, 0xFF)
    case 33 => Row(Div, 'C', 'N', 'N', 0x81, 'N', 0x84, 0xFF)
    case 34 => Row(Djnz, 'R', 'J', 'N', 0x02, 'W', 0xD8, 0xF8)
    case 35 => Row(Djnz, 'D', 'J', 'N', 0x83, 'Z', 0xD5, 0xFF)
    case 36 => Row(Inc, 'A', 'N', 'N', 0x01, 'N', 0x04, 0xFF)
    case 37 => Row(Inc, 'R', 'N', 'N', 0x01, 'R', 0x08, 0xF8)
    case 38 => Row(Inc, 'I', 'N', 'N', 0x01, 'I', 0x06, 0xFE)
    case 39 => Row(Inc, 'P', 'N', 'N', 0x01, 'N', 0xA3, 0xFF)
    case 40 => Row(Inc, 'D', 'N', 'N', 0x82, 'D', 0x05, 0xFF)
    case _ => Row(Jb, 'B', 'J', 'N', 0x83, 'J', 0x20, 0xFF)
  }

  function Slice3(i: nat): Row
    requires 42 <= i < 56
  {
    match i
    case 42 => Row(Jbc, 'B', 'J', 'N', 0x83, 'J', 0x10, 0xFF)
    case 43 => Row(Jc, 'J', 'N', 'N', 0x82, '7', 0x40, 0xFF)
    case 44 => Row(Jmp, '@', 'N', 'N', 0x81, 'N', 0x73, 0xFF)
    case 45 => Row(Jnb, 'B', 'J', 'N', 0x83, 'J', 0x30, 0xFF)
    case 46 => Row(Jnc, 'J', 'N', 'N', 0x82, '7', 0x50, 0xFF)
    case 47 => Row(Jnz, 'J', 'N', 'N', 0x82, '7', 0x70, 0xFF)
    case 48 => Row(Jz, 'J', 'N', 'N', 0x82, '7', 0x60, 0xFF)
    case 49 => Row(Lcall, '6', 'N', 'N', 0x83, '6', 0x12, 0xFF)
    case 50 => Row(Ljmp, '6', 'N', 'N', 0x83, '6', 0x02, 0xFF)
    case 51 => Row(Mov, 'A', 'R', 'N', 0x01, 'R', 0xE8, 0xF8)
    case 52 => Row(Mov, 'A', 'I', 'N', 0x01, 'I', 0xE6, 0xFE)
    case 53 => Row(Mov, 'A', 'D', 'N', 0x02, 'D', 0xE5, 0xFF)
    case 54 => Row(Mov, 'A', '#', 'N', 0x02, 'D', 0x74, 0xFF)
    case _ => Row(Mov, 'R', 'A', 'N', 0x01, 'R', 0xF8, 0xF8)
  }

  function Slice4(i: nat): Row
    requires 56 <= i < 70
  {
    match i
    case 56 => Row(Mov, 'R', 'D', 'N', 0x02, 'r', 0xA8, 0xF8)
    case 57 => Row(Mov, 'R', '#', 'N', 0x02, 'r', 0x78, 0xF8)
    case 58 => Row(Mov, 'I', 'A', 'N', 0x01, 'I', 0xF6, 0xFE)
    case 59 => Row(Mov, 'I', 'D', 'N', 0x02, 'r', 0xA6, 0xFE)
    case 60 => Row(Mov, 'I', '#', 'N', 0x02, 'r', 0x76, 0xFE)
    case 61 => Row(Mov, 'r', 'B', 'N', 0x02, 'B', 0xA2, 0xFF)
    case 62 => Row(Mov, 'P', '#', 'N', 0x03, '6', 0x90, 0xFF)
    case 63 => Row(Mov, 'B', 'r', 'N', 0x02, 'B', 0x92, 0xFF)
    case 64 => Row(Mov, 'D', 'A', 'N', 0x02, 'D', 0xF5, 0xFF)
    case 65 => Row(Mov, 'D', 'R', 'N', 0x02, 'r', 0x88, 0xF8)
    case 66 => Row(Mov, 'D', 'I', 'N', 0x02, 'r', 0x86, 0xFE)
    case 67 => Row(Mov, 'D', 'D', 'N', 0x03, 'd', 0x85, 0xFF)
    case 68 => Row(Mov, 'D', '#', 'N', 0x83, 'a', 0x75, 0xFF)
    case _ => Row(Movc, 'A', '@', 'N', 0x01, 'N', 0x93, 0xFF)
  }

  function Slice5(i: nat): Row
    requires 70 <= i < 84
  {
    match i
    case 70 => Row(Movc, 'A', 'X', 'N', 0x81, 'N', 0x83, 0xFF)
    case 71 => Row(Movx, 'A', 'I', 'N', 0x01, 'I', 0xE2, 0xFE)
    case 72 => Row(Movx, 'A', 'T', 'N', 0x01, 'N', 0xE0, 0xFF)
    case 73 => Row(Movx, 'I', 'A', 'N', 0x01, 'I', 0xF2, 0xFE)
    case 74 => Row(Movx, 'T', 'A', 'N', 0x81, 'N', 0xF0, 0xFF)
    case 75 => Row(Mul, 'C', 'N', 'N', 0x81, 'N', 0xA4, 0xFF)
    case 76 => Row(Nop, 'N', 'N', 'N', 0x81, 'N', 0x00, 0xFF)
    case 77 => Row(Orl, 'A', 'R', 'N', 0x01, 'R', 0x48, 0xF8)
    case 78 => Row(Orl, 'A', 'I', 'N', 0x01, 'I', 0x46, 0xFE)
    case 79 => Row(Orl, 'A', 'D', 'N', 0x02, 'D', 0x45, 0xFF)
    case 80 => Row(Orl, 'A', '#', 'N', 0x02, 'D', 0x44, 0xFF)
    case 81 => Row(Orl, 'r', 'B', 'N', 0x02, 'B', 0x72, 0xFF)
    case 82 => Row(Orl, 'r', '/', 'N', 0x02, 'B', 0xA0, 0xFF)
    case _ => Row(Orl, 'D', 'A', 'N', 0x02, 'D', 0x42, 0xFF)
  }

  function Slice6(i: nat): Row
    requires 84 <= i < 98
  {
    match i
    case 84 => Row(Orl, 'D', '#', 'N', 0x83, 'a', 0x43, 0xFF)
    case 85 => Row(Pop, 'D', 'N', 'N', 0x82, 'D', 0xD0, 0xFF)
    case 86 => Row(Push, 'D', 'N', 'N', 0x82, 'D', 0xC0, 0xFF)
    case 87 => Row(Ret, 'N', 'N', 'N', 0x81, 'N', 0x22, 0xFF)
    case 88 => Row(Reti, 'N', 'N', 'N', 0x81, 'N', 0x32, 0xFF)
    case 89 => Row(Rl, 'A', 'N', 'N', 0x81, 'N', 0x23, 0xFF)
    case 90 => Row(Rlc, 'A', 'N', 'N', 0x81, 'N', 0x33, 0xFF)
    case 91 => Row(Rr, 'A', 'N', 'N', 0x81, 'N', 0x03, 0xFF)
    case 92 => Row(Rrc, 'A', 'N', 'N', 0x81, 'N', 0x13, 0xFF)
    case 93 => Row(Setb, 'r', 'N', 'N', 0x01, 'N', 0xD3, 0xFF)
    case 94 => Row(Setb, 'B', 'N', 'N', 0x82, 'B', 0xD2, 0xFF)
    case 95 => Row(Sjmp, 'J', 'N', 'N', 0x82, '7', 0x80, 0xFF)
    case 96 => Row(Subb, 'A', 'R', 'N', 0x01, 'R', 0x98, 0xF8)
    case _ => Row(Subb, 'A', 'I', 'N', 0x01, 'I', 0x96, 0xFE)
  }

  function Slice7(i: nat): Row
    requires 98 <= i < 111
  {
    match i
    case 98 => Row(Subb, 'A', 'D', 'N', 0x02, 'D', 0x95, 0xFF)
    case 99 => Row(Subb, 'A', '#', 'N', 0x82, 'D', 0x94, 0xFF)
    case 100 => Row(Swap, 'A', 'N', 'N', 0x81, 'N', 0xC4, 0xFF)
    case 101 => Row(Xch, 'A', 'R', 'N', 0x01, 'R', 0xC8, 0xF8)
    case 102 => Row(Xch, 'A', 'I', 'N', 0x01, 'I', 0xC6, 0xFE)
    case 103 => Row(Xch, 'A', 'D', 'N', 0x82, 'D', 0xC5, 0xFF)
    case 104 => Row(Xchd, 'A', 'I', 'N', 0x81, 'I', 0xD6, 0xFE)
    case 105 => Row(Xrl, 'A', 'R', 'N', 0x01, 'R', 0x68, 0xF8)
    case 106 => Row(Xrl, 'A', 'I', 'N', 0x01, 'I', 0x66, 0xFE)
    case 107 => Row(Xrl, 'A', 'D', 'N', 0x02, 'D', 0x65, 0xFF)
    case 108 => Row(Xrl, 'A', '#', 'N', 0x02, 'D', 0x64, 0xFF)
    case 109 => Row(Xrl, 'D', 'A', 'N', 0x02, 'D', 0x62, 0xFF)
    case _ => Row(Xrl, 'D', '#', 'N', 0x83, 'a', 0x63, 0xFF)
  }

  /** Row I of the table, in table order. */
  function RowAt(i: nat): Row
    requires i < ROWS
  {
    if i < 14 then Slice0(i) else if i < 28 then Slice1(i)
    else if i < 42 then Slice2(i) else if i < 56 then Slice3(i)
    else if i < 70 then Slice4(i) else if i < 84 then Slice5(i)
    else if i < 98 then Slice6(i) else Slice7(i)
  }

  // The columns of the MCS-51 opcode map by low nibble.  Column 1 is the
  // page jumps, columns 6 and 7 share @R0/@R1 rows and columns 8 to 15
  // share R0..R7 rows.

  function Column0(hi: nat): nat
    requires hi < 16
  {
    match hi
    case 0 => 76 case 1 => 42 case 2 => 41 case 3 => 45 case 4 => 43 case 5 => 46 case 6 => 48 case 7 => 47
    case 8 => 95 case 9 => 62 case 10 => 82 case 11 => 15 case 12 => 86 case 13 => 85 case 14 => 72 case _ => 74
  }

  function Column2(hi: nat): nat
    requires hi < 16
  {
    match hi
    case 0 => 50 case 1 => 49 case 2 => 87 case 3 => 88 case 4 => 83 case 5 => 16 case 6 => 109 case 7 => 81
    case 8 => 14 case 9 => 63 case 10 => 61 case 11 => 27 case 12 => 24 case 13 => 94 case 14 => 71 case _ => 73
  }

  function Column3(hi: nat): nat
    requires hi < 16
  {
    match hi
    case 0 => 91 case 1 => 92 case 2 => 89 case 3 => 90 case 4 => 84 case 5 => 17 case 6 => 110 case 7 => 44
    case 8 => 70 case 9 => 69 case 10 => 39 case 11 => 26 case 12 => 23 case 13 => 93 case 14 => 71 case _ => 73
  }

  function Column4(hi: nat): nat
    requires hi < 16
  {
    match hi
    case 0 => 36 case 1 => 29 case 2 => 4 case 3 => 8 case 4 => 80 case 5 => 13 case 6 => 108 case 7 => 54
    case 8 => 33 case 9 => 99 case 10 => 75 case 11 => 18 case 12 => 100 case 13 => 28 case 14 => 22 case _ => 25
  }

  function Column5(hi: nat): nat
    requires hi < 16 && hi != 10
  {
    match hi
    case 0 => 40 case 1 => 32 case 2 => 3 case 3 => 7 case 4 => 79 case 5 => 12 case 6 => 107 case 7 => 68
    case 8 => 67 case 9 => 98 case 11 => 21 case 12 => 103 case 13 => 35 case 14 => 53 case _ => 64
  }

  function Column6(hi: nat): nat
    requires hi < 16
  {
    match hi
    case 0 => 38 case 1 => 31 case 2 => 2 case 3 => 6 case 4 => 78 case 5 => 11 case 6 => 106 case 7 => 60
    case 8 => 66 case 9 => 97 case 10 => 59 case 11 => 20 case 12 => 102 case 13 => 104 case 14 => 52 case _ => 58
  }

  function Column8(hi: nat): nat
    requires hi < 16
  {
    match hi
    case 0 => 37 case 1 => 30 case 2 => 1 case 3 => 5 case 4 => 77 case 5 => 10 case 6 => 105 case 7 => 57
    case 8 => 65 case 9 => 96 case 10 => 56 case 11 => 19 case 12 => 101 case 13 => 34 case 14 => 51 case _ => 55
  }

  /** The row of an opcode byte; 0xA5 is the one byte that has none. */
  function RowOf(b: byte): Option<nat>
  {
    var hi, lo := b / 16, b % 16;
    if b == 0xA5 then None
    else if lo >= 8 then Some(Column8(hi))
    else if lo >= 6 then Some(Column6(hi))
    else match lo
      case 0 => Some(Column0(hi))
      case 1 => Some(if hi % 2 == 1 then 0 else 9)
      case 2 => Some(Column2(hi))
      case 3 => Some(Column3(hi))
      case 4 => Some(Column4(hi))
      case _ => Some(Column5(hi))
  }

  /** The test the disassembler makes of a row. */
  predicate Matches(b: byte, row: Row) { BitAnd(b, row.mask) == row.bin }

  /** The opcode bytes a row carries, by its mask. */
  predicate Carries(row: Row, b: byte)
  {
    match row.mask
    case 0xFF => b == row.bin
    case 0xFE => b - b % 2 == row.bin
    case 0xF8 => b - b % 8 == row.bin
    case _ => b % 32 == row.bin
  }

  predicate MaskKnown(row: Row)
  {
    && row.bin < 0x100
    && (|| row.mask == 0xFF
        || (row.mask == 0xFE && row.bin % 2 == 0)
        || (row.mask == 0xF8 && row.bin % 8 == 0)
        || (row.mask == 0x1F && row.bin < 32))
  }

  lemma MatchesCarries(row: Row, b: byte)
    requires MaskKnown(row)
    ensures Matches(b, row) <==> Carries(row, b)
  {
    OpcodeMasks(b);
  }

  lemma RowMasks0(i: nat)
    requires i < 56
    ensures MaskKnown(RowAt(i))
  {
  }

  lemma RowMasks1(i: nat)
    requires 56 <= i < ROWS
    ensures MaskKnown(RowAt(i))
  {
  }

  lemma Carried0(i: nat, b: byte)
    requires 0 <= i < 7 && Carries(RowAt(i), b)
    ensures RowOf(b) == Some(i)
  {
  }

  lemma Carried0b(i: nat, b: byte)
    requires 7 <= i < 14 && Carries(RowAt(i), b)
    ensures RowOf(b) == Some(i)
  {
  }

  lemma Carried1(i: nat, b: byte)
    requires 14 <= i < 28 && Carries(RowAt(i), b)
    ensures RowOf(b) == Some(i)
  {
  }

  lemma Carried2(i: nat, b: byte)
    requires 28 <= i < 42 && Carries(RowAt(i), b)
    ensures RowOf(b) == Some(i)
  {
  }

  lemma Carried3(i: nat, b: byte)
    requires 42 <= i < 49 && Carries(RowAt(i), b)
    ensures RowOf(b) == Some(i)
  {
  }

  lemma Carried3b(i: nat, b: byte)
    requires 49 <= i < 56 && Carries(RowAt(i), b)
    ensures RowOf(b) == Some(i)
  {
    var row := Slice3(i);
    if row.mask == 0xF8 { assert b % 16 >= 8; }
    else if row.mask == 0xFE { assert 6 <= b % 16 < 8; }
    else { assert b == row.bin; }
  }

  lemma Carried4(i: nat, b: byte)
    requires 56 <= i < 70 && Carries(RowAt(i), b)
    ensures RowOf(b) == Some(i)
  {
  }

  lemma Carried5(i: nat, b: byte)
    requires 70 <= i < 84 && Carries(RowAt(i), b)
    ensures RowOf(b) == Some(i)
  {
  }

  lemma Carried6(i: nat, b: byte)
    requires 84 <= i < 98 && Carries(RowAt(i), b)
    ensures RowOf(b) == Some(i)
  {
  }

  lemma Carried7(i: nat, b: byte)
    requires 98 <= i < 111 && Carries(RowAt(i), b)
    ensures RowOf(b) == Some(i)
  {
  }

  /** A byte is carried by no row but its own. */
  lemma CarriedByOneRow(i: nat, b: byte)
    requires i < ROWS && Carries(RowAt(i), b)
    ensures RowOf(b) == Some(i)
  {
    if i < 7 { Carried0(i, b); } else if i < 14 { Carried0b(i, b); } else if i < 28 { Carried1(i, b); }
    else if i < 42 { Carried2(i, b); } else if i < 49 { Carried3(i, b); } else if i < 56 { Carried3b(i, b); }
    else if i < 70 { Carried4(i, b); } else if i < 84 { Carried5(i, b); }
    else if i < 98 { Carried6(i, b); } else { Carried7(i, b); }
  }

  lemma RowOfColumn0(b: byte)
    requires var lo := b % 16; lo == 0
    ensures RowOf(b).value < ROWS && Carries(RowAt(RowOf(b).value), b)
  {
  }

  lemma RowOfColumn1(b: byte)
    requires var lo := b % 16; lo == 1
    ensures RowOf(b).value < ROWS && Carries(RowAt(RowOf(b).value), b)
  {
  }

  lemma RowOfColumn2(b: byte)
    requires var lo := b % 16; lo == 2
    ensures RowOf(b).value < ROWS && Carries(RowAt(RowOf(b).value), b)
  {
  }

  lemma RowOfColumn3(b: byte)
    requires var lo := b % 16; lo == 3
    ensures RowOf(b).value < ROWS && Carries(RowAt(RowOf(b).value), b)
  {
  }

  lemma RowOfColumn4(b: byte)
    requires var lo := b % 16; lo == 4
    ensures RowOf(b).value < ROWS && Carries(RowAt(RowOf(b).value), b)
  {
  }

  lemma RowOfColumn5(b: byte)
    requires var lo := b % 16; lo == 5 && b != 0xA5
    ensures RowOf(b).value < ROWS && Carries(RowAt(RowOf(b).value), b)
  {
  }

  lemma RowOfColumn6(b: byte)
    requires var lo := b % 16; 6 <= lo < 8
    ensures RowOf(b).value < ROWS && Carries(RowAt(RowOf(b).value), b)
  {
  }

  lemma RowOfColumn8(b: byte)
    requires var lo := b % 16; lo >= 8 && b < 0x80
    ensures RowOf(b).value < ROWS && Carries(RowAt(RowOf(b).value), b)
  {
  }

  lemma RowOfColumn9(b: byte)
    requires var lo := b % 16; lo >= 8 && b >= 0x80
    ensures RowOf(b).value < ROWS && Carries(RowAt(RowOf(b).value), b)
  {
  }

  /** Every byte but 0xA5 is carried by the row the map gives it. */
  lemma RowOfCarries(b: byte)
    requires b != 0xA5
    ensures RowOf(b).Some? && RowOf(b).value < ROWS && Carries(RowAt(RowOf(b).value), b)
  {
    var lo := b % 16;
    if lo == 0 { RowOfColumn0(b); } else if lo == 1 { RowOfColumn1(b); }
    else if lo == 2 { RowOfColumn2(b); } else if lo == 3 { RowOfColumn3(b); }
    else if lo == 4 { RowOfColumn4(b); } else if lo == 5 { RowOfColumn5(b); }
    else if lo < 8 { RowOfColumn6(b); } else if b < 0x80 { RowOfColumn8(b); } else { RowOfColumn9(b); }
  }

  /** No row carries 0xA5. */
  lemma NoRowCarriesA5(i: nat)
    requires i < ROWS
    ensures !Carries(RowAt(i), 0xA5)
  {
    if Carries(RowAt(i), 0xA5) { CarriedByOneRow(i, 0xA5); }
  }

  /** The scan's test of the table holds of exactly one row, and of none for
      0xA5. */
  lemma ScanFindsRow(b: byte, i: nat)
    requires i < ROWS
    ensures Matches(b, RowAt(i)) <==> RowOf(b) == Some(i)
  {
    if i < 56 { RowMasks0(i); } else { RowMasks1(i); }
    MatchesCarries(RowAt(i), b);
    if Carries(RowAt(i), b) { CarriedByOneRow(i, b); }
    if RowOf(b) == Some(i) { RowOfCarries(b); }
  }
}
