/** The lines the disassembler prints, given back to the assembler: the operands
    are read by the kind of text they are, the row is found from the mnemonic. */
module PrintedLine {
  import opened Bits
  import opened Wrappers
  import opened Framing
  import opened OpcodeTable
  import opened GasEmit
  import opened Agreement
  import opened Disassembler
  import opened Codec
  import opened RowSelect
  import opened LinkedCode

  // ------------------------------------------------------- mnemonics and rows

  /** The mnemonics in the order of the table. */
  function Order(m: Mnemonic): nat
  {
    match m
    case Acall => 0 case Add => 1 case Addc => 2 case Ajmp => 3 case Anl => 4 case Cjne => 5 case Clr => 6
    case Cpl => 7 case Da => 8 case Dec => 9 case Div => 10 case Djnz => 11 case Inc => 12 case Jb => 13
    case Jbc => 14 case Jc => 15 case Jmp => 16 case Jnb => 17 case Jnc => 18 case Jnz => 19 case Jz => 20
    case Lcall => 21 case Ljmp => 22 case Mov => 23 case Movc => 24 case Movx => 25 case Mul => 26 case Nop => 27
    case Orl => 28 case Pop => 29 case Push => 30 case Ret => 31 case Reti => 32 case Rl => 33 case Rlc => 34
    case Rr => 35 case Rrc => 36 case Setb => 37 case Sjmp => 38 case Subb => 39 case Swap => 40 case Xch => 41
    case Xchd => 42 case Xrl => 43
  }

  /** The place of the mnemonic of row I among the mnemonics. */
  function Group(i: nat): nat
  {
    if i < 1 then 0 else if i < 5 then 1 else if i < 9 then 2 else if i < 10 then 3 else if i < 18 then 4
    else if i < 22 then 5 else if i < 25 then 6 else if i < 28 then 7 else if i < 29 then 8
    else if i < 33 then 9 else if i < 34 then 10 else if i < 36 then 11 else if i < 41 then 12
    else if i < 42 then 13 else if i < 43 then 14 else if i < 44 then 15 else if i < 45 then 16
    else if i < 46 then 17 else if i < 47 then 18 else if i < 48 then 19 else if i < 49 then 20
    else if i < 50 then 21 else if i < 51 then 22 else if i < 69 then 23 else if i < 71 then 24
    else if i < 75 then 25 else if i < 76 then 26 else if i < 77 then 27 else if i < 85 then 28
    else if i < 86 then 29 else if i < 87 then 30 else if i < 88 then 31 else if i < 89 then 32
    else if i < 90 then 33 else if i < 91 then 34 else if i < 92 then 35 else if i < 93 then 36
    else if i < 95 then 37 else if i < 96 then 38 else if i < 100 then 39 else if i < 101 then 40
    else if i < 104 then 41 else if i < 105 then 42 else 43
  }

  lemma Names0(i: nat)
    requires 0 <= i < 14
    ensures Order(RowAt(i).name) == Group(i)
  {
  }

  lemma Names1(i: nat)
    requires 14 <= i < 28
    ensures Order(RowAt(i).name) == Group(i)
  {
  }

  lemma Names2(i: nat)
    requires 28 <= i < 42
    ensures Order(RowAt(i).name) == Group(i)
  {
  }

  lemma Names3(i: nat)
    requires 42 <= i < 56
    ensures Order(RowAt(i).name) == Group(i)
  {
  }

  lemma Names4(i: nat)
    requires 56 <= i < 70
    ensures Order(RowAt(i).name) == Group(i)
  {
  }

  lemma Names5(i: nat)
    requires 70 <= i < 84
    ensures Order(RowAt(i).name) == Group(i)
  {
  }

  lemma Names6(i: nat)
    requires 84 <= i < 98
    ensures Order(RowAt(i).name) == Group(i)
  {
  }

  lemma Names7(i: nat)
    requires 98 <= i < 111
    ensures Order(RowAt(i).name) == Group(i)
  {
  }

  lemma NameOf(i: nat)
    requires i < ROWS
    ensures Order(RowAt(i).name) == Group(i)
  {
    hide RowAt, Order, Group;
    if i < 14 { Names0(i); } else if i < 28 { Names1(i); } else if i < 42 { Names2(i); }
    else if i < 56 { Names3(i); } else if i < 70 { Names4(i); } else if i < 84 { Names5(i); }
    else if i < 98 { Names6(i); } else { Names7(i); }
  }

  /** The first row from I on with a name, where the opcode hash starts; ROWS if
      there is none. */
  function FirstNamed(name: Mnemonic, i: nat): (f: nat)
    requires i <= ROWS
    ensures i <= f <= ROWS
    decreases ROWS - i
  {
    if i == ROWS || RowAt(i).name == name then i else FirstNamed(name, i + 1)
  }

  /** Rows before the first one of a mnemonic have another name. */
  lemma EarlierName(k: nat, i: nat)
    requires i < ROWS && k < FirstRow(i) <= i
    ensures RowAt(k).name != RowAt(i).name
  {
    hide RowAt, Order;
    NameOf(k);
    NameOf(i);
    EarlierGroup(k, i);
  }

  lemma EarlierGroup(k: nat, i: nat)
    requires i < ROWS && k < FirstRow(i) <= i
    ensures Group(k) < Group(i)
  {
  }

  lemma FirstIsNamed(i: nat)
    requires i < ROWS && FirstRow(i) <= i
    ensures RowAt(FirstRow(i)).name == RowAt(i).name
  {
    hide RowAt, FirstRow;
    RowsOfMnemonic(i);
  }

  lemma {:induction false} FirstFrom(i: nat, k: nat)
    requires i < ROWS && k <= FirstRow(i)
    ensures FirstRow(i) <= i && FirstNamed(RowAt(i).name, k) == FirstRow(i)
    decreases i - k
  {
    hide RowAt, FirstRow, Order;
    RowsOfMnemonic(i);
    FirstIsNamed(i);
    if k < FirstRow(i) {
      EarlierName(k, i);
      FirstFrom(i, k + 1);
    }
  }

  /** The hash gives the first row of the mnemonic of any of its rows. */
  lemma NameGivesFirstRow(i: nat)
    requires i < ROWS
    ensures FirstNamed(RowAt(i).name, 0) == FirstRow(i)
  {
    hide RowAt, FirstRow, FirstNamed;
    FirstFrom(i, 0);
  }

  // ------------------------------------------------------------ what is printed

  function Number(v: int): Arg { Arg(Constant(v), NoPrefix, 0) }

  /** A printed operand of the instruction at ADDR, as the assembler takes it: the
      names are those of the operand table, and a displacement is written on the
      location counter. */
  function TextOf(op: Operand, addr: nat): Option<Text>
  {
    match op
    case Nothing => None
    case Acc => Some(Named('A', 0))
    case AB => Some(Named('C', 0))
    case Carry => Some(Named('r', 0))
    case Dptr => Some(Named('P', 0))
    case AtADptr => Some(Named('@', 0))
    case AtAPc => Some(Named('X', 0))
    case AtDptr => Some(Named('T', 0))
    case Reg(n) => Some(Named('R', n))
    case AtReg(n) => Some(Named('I', n))
    case Byte(v) => Some(Plain(Number(v)))
    case NotBit(v) => Some(Slash(Number(v)))
    case Imm(v) => Some(Hash(Number(v)))
    case Imm16(v) => Some(Hash(Number(v)))
    case Code(v) => Some(Plain(Number(v)))
    case Rel(d) => Some(Plain(Number(addr + d)))
  }

  function ThirdOf(op: Operand, addr: nat): Option<Expr>
  {
    match TextOf(op, addr) case Some(Plain(a)) => Some(a.ex) case _ => None
  }

  /** The operands of a printed instruction at ADDR. */
  function LineOf(d: Decoded, addr: nat): Line
    requires d.Decoded?
  {
    Line(TextOf(d.op1, addr), TextOf(d.op2, addr), ThirdOf(d.op3, addr))
  }

  /** A line: .byte and a number, or a mnemonic and operands. */
  datatype Printed = Directive(b: byte) | Instruction(name: Mnemonic, line: Line)

  /** The line at the head of MEM and the bytes it stands for. */
  function PrintHead(mem: seq<byte>, addr: nat): Option<(Printed, nat)>
  {
    match Decode(mem, addr)
    case None => None
    case Some(RawByte(b)) => Some((Directive(b), 1))
    case Some(Decoded(i, o1, o2, o3, c, n)) =>
      if i < ROWS then Some((Instruction(RowAt(i).name, LineOf(Decoded(i, o1, o2, o3, c, n), addr)), n)) else None
  }

  // ---------------------------------------------------------- what is assembled

  /** An expression never read is not looked at; a register would be refused. */
  function OperandsOf(reg: nat, xs: Exprs): Operands
  {
    Operands(reg, if xs.ex1.Some? then xs.ex1.value else Register, if xs.ex2.Some? then xs.ex2.value else Register,
             xs.prefix1, xs.prefix2, xs.bit)
  }

  /** A line assembled at ADDR and linked: the hash, the two scans, the encoder. */
  function AssembleText(p: Printed, addr: nat, using: Option<nat>, syms: Symbols): Option<seq<byte>>
  {
    match p
    case Directive(b) => Some([b])
    case Instruction(name, l) =>
      var f := FirstNamed(name, 0);
      if f == ROWS then None
      else
        match Select(f, l, using)
        case Refused => None
        case Found(i, reg, xs) =>
          if i < ROWS && OpcodeByte(RowAt(i), reg) < 0x100 then LinkRow(RowAt(i), OperandsOf(reg, xs), addr, syms)
          else None
  }

  // --------------------------------------------------------------- one line back

  /** The line of an instruction of ROW with this register and these expressions. */
  predicate Wanted(l: Line, row: Row, using: Option<nat>, reg: nat, ex1: Option<Expr>, ex2: Option<Expr>)
  {
    && Fits(l, row) && Legible(l, using) && RowSelect.RegisterOf(l) == reg
    && ExprsOf(l, using) == Exprs(ex1, NoPrefix, ex2, NoPrefix, 0)
  }

  /** The register the opcode byte B of ROW names. */
  function RegIn(row: Row, b: byte): nat { if row.mask == 0xF8 then b % 8 else if row.mask == 0xFE then b % 2 else 0 }

  lemma PrintedPlain(i: nat, row: Row, mem: seq<byte>, addr: nat, using: Option<nat>)
    requires ShapeKnown(row) && mem != [] && Carries(row, mem[0]) && row.mreloc == 'N'
    ensures var d := ReadRow(i, row, mem, addr);
            d.Some? && d.value.Decoded? && Wanted(LineOf(d.value, addr), row, using, RegIn(row, mem[0]), None, None)
  {
    hide ReadOperand, TextOf, MaskKnown, Carries;
    var s1 := ReadsNamed(row.a0, row.a0, mem, addr, Step(1, 0, None, Nothing));
    var s2 := ReadsNamed(row.a1, row.a0, mem, addr, s1);
    var s3 := ReadsNamed(row.a2, row.a0, mem, addr, s2);
  }

  /** A letter of a fixed operand prints its name. */
  lemma ReadsNamed(c: char, first: char, mem: seq<byte>, addr: nat, s: Step) returns (t: Step)
    requires mem != [] && c in {'N', 'A', 'C', 'r', 'P', '@', 'X', 'T'}
    ensures ReadOperand(c, first, mem, addr, s) == Some(t) && t == s.(op := t.op)
    ensures TextOf(t.op, addr) == if c == 'N' then None else Some(Named(c, 0))
  {
    t := ReadOperand(c, first, mem, addr, s).value;
  }

  lemma PrintedRegister(i: nat, row: Row, mem: seq<byte>, addr: nat, using: Option<nat>)
    requires ShapeKnown(row) && mem != [] && Carries(row, mem[0]) && row.mreloc in {'I', 'R'}
    ensures var d := ReadRow(i, row, mem, addr);
            d.Some? && d.value.Decoded? && Wanted(LineOf(d.value, addr), row, using, RegIn(row, mem[0]), None, None)
  {
  }

  lemma PrintedOne(i: nat, row: Row, mem: seq<byte>, addr: nat, using: Option<nat>)
    requires ShapeKnown(row) && |mem| >= 2 && Carries(row, mem[0]) && row.mreloc in {'D', 'r', 'B'}
    ensures var d := ReadRow(i, row, mem, addr);
            && d.Some? && d.value.Decoded?
            && Wanted(LineOf(d.value, addr), row, using, RegIn(row, mem[0]), Some(Constant(mem[1])), None)
  {
  }

  lemma PrintedRel(i: nat, row: Row, mem: seq<byte>, addr: nat, using: Option<nat>)
    requires ShapeKnown(row) && |mem| >= 2 && Carries(row, mem[0]) && row.mreloc in {'7', 'W'}
    ensures var d := ReadRow(i, row, mem, addr);
            && d.Some? && d.value.Decoded?
            && Wanted(LineOf(d.value, addr), row, using, RegIn(row, mem[0]),
                      Some(Constant(addr + 2 + SignExtend(mem[1]))), None)
  {
  }

  lemma PrintedInpage(i: nat, row: Row, mem: seq<byte>, addr: nat, using: Option<nat>)
    requires ShapeKnown(row) && |mem| >= 2 && Carries(row, mem[0]) && row.mreloc == '1'
    ensures var d := ReadRow(i, row, mem, addr);
            && d.Some? && d.value.Decoded?
            && Wanted(LineOf(d.value, addr), row, using, RegIn(row, mem[0]),
                      Some(Constant(InpageTarget(addr + 2, mem[0], mem[1]))), None)
  {
  }

  lemma PrintedWord(i: nat, row: Row, mem: seq<byte>, addr: nat, using: Option<nat>)
    requires ShapeKnown(row) && |mem| >= 3 && Carries(row, mem[0]) && row.mreloc == '6'
    ensures var d := ReadRow(i, row, mem, addr);
            && d.Some? && d.value.Decoded?
            && Wanted(LineOf(d.value, addr), row, using, RegIn(row, mem[0]),
                      Some(Constant(Word(mem[1], mem[2]))), None)
  {
  }

  lemma PrintedTwo(i: nat, row: Row, mem: seq<byte>, addr: nat, using: Option<nat>)
    requires ShapeKnown(row) && |mem| >= 3 && Carries(row, mem[0]) && row.mreloc in {'d', 'a'}
    ensures var d := ReadRow(i, row, mem, addr);
            var (b, c) := if row.mreloc == 'd' then (mem[2], mem[1]) else (mem[1], mem[2]);
            && d.Some? && d.value.Decoded?
            && Wanted(LineOf(d.value, addr), row, using, RegIn(row, mem[0]), Some(Constant(b)), Some(Constant(c)))
  {
  }

  lemma PrintedDataRel(i: nat, row: Row, mem: seq<byte>, addr: nat, using: Option<nat>)
    requires ShapeKnown(row) && |mem| >= 3 && Carries(row, mem[0]) && row.mreloc in {'J', 'X', 'Y', 'Z'}
    ensures var d := ReadRow(i, row, mem, addr);
            && d.Some? && d.value.Decoded?
            && Wanted(LineOf(d.value, addr), row, using, RegIn(row, mem[0]),
                      Some(Constant(mem[1])), Some(Constant(addr + 3 + SignExtend(mem[2]))))
  {
  }

  /** Those expressions are the bytes of MEM again. */
  lemma BytesAgain(row: Row, mem: seq<byte>, addr: nat, ex1: Option<Expr>, ex2: Option<Expr>, syms: Symbols)
    requires ShapeKnown(row) && |mem| >= row.Length() > 0 && Carries(row, mem[0])
    requires AreOperands(row, mem, addr, ex1, ex2)
    ensures OpcodeByte(row, RegIn(row, mem[0])) < 0x100
    ensures LinkRow(row, OperandsOf(RegIn(row, mem[0]), Exprs(ex1, NoPrefix, ex2, NoPrefix, 0)), addr, syms)
         == Some(mem[..row.Length()])
  {
    var reg := RegIn(row, mem[0]);
    var o := OperandsOf(reg, Exprs(ex1, NoPrefix, ex2, NoPrefix, 0));
    Codec.RegisterOf(row, mem[0], reg);
    LinkIsEnds(row, o, addr, syms);
    hide LinkRow, OpcodeByte, RegIn, RegFits, MaskKnown;
    RowEndsAgain(row, o, mem, addr, ex1, ex2, syms);
  }

  /** The operands of ROW as they stand in MEM. */
  predicate AreOperands(row: Row, mem: seq<byte>, addr: nat, ex1: Option<Expr>, ex2: Option<Expr>)
    requires |mem| >= row.Length() > 0
  {
    match row.mreloc
    case 'N' | 'I' | 'R' => true
    case 'D' | 'r' | 'B' => |mem| >= 2 && ex1 == Some(Constant(mem[1]))
    case '7' | 'W' => |mem| >= 2 && ex1 == Some(Constant(addr + 2 + SignExtend(mem[1])))
    case '1' => |mem| >= 2 && ex1 == Some(Constant(InpageTarget(addr + 2, mem[0], mem[1])))
    case '6' => |mem| >= 3 && ex1 == Some(Constant(Word(mem[1], mem[2])))
    case 'd' => |mem| >= 3 && ex1 == Some(Constant(mem[2])) && ex2 == Some(Constant(mem[1]))
    case 'a' => |mem| >= 3 && ex1 == Some(Constant(mem[1])) && ex2 == Some(Constant(mem[2]))
    case _ => |mem| >= 3 && ex1 == Some(Constant(mem[1])) && ex2 == Some(Constant(addr + 3 + SignExtend(mem[2])))
  }

  lemma ByteAgain(letter: char, b: byte, off: nat, next: int, syms: Symbols)
    requires letter in {'D', '#', 'B', '/'}
    ensures EndOf(letter, Constant(b), NoPrefix, off, next, syms) == Some(b)
  {
  }

  lemma BranchAgain(b: byte, off: nat, next: int, syms: Symbols)
    ensures EndOf('J', Constant(next + SignExtend(b)), NoPrefix, off, next, syms) == Some(b)
  {
  }

  lemma WordAgain(op: byte, hi: byte, lo: byte, syms: Symbols)
    ensures WordEnd(op, Constant(Word(hi, lo)), syms) == Some([op, hi, lo])
  {
    WordHalves(hi, lo);
  }

  lemma JumpAgain(op: byte, hi: byte, lo: byte, addr: nat, syms: Symbols)
    requires hi % 32 == op % 32
    ensures InpageEnd(op, Constant(InpageTarget(addr + 2, hi, lo)), addr, syms) == Some([hi, lo])
  {
    InpageAgain(addr + 2, hi, lo, op);
  }

  lemma RowEndsAgain(row: Row, o: Operands, mem: seq<byte>, addr: nat, ex1: Option<Expr>, ex2: Option<Expr>,
                     syms: Symbols)
    requires ShapeKnown(row) && |mem| >= row.Length() > 0 && Carries(row, mem[0])
    requires AreOperands(row, mem, addr, ex1, ex2)
    requires o == OperandsOf(o.reg, Exprs(ex1, NoPrefix, ex2, NoPrefix, 0))
    requires Opcode(row, o.reg) < 0x100 && (row.mask != 0x1F ==> Opcode(row, o.reg) == mem[0])
    requires row.mask == 0x1F ==> !UsesReg(row)
    ensures RowEnds(row, o, addr, syms) == Some(mem[..row.Length()])
  {
    if row.mreloc == '1' {
      var op := Opcode(row, o.reg);
      JumpAgain(op, mem[0], mem[1], addr, syms);
      assert mem[..2] == [mem[0], mem[1]];
    } else if row.mreloc == '6' {
      WordAgain(mem[0], mem[1], mem[2], syms);
      assert mem[..3] == [mem[0], mem[1], mem[2]];
    } else if row.mreloc in {'N', 'I', 'R'} {
      assert mem[..1] == [mem[0]];
    } else {
      EightAgain(row, o, mem, addr, ex1, ex2, syms);
    }
  }

  lemma EightAgain(row: Row, o: Operands, mem: seq<byte>, addr: nat, ex1: Option<Expr>, ex2: Option<Expr>,
                   syms: Symbols)
    requires ShapeKnown(row) && |mem| >= row.Length() > 0 && row.mreloc !in {'N', 'I', 'R', '1', '6'}
    requires AreOperands(row, mem, addr, ex1, ex2)
    requires o == OperandsOf(o.reg, Exprs(ex1, NoPrefix, ex2, NoPrefix, 0))
    requires Opcode(row, o.reg) == mem[0]
    ensures RowEnds(row, o, addr, syms) == Some(mem[..row.Length()])
  {
    hide EndOf, SignExtend, MaskKnown;
    LettersKnown(row);
    var c1, off := Letter1(row), o.b2bOffset;
    if row.mreloc in {'D', 'r', 'B'} {
      ByteAgain(c1, mem[1], off, addr + 2, syms);
    } else if row.mreloc in {'7', 'W'} {
      BranchAgain(mem[1], off, addr + 2, syms);
    } else if row.mreloc == 'd' {
      ByteAgain('D', mem[1], off, addr + 2, syms);
      ByteAgain('D', mem[2], off, addr + 3, syms);
    } else if row.mreloc == 'a' {
      ByteAgain('D', mem[1], off, addr + 2, syms);
      ByteAgain('#', mem[2], off, addr + 3, syms);
    } else {
      ByteAgain(c1, mem[1], off, addr + 2, syms);
      BranchAgain(mem[2], off, addr + 3, syms);
    }
    if row.Length() == 2 { assert mem[..2] == [mem[0], mem[1]]; } else { assert mem[..3] == [mem[0], mem[1], mem[2]]; }
  }

  lemma LineIsWanted(i: nat, row: Row, mem: seq<byte>, addr: nat, using: Option<nat>)
    returns (ex1: Option<Expr>, ex2: Option<Expr>)
    requires ShapeKnown(row) && |mem| >= row.Length() > 0 && Carries(row, mem[0])
    ensures AreOperands(row, mem, addr, ex1, ex2)
    ensures var d := ReadRow(i, row, mem, addr);
            && d.Some? && d.value.Decoded?
            && Wanted(LineOf(d.value, addr), row, using, RegIn(row, mem[0]), ex1, ex2)
  {
    hide ReadRow, Wanted, LineOf, RegIn, Carries, MaskKnown, SignExtend, InpageTarget;
    ex1, ex2 := None, None;
    match row.mreloc {
      case 'N' =>
        PrintedPlain(i, row, mem, addr, using);
      case 'I' | 'R' =>
        PrintedRegister(i, row, mem, addr, using);
      case 'D' | 'r' | 'B' =>
        PrintedOne(i, row, mem, addr, using);
        ex1 := Some(Constant(mem[1]));
      case '7' | 'W' =>
        PrintedRel(i, row, mem, addr, using);
        ex1 := Some(Constant(addr + 2 + SignExtend(mem[1])));
      case '1' =>
        PrintedInpage(i, row, mem, addr, using);
        ex1 := Some(Constant(InpageTarget(addr + 2, mem[0], mem[1])));
      case '6' =>
        PrintedWord(i, row, mem, addr, using);
        ex1 := Some(Constant(Word(mem[1], mem[2])));
      case 'd' =>
        PrintedTwo(i, row, mem, addr, using);
        ex1, ex2 := Some(Constant(mem[2])), Some(Constant(mem[1]));
      case 'a' =>
        PrintedTwo(i, row, mem, addr, using);
        ex1, ex2 := Some(Constant(mem[1])), Some(Constant(mem[2]));
      case _ =>
        PrintedDataRel(i, row, mem, addr, using);
        ex1, ex2 := Some(Constant(mem[1])), Some(Constant(addr + 3 + SignExtend(mem[2])));
    }
  }

  /** From the first row of its mnemonic a printed line selects the row it was
      printed from, with its register and the operands that stand in memory. */
  lemma PrintedLineSelects(mem: seq<byte>, addr: nat, using: Option<nat>) returns (xs: Exprs)
    requires Decode(mem, addr).Some? && Decode(mem, addr).value.Decoded?
    ensures var d := Decode(mem, addr).value;
            && d.row < ROWS && 0 < d.length <= |mem| && d.length == RowAt(d.row).Length()
            && FirstNamed(RowAt(d.row).name, 0) < ROWS
            && Select(FirstNamed(RowAt(d.row).name, 0), LineOf(d, addr), using)
               == Found(d.row, RegIn(RowAt(d.row), mem[0]), xs)
    ensures var row := RowAt(Decode(mem, addr).value.row);
            && ShapeKnown(row) && Carries(row, mem[0])
            && xs == Exprs(xs.ex1, NoPrefix, xs.ex2, NoPrefix, 0) && AreOperands(row, mem, addr, xs.ex1, xs.ex2)
  {
    hide ReadRow, RowOf, RowAt, FirstRow, FirstNamed, Select, LineOf, RegIn, Carries, ShapeKnown, AreOperands;
    hide EncodeRow, OpcodeByte, StaysInside, ReadBack, ExprsOf, Fits;
    DecodedCarries(mem, addr);
    var i := RowOf(mem[0]).value;
    EveryShapeKnown(i);
    var row := RowAt(i);
    var d := ReadRow(i, row, mem, addr).value;
    ReadDecoded(i, row, mem, addr);
    EncodeAfterDecode(i, row, mem, addr, ReadBack(d));
    var ex1, ex2 := LineIsWanted(i, row, mem, addr, using);
    xs := Exprs(ex1, NoPrefix, ex2, NoPrefix, 0);
    NameGivesFirstRow(i);
    RowsOfMnemonic(i);
    SelectionIsComplete(i, LineOf(d, addr), using);
  }

  lemma DecodedCarries(mem: seq<byte>, addr: nat)
    requires Decode(mem, addr).Some?
    ensures mem != [] && (Decode(mem, addr).value.RawByte? ==> Decode(mem, addr).value.b == mem[0])
    ensures Decode(mem, addr).value.Decoded? ==>
              RowOf(mem[0]).Some? && RowOf(mem[0]).value < ROWS && Carries(RowAt(RowOf(mem[0]).value), mem[0])
  {
    hide ReadRow, RowAt, Carries;
    if mem[0] != 0xA5 {
      RowOfCarries(mem[0]);
      var i := RowOf(mem[0]).value;
      if ReadRow(i, RowAt(i), mem, addr).Some? { ReadDecoded(i, RowAt(i), mem, addr); }
    }
  }

  lemma ReadDecoded(i: nat, row: Row, mem: seq<byte>, addr: nat)
    requires mem != [] && ReadRow(i, row, mem, addr).Some?
    ensures var d := ReadRow(i, row, mem, addr).value; d.Decoded? && d.row == i && d.length == row.Length()
  {
    hide ReadOperand;
  }

  /** A printed line, whatever .using and the symbols are, assembles to the bytes it
      was printed from: the row is not remembered, and no branch is excepted. */
  lemma PrintedLineAssembles(mem: seq<byte>, addr: nat, using: Option<nat>, syms: Symbols)
    requires PrintHead(mem, addr).Some?
    ensures var (p, n) := PrintHead(mem, addr).value;
            0 < n <= |mem| && AssembleText(p, addr, using, syms) == Some(mem[..n])
  {
    hide ReadRow, RowAt, FirstRow, FirstNamed, Select, LineOf, RegIn, Carries, ShapeKnown, AreOperands, OpcodeByte,
         OperandsOf, LinkRow;
    if Decode(mem, addr).value.Decoded? {
      var xs := PrintedLineSelects(mem, addr, using);
      var row := RowAt(Decode(mem, addr).value.row);
      BytesAgain(row, mem, addr, xs.ex1, xs.ex2, syms);
    } else {
      DecodedCarries(mem, addr);
      assert mem[..1] == [mem[0]];
    }
  }

  // ----------------------------------------------------------------- listings

  function Listing(mem: seq<byte>, addr: nat): Option<seq<Printed>> { ReadAll(PrintHead, mem, addr) }

  function AssembleListing(ps: seq<Printed>, addr: nat, using: Option<nat>, syms: Symbols): Option<seq<byte>>
  {
    WriteAll((p: Printed, a: nat) => AssembleText(p, a, using, syms), ps, addr)
  }

  /** The listing of any memory, data and undefined opcodes included, assembles to
      that memory. */
  lemma ListingAssembles(mem: seq<byte>, addr: nat, using: Option<nat>, syms: Symbols)
    ensures Listing(mem, addr).Some? ==>
              AssembleListing(Listing(mem, addr).value, addr, using, syms) == Some(mem)
  {
    hide PrintHead, AssembleText;
    var w := (p: Printed, a: nat) => AssembleText(p, a, using, syms);
    var always := (m: seq<byte>, a: nat) => true;
    forall m: seq<byte>, a: nat
      ensures WritesItem(w, PrintHead, always, m, a)
    {
      if PrintHead(m, a).Some? { PrintedLineAssembles(m, a, using, syms); }
    }
    AlwaysOk(mem, addr, always);
    if Listing(mem, addr).Some? { WriteAllAfterReadAll(w, PrintHead, always, mem, addr); }
  }

  lemma {:induction false} AlwaysOk(mem: seq<byte>, addr: nat, always: (seq<byte>, nat) -> bool)
    requires forall m: seq<byte>, a: nat :: always(m, a)
    ensures AllOk(PrintHead, always, mem, addr)
    decreases |mem|
  {
    hide PrintHead;
    if mem != [] && PrintHead(mem, addr).Some? {
      var n := PrintHead(mem, addr).value.1;
      if 0 < n <= |mem| { AlwaysOk(mem[n..], addr + n, always); }
    }
  }
}
