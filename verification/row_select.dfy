/** How the assembler finds the row of an instruction: two forward scans over
    the rows of a mnemonic, one for each operand; and where the expressions of
    the operands go. */
module RowSelect {
  import opened Wrappers
  import opened OpcodeTable
  import opened GasEmit

  /** An expression and the prefix written on it; BIT is the second argument of
      B2B and means nothing under another prefix. */
  datatype Arg = Arg(ex: Expr, prefix: Prefix, bit: nat)

  /** An operand as written: a name of the operand table with its letter and
      value, `#' or `/' and an expression, something else that starts with `@',
      or an expression. */
  datatype Text = Named(letter: char, value: nat) | Hash(arg: Arg) | Slash(arg: Arg) | At | Plain(arg: Arg)

  /** The operands of a line. */
  datatype Line = Line(op1: Option<Text>, op2: Option<Text>, op3: Option<Expr>)

  /** What the two parsers hand i51_build_ins () besides the row and register. */
  datatype Exprs = Exprs(ex1: Option<Expr>, prefix1: Prefix, ex2: Option<Expr>, prefix2: Prefix, bit: nat)

  const NOTHING: Exprs := Exprs(None, NoPrefix, None, NoPrefix, 0)

  /** A register of the bank, AR0..AR7, is a direct address. */
  function Letter(letter: char): char { if letter == 'U' then 'D' else letter }

  /** The rows the first scan stops on. */
  predicate Stops1(row: Row, o: Text)
  {
    match o
    case Named(c, _) => row.a0 == Letter(c)
    case Hash(_) => row.a0 == '#'
    case Plain(_) => row.a0 in {'B', 'D', 'J', '1', '6'}
    case _ => false
  }

  predicate Stops2(row: Row, o: Text)
  {
    match o
    case Named(c, _) => row.a1 == Letter(c)
    case Hash(_) => row.a1 == '#'
    case Slash(_) => row.a1 == '/'
    case Plain(_) => row.a1 in {'B', 'D', 'J', 'd'}
    case At => false
  }

  predicate Stops(first: bool, row: Row, o: Text) { if first then Stops1(row, o) else Stops2(row, o) }

  // ------------------------------------------------ the rows of a mnemonic

  /** B is A or a later row of its mnemonic: all have as many operands, and the
      rows whose first operand is a bit or a direct address come last. */
  predicate Alike(a: Row, b: Row)
  {
    && a.name == b.name
    && (a.a0 == 'N' <==> b.a0 == 'N') && (a.a1 == 'N' <==> b.a1 == 'N') && (a.a2 == 'J' <==> b.a2 == 'J')
    && (a.a0 in {'B', 'D'} ==> b.a0 in {'B', 'D'})
  }

  lemma LastRows0(i: nat)
    requires 0 <= i < 14 && !RowAt(i).Last()
    ensures i + 1 < ROWS && Alike(RowAt(i), RowAt(i + 1))
  {
  }

  lemma LastRows1(i: nat)
    requires 14 <= i < 28 && !RowAt(i).Last()
    ensures i + 1 < ROWS && Alike(RowAt(i), RowAt(i + 1))
  {
  }

  lemma LastRows2(i: nat)
    requires 28 <= i < 42 && !RowAt(i).Last()
    ensures i + 1 < ROWS && Alike(RowAt(i), RowAt(i + 1))
  {
  }

  lemma LastRows3(i: nat)
    requires 42 <= i < 56 && !RowAt(i).Last()
    ensures i + 1 < ROWS && Alike(RowAt(i), RowAt(i + 1))
  {
  }

  lemma LastRows4(i: nat)
    requires 56 <= i < 70 && !RowAt(i).Last()
    ensures i + 1 < ROWS && Alike(RowAt(i), RowAt(i + 1))
  {
  }

  lemma LastRows5(i: nat)
    requires 70 <= i < 84 && !RowAt(i).Last()
    ensures i + 1 < ROWS && Alike(RowAt(i), RowAt(i + 1))
  {
  }

  lemma LastRows6(i: nat)
    requires 84 <= i < 98 && !RowAt(i).Last()
    ensures i + 1 < ROWS && Alike(RowAt(i), RowAt(i + 1))
  {
  }

  lemma LastRows7(i: nat)
    requires 98 <= i < 111 && !RowAt(i).Last()
    ensures i + 1 < ROWS && Alike(RowAt(i), RowAt(i + 1))
  {
  }

  /** A row that is not marked last is followed by one of its mnemonic. */
  lemma NextRow(i: nat)
    requires i < ROWS && !RowAt(i).Last()
    ensures i + 1 < ROWS && Alike(RowAt(i), RowAt(i + 1))
  {
    hide RowAt, Alike;
    if i < 14 { LastRows0(i); } else if i < 28 { LastRows1(i); } else if i < 42 { LastRows2(i); }
    else if i < 56 { LastRows3(i); } else if i < 70 { LastRows4(i); } else if i < 84 { LastRows5(i); }
    else if i < 98 { LastRows6(i); } else { LastRows7(i); }
  }

  /** Where a scan from row I stops: on a row it wants or on the last one. */
  function Scan(first: bool, i: nat, o: Text): (j: nat)
    requires i < ROWS
    ensures i <= j < ROWS && Alike(RowAt(i), RowAt(j))
    ensures Stops(first, RowAt(j), o) || RowAt(j).Last()
    ensures forall k :: i <= k < j ==> !Stops(first, RowAt(k), o) && !RowAt(k).Last()
    decreases ROWS - i
  {
    hide RowAt;
    if Stops(first, RowAt(i), o) || RowAt(i).Last() then i
    else
      NextRow(i);
      Scan(first, i + 1, o)
  }

  // ------------------------------------------- no row shadows a later one

  /** An operand that can be written for a letter of a row. */
  predicate Denotes(first: bool, c: char, o: Text)
  {
    match o
    case Named(x, _) => Letter(x) == c
    case Hash(_) => c == '#'
    case Slash(_) => !first && c == '/'
    case Plain(_) => c in {'B', 'D', 'J'} || (first && c in {'1', '6'})
    case At => false
  }

  /** The first scan, for an operand of row I, stopping on S, and the second
      stopping on K before I. */
  predicate Shadows(s: Row, k: Row, i: Row)
  {
    && (s.a0 == i.a0 || (s.a0 in {'B', 'D', 'J', '1', '6'} && i.a0 in {'B', 'D', 'J', '1', '6'}))
    && (k.a1 == i.a1 || (k.a1 in {'B', 'D', 'J', 'd'} && i.a1 in {'B', 'D', 'J'}))
  }

  /** K stands between S and the last row I, which agree on the first operand,
      and does not, though its second is an expression. */
  predicate Straddles(s: Row, k: Row, i: Row)
  {
    i.Last() && s.a0 == i.a0 && k.a0 != i.a0 && k.a1 in {'B', 'D', 'J'}
  }

  predicate Clear(s: Row, k: Row, i: Row) { !Shadows(s, k, i) && !Straddles(s, k, i) }

  lemma AddRows(s: nat, k: nat, i: nat)
    requires 1 <= s <= k < i <= 4
    ensures Clear(RowAt(s), RowAt(k), RowAt(i))
  {
  }

  lemma AddcRows(s: nat, k: nat, i: nat)
    requires 5 <= s <= k < i <= 8
    ensures Clear(RowAt(s), RowAt(k), RowAt(i))
  {
  }

  lemma AnlRows(s: nat, k: nat, i: nat)
    requires 10 <= s <= k < i <= 17
    ensures Clear(RowAt(s), RowAt(k), RowAt(i))
  {
  }

  lemma CjneRows(s: nat, k: nat, i: nat)
    requires 18 <= s <= k < i <= 21
    ensures Clear(RowAt(s), RowAt(k), RowAt(i))
  {
  }

  lemma ClrRows(s: nat, k: nat, i: nat)
    requires 22 <= s <= k < i <= 24
    ensures Clear(RowAt(s), RowAt(k), RowAt(i))
  {
  }

  lemma CplRows(s: nat, k: nat, i: nat)
    requires 25 <= s <= k < i <= 27
    ensures Clear(RowAt(s), RowAt(k), RowAt(i))
  {
  }

  lemma DecRows(s: nat, k: nat, i: nat)
    requires 29 <= s <= k < i <= 32
    ensures Clear(RowAt(s), RowAt(k), RowAt(i))
  {
  }

  lemma DjnzRows(s: nat, k: nat, i: nat)
    requires 34 <= s <= k < i <= 35
    ensures Clear(RowAt(s), RowAt(k), RowAt(i))
  {
  }

  lemma IncRows(s: nat, k: nat, i: nat)
    requires 36 <= s <= k < i <= 40
    ensures Clear(RowAt(s), RowAt(k), RowAt(i))
  {
  }

  lemma MovRowsFirst(s: nat, k: nat, i: nat)
    requires 51 <= s <= k < i <= 60
    ensures Clear(RowAt(s), RowAt(k), RowAt(i))
  {
  }

  lemma MovRowsLast(s: nat, k: nat, i: nat)
    requires 51 <= s <= k < i <= 68 && 61 <= i
    ensures Clear(RowAt(s), RowAt(k), RowAt(i))
  {
  }

  lemma MovcRows(s: nat, k: nat, i: nat)
    requires 69 <= s <= k < i <= 70
    ensures Clear(RowAt(s), RowAt(k), RowAt(i))
  {
  }

  lemma MovxRows(s: nat, k: nat, i: nat)
    requires 71 <= s <= k < i <= 74
    ensures Clear(RowAt(s), RowAt(k), RowAt(i))
  {
  }

  lemma OrlRows(s: nat, k: nat, i: nat)
    requires 77 <= s <= k < i <= 84
    ensures Clear(RowAt(s), RowAt(k), RowAt(i))
  {
  }

  lemma SetbRows(s: nat, k: nat, i: nat)
    requires 93 <= s <= k < i <= 94
    ensures Clear(RowAt(s), RowAt(k), RowAt(i))
  {
  }

  lemma SubbRows(s: nat, k: nat, i: nat)
    requires 96 <= s <= k < i <= 99
    ensures Clear(RowAt(s), RowAt(k), RowAt(i))
  {
  }

  lemma XchRows(s: nat, k: nat, i: nat)
    requires 101 <= s <= k < i <= 103
    ensures Clear(RowAt(s), RowAt(k), RowAt(i))
  {
  }

  lemma XrlRows(s: nat, k: nat, i: nat)
    requires 105 <= s <= k < i <= 110
    ensures Clear(RowAt(s), RowAt(k), RowAt(i))
  {
  }

  /** The first row of the mnemonic of row I, which the opcode hash gives. */
  function FirstRow(i: nat): (f: nat)
    requires i < ROWS
  {
    if 1 <= i <= 4 then 1
    else if 5 <= i <= 8 then 5
    else if 10 <= i <= 17 then 10
    else if 18 <= i <= 21 then 18
    else if 22 <= i <= 24 then 22
    else if 25 <= i <= 27 then 25
    else if 29 <= i <= 32 then 29
    else if 34 <= i <= 35 then 34
    else if 36 <= i <= 40 then 36
    else if 51 <= i <= 68 then 51
    else if 69 <= i <= 70 then 69
    else if 71 <= i <= 74 then 71
    else if 77 <= i <= 84 then 77
    else if 93 <= i <= 94 then 93
    else if 96 <= i <= 99 then 96
    else if 101 <= i <= 103 then 101
    else if 105 <= i <= 110 then 105
    else i
  }

  lemma NoRowShadows(s: nat, k: nat, i: nat)
    requires i < ROWS && FirstRow(i) <= s <= k < i
    ensures Clear(RowAt(s), RowAt(k), RowAt(i))
  {
    hide RowAt, Clear;
    if 1 <= i <= 4 { AddRows(s, k, i); }
    else if 5 <= i <= 8 { AddcRows(s, k, i); }
    else if 10 <= i <= 17 { AnlRows(s, k, i); }
    else if 18 <= i <= 21 { CjneRows(s, k, i); }
    else if 22 <= i <= 24 { ClrRows(s, k, i); }
    else if 25 <= i <= 27 { CplRows(s, k, i); }
    else if 29 <= i <= 32 { DecRows(s, k, i); }
    else if 34 <= i <= 35 { DjnzRows(s, k, i); }
    else if 36 <= i <= 40 { IncRows(s, k, i); }
    else if 51 <= i <= 68 { if i <= 60 { MovRowsFirst(s, k, i); } else { MovRowsLast(s, k, i); } }
    else if 69 <= i <= 70 { MovcRows(s, k, i); }
    else if 71 <= i <= 74 { MovxRows(s, k, i); }
    else if 77 <= i <= 84 { OrlRows(s, k, i); }
    else if 93 <= i <= 94 { SetbRows(s, k, i); }
    else if 96 <= i <= 99 { SubbRows(s, k, i); }
    else if 101 <= i <= 103 { XchRows(s, k, i); }
    else if 105 <= i <= 110 { XrlRows(s, k, i); }
  }

  lemma FirstStep0(i: nat)
    requires 0 <= i < 14
    ensures FirstRow(i + 1) == if RowAt(i).Last() then i + 1 else FirstRow(i)
  {
  }

  lemma FirstStep1(i: nat)
    requires 14 <= i < 28
    ensures FirstRow(i + 1) == if RowAt(i).Last() then i + 1 else FirstRow(i)
  {
  }

  lemma FirstStep2(i: nat)
    requires 28 <= i < 42
    ensures FirstRow(i + 1) == if RowAt(i).Last() then i + 1 else FirstRow(i)
  {
  }

  lemma FirstStep3(i: nat)
    requires 42 <= i < 56
    ensures FirstRow(i + 1) == if RowAt(i).Last() then i + 1 else FirstRow(i)
  {
  }

  lemma FirstStep4(i: nat)
    requires 56 <= i < 70
    ensures FirstRow(i + 1) == if RowAt(i).Last() then i + 1 else FirstRow(i)
  {
  }

  lemma FirstStep5(i: nat)
    requires 70 <= i < 84
    ensures FirstRow(i + 1) == if RowAt(i).Last() then i + 1 else FirstRow(i)
  {
  }

  lemma FirstStep6(i: nat)
    requires 84 <= i < 98
    ensures FirstRow(i + 1) == if RowAt(i).Last() then i + 1 else FirstRow(i)
  {
  }

  lemma FirstStep7(i: nat)
    requires 98 <= i < 110
    ensures FirstRow(i + 1) == if RowAt(i).Last() then i + 1 else FirstRow(i)
  {
  }

  lemma FirstStep(i: nat)
    requires i + 1 < ROWS
    ensures FirstRow(i + 1) == if RowAt(i).Last() then i + 1 else FirstRow(i)
  {
    hide RowAt, FirstRow;
    if i < 14 { FirstStep0(i); } else if i < 28 { FirstStep1(i); } else if i < 42 { FirstStep2(i); }
    else if i < 56 { FirstStep3(i); } else if i < 70 { FirstStep4(i); } else if i < 84 { FirstStep5(i); }
    else if i < 98 { FirstStep6(i); } else { FirstStep7(i); }
  }

  lemma FirstRowZero()
    ensures FirstRow(0) == 0
  {
  }

  /** The rows of a mnemonic are those from its first to the one marked last. */
  lemma {:induction false} RowsOfMnemonic(i: nat)
    requires i < ROWS
    ensures FirstRow(i) <= i && Alike(RowAt(FirstRow(i)), RowAt(i))
    ensures forall j :: FirstRow(i) <= j < i ==> !RowAt(j).Last()
    ensures FirstRow(i) > 0 ==> RowAt(FirstRow(i) - 1).Last()
  {
    hide RowAt, FirstRow;
    if i == 0 {
      FirstRowZero();
    } else {
      FirstStep(i - 1);
      RowsOfMnemonic(i - 1);
      if !RowAt(i - 1).Last() { NextRow(i - 1); }
    }
  }


  // -------------------------------------------------------- the two parses

  /** The state after the first operand. */
  datatype After1 = Bad1 | After1(row: nat, mode: char, reg: nat, xs: Exprs)

  /** The modes of both operands at the row chosen. */
  datatype After2 = Bad2 | After2(row: nat, mode1: char, mode2: char, reg: nat, xs: Exprs)

  datatype Found = Refused | Found(row: nat, reg: nat, xs: Exprs)

  predicate NeedsUsing(o: Text) { o.Named? && o.letter == 'U' }

  /** The address a name of the operand table stands for; USING is the register
      bank .using gave. */
  function TableValue(letter: char, value: nat, using: Option<nat>): Expr
  {
    Constant(if letter == 'U' && using.Some? then using.value + value else value)
  }

  /** The first expression of a line. */
  function FirstArg(a: Arg): Exprs { Exprs(Some(a.ex), a.prefix, None, NoPrefix, if a.prefix.BitOf? then a.bit else 0) }

  /** An expression of the second operand: the first of the line if the first
      operand had none. */
  function NextArg(xs: Exprs, a: Arg): Exprs
  {
    if xs.ex1.None? then
      Exprs(Some(a.ex), a.prefix, xs.ex2, a.prefix, if a.prefix.BitOf? then a.bit else xs.bit)
    else xs.(ex2 := Some(a.ex), prefix2 := a.prefix)
  }

  /** An address of the operand table as the second operand. */
  function NextValue(xs: Exprs, e: Expr): Exprs
  {
    if xs.ex1.None? then xs.(ex1 := Some(e), prefix2 := NoPrefix) else xs.(ex2 := Some(e), prefix2 := NoPrefix)
  }

  /** i51_parse_operand1 () from row I; USING is None before any .using. */
  function Parse1(i: nat, o: Text, using: Option<nat>): (a: After1)
    requires i < ROWS
    ensures a.After1? ==> a.row == Scan(true, i, o)
  {
    var j := Scan(true, i, o);
    var row := RowAt(j);
    match o
    case At | Slash(_) => Bad1
    case Hash(a) =>
      if row.a0 != '#' then Bad1 else After1(j, row.a0, 0, FirstArg(a))
    case Plain(a) =>
      After1(j, if !row.Last() && row.a0 in {'B', 'D'} then ' ' else row.a0, 0, FirstArg(a))
    case Named(c, v) =>
      if row.a0 != Letter(c) || (NeedsUsing(o) && using.None?) then Bad1
      else After1(j, Letter(c), if c in {'R', 'I'} then v else 0,
                  if Letter(c) in {'D', 'B'} then NOTHING.(ex1 := Some(TableValue(c, v, using))) else NOTHING)
  }

  /** i51_parse_operand2 () after A.  HIGH and LOW are looked for on an immediate
      or a plain expression, B2B on a plain one that is the first of the line;
      elsewhere the word is taken for a symbol, and what follows it for garbage. */
  function Parse2(a: After1, o: Text, using: Option<nat>): (b: After2)
    requires a.After1? && a.row < ROWS
    ensures b.After2? ==> b.row == Scan(false, a.row, o)
  {
    var j := Scan(false, a.row, o);
    var row := RowAt(j);
    match o
    case At => Bad2
    case Hash(b) =>
      if row.a1 != '#' || b.prefix.BitOf? then Bad2
      else After2(j, if a.mode == ' ' then 'D' else a.mode, row.a1, a.reg, NextArg(a.xs, b))
    case Slash(b) =>
      if row.a1 != '/' || !b.prefix.NoPrefix? then Bad2
      else After2(j, if a.mode == ' ' then 'B' else a.mode, row.a1, a.reg, NextArg(a.xs, b))
    case Plain(b) =>
      if b.prefix.BitOf? && a.xs.ex1.Some? then Bad2
      else After2(j, if a.mode == ' ' then row.a0 else a.mode, row.a1, a.reg, NextArg(a.xs, b))
    case Named(c, v) =>
      if row.a1 != Letter(c) then Bad2
      else if row.a0 != a.mode && (a.mode != ' ' || row.a0 !in {'B', 'D'}) then Bad2
      else if NeedsUsing(o) && using.None? then Bad2
      else After2(j, if a.mode == ' ' then row.a0 else a.mode, Letter(c), if c in {'R', 'I'} then v else a.reg,
                  if Letter(c) in {'D', 'B', '/'} then NextValue(a.xs, TableValue(c, v, using))
                  else a.xs.(prefix2 := NoPrefix))
  }

  /** md_assemble () down to i51_build_ins (), from the first row of a mnemonic. */
  function Select(first: nat, l: Line, using: Option<nat>): Found
    requires first < ROWS
  {
    match l.op1
    case None =>
      if l.op2.Some? || l.op3.Some? then Refused
      else if RowAt(first).a0 == 'N' && RowAt(first).a1 == 'N' then Found(first, 0, NOTHING) else Refused
    case Some(o1) =>
      if RowAt(first).a0 == 'N' then Refused
      else match Parse1(first, o1, using)
        case Bad1 => Refused
        case After1(r, m, reg, xs) =>
          var row := RowAt(r);
          match l.op2
          case None =>
            if row.a1 != 'N' || l.op3.Some? then Refused
            else if m == row.a0 then Found(r, reg, xs) else Refused
          case Some(o2) =>
            if row.a1 == 'N' then Refused
            else match Parse2(After1(r, m, reg, xs), o2, using)
              case Bad2 => Refused
              case After2(r2, m1, m2, reg2, xs2) =>
                var row2 := RowAt(r2);
                if l.op3.Some? != (row2.a2 == 'J') then Refused
                else if m1 == row2.a0 && m2 == row2.a1 then
                  Found(r2, reg2, if l.op3.Some? then xs2.(ex2 := l.op3) else xs2)
                else Refused
  }

  // ------------------------------------------------- the parser's globals

  /** The globals the two parsers share.  An expression not yet read is None, and
      an offset or prefix a line does not write is 0 or NoPrefix. */
  class Parser {
    var opcode: nat
    var op1mode: char
    var op2mode: char
    var regno: nat
    var opExpr1: Option<Expr>
    var opExpr2: Option<Expr>
    var op1hlmode: Prefix
    var op2hlmode: Prefix
    var b2bOffset: nat
    const using: Option<nat>

    function Written(): Exprs
      reads this
    {
      Exprs(opExpr1, op1hlmode, opExpr2, op2hlmode, b2bOffset)
    }

    constructor (first: nat, using: Option<nat>)
      ensures opcode == first && this.using == using && op1mode == op2mode == 'N' && regno == 0
      ensures Written() == NOTHING
    {
      opcode, op1mode, op2mode, regno := first, 'N', 'N', 0;
      opExpr1, opExpr2, op1hlmode, op2hlmode, b2bOffset := None, None, NoPrefix, NoPrefix, 0;
      this.using := using;
    }

    /** while (((opcode->insn_size & 0x80) == 0) && ...) opcode++ */
    method Advance(first: bool, o: Text)
      requires opcode < ROWS
      modifies this`opcode
      ensures opcode == Scan(first, old(opcode), o)
    {
      hide RowAt;
      while !RowAt(opcode).Last() && !Stops(first, RowAt(opcode), o)
        invariant opcode < ROWS
        invariant Scan(first, opcode, o) == Scan(first, old(opcode), o)
        decreases ROWS - opcode
      {
        NextRow(opcode);
        opcode := opcode + 1;
      }
    }

    /** The expression of the first operand and its prefix. */
    method ReadFirst(a: Arg)
      requires Written() == NOTHING
      modifies this`opExpr1, this`op1hlmode, this`b2bOffset
      ensures Written() == FirstArg(a)
    {
      op1hlmode := a.prefix;
      opExpr1 := Some(a.ex);
      if op1hlmode == BitOf { b2bOffset := a.bit; }
    }

    /** The expression of the second operand: into the first place if that is
        still free. */
    method ReadSecond(a: Arg)
      modifies this`opExpr1, this`opExpr2, this`op1hlmode, this`op2hlmode, this`b2bOffset
      ensures Written() == NextArg(old(Written()), a)
    {
      op2hlmode := a.prefix;
      if opExpr1 == None {
        op1hlmode := op2hlmode;
        opExpr1 := Some(a.ex);
        if op2hlmode == BitOf { b2bOffset := a.bit; }
      } else {
        opExpr2 := Some(a.ex);
      }
    }

    method ParseOperand1(o: Text) returns (ok: bool)
      requires opcode < ROWS && regno == 0 && Written() == NOTHING
      modifies this`opcode, this`op1mode, this`regno, this`opExpr1, this`op1hlmode, this`b2bOffset
      ensures opcode < ROWS
      ensures Parse1(old(opcode), o, using) == if ok then After1(opcode, op1mode, regno, Written()) else Bad1
    {
      hide RowAt, Scan;
      match o {
        case At | Slash(_) =>
          return false;
        case Hash(a) =>
          op1mode := '#';
          Advance(true, o);
          if RowAt(opcode).a0 != op1mode { return false; }
          op1mode := RowAt(opcode).a0;
          ReadFirst(a);
        case Plain(a) =>
          op1mode := ' ';
          Advance(true, o);
          if RowAt(opcode).Last() {
            op1mode := RowAt(opcode).a0;
          } else if RowAt(opcode).a0 != 'B' && RowAt(opcode).a0 != 'D' {
            op1mode := RowAt(opcode).a0;
          }
          ReadFirst(a);
        case Named(c, v) =>
          op1mode := c;
          if op1mode == 'U' { op1mode := 'D'; }
          Advance(true, o);
          if RowAt(opcode).a0 != op1mode { return false; }
          if op1mode == 'R' || op1mode == 'I' {
            regno := v;
          } else if c == 'U' {
            if using == None { return false; }
            opExpr1 := Some(Constant(using.value + v));
          } else if op1mode == 'D' || op1mode == 'B' {
            opExpr1 := Some(Constant(v));
          }
      }
      ok := true;
    }

    /** An address of the operand table, into the first free place. */
    method PutSecond(e: Expr)
      modifies this`opExpr1, this`opExpr2
      ensures Written() == if old(opExpr1).None? then old(Written()).(ex1 := Some(e))
                           else old(Written()).(ex2 := Some(e))
    {
      if opExpr1 == None { opExpr1 := Some(e); } else { opExpr2 := Some(e); }
    }

    method ParseOperand2(o: Text) returns (ok: bool)
      requires opcode < ROWS
      modifies this`opcode, this`op1mode, this`op2mode, this`regno,
               this`opExpr1, this`opExpr2, this`op1hlmode, this`op2hlmode, this`b2bOffset
      ensures opcode < ROWS
      ensures Parse2(After1(old(opcode), old(op1mode), old(regno), old(Written())), o, using)
           == if ok then After2(opcode, op1mode, op2mode, regno, Written()) else Bad2
    {
      hide RowAt, Scan;
      Advance(false, o);
      op2hlmode := NoPrefix;
      match o {
        case At =>
          return false;
        case Hash(a) =>
          op2mode := '#';
          if RowAt(opcode).a1 != op2mode { return false; }
          if op1mode == ' ' { op1mode := 'D'; }
          if a.prefix == BitOf { return false; }
          ReadSecond(a);
        case Slash(a) =>
          op2mode := '/';
          if RowAt(opcode).a1 != op2mode { return false; }
          if op1mode == ' ' { op1mode := 'B'; }
          if a.prefix != NoPrefix { return false; }
          ReadSecond(a);
        case Plain(a) =>
          op2mode := RowAt(opcode).a1;
          if op1mode == ' ' { op1mode := RowAt(opcode).a0; }
          if opExpr1 != None && a.prefix == BitOf { return false; }
          ReadSecond(a);
        case Named(c, v) =>
          op2mode := Letter(c);
          if RowAt(opcode).a1 != op2mode { return false; }
          if RowAt(opcode).a0 != op1mode
             && (op1mode != ' ' || (RowAt(opcode).a0 != 'B' && RowAt(opcode).a0 != 'D')) { return false; }
          if op1mode == ' ' { op1mode := RowAt(opcode).a0; }
          if op2mode == 'R' || op2mode == 'I' {
            regno := v;
          } else if c == 'U' {
            if using == None { return false; }
            PutSecond(Constant(using.value + v));
          } else if op2mode == 'D' || op2mode == 'B' || op2mode == '/' {
            PutSecond(Constant(v));
          }
      }
      ok := true;
    }

    /** md_assemble () down to the call of i51_build_ins (). */
    method MdAssemble(l: Line) returns (found: Found)
      requires opcode < ROWS && op1mode == op2mode == 'N' && regno == 0 && Written() == NOTHING
      modifies this
      ensures found == Select(old(opcode), l, using)
    {
      hide RowAt, Parse1, Parse2;
      match l.op1 {
        case None =>
          if l.op2.Some? || l.op3.Some? || RowAt(opcode).a0 != 'N' { return Refused; }
        case Some(o1) =>
          if RowAt(opcode).a0 == 'N' { return Refused; }
          var ok := ParseOperand1(o1);
          if !ok { return Refused; }
          match l.op2 {
            case None =>
              if l.op3.Some? || RowAt(opcode).a1 != 'N' { return Refused; }
            case Some(o2) =>
              if RowAt(opcode).a1 == 'N' { return Refused; }
              ok := ParseOperand2(o2);
              if !ok { return Refused; }
              if l.op3.Some? && RowAt(opcode).a2 != 'J' { return Refused; }
              if RowAt(opcode).a2 == 'J' {
                if l.op3.None? { return Refused; }
                opExpr2 := l.op3;
              }
          }
      }
      if op1mode == RowAt(opcode).a0 && op2mode == RowAt(opcode).a1 {
        return Found(opcode, regno, Written());
      }
      return Refused;
    }
  }

  // ------------------------------------------------------------- completeness

  /** An operand for a letter of a row; none for 'N'. */
  predicate DenotesOpt(first: bool, c: char, o: Option<Text>)
  {
    match o case None => c == 'N' case Some(t) => c != 'N' && Denotes(first, c, t)
  }

  /** A line whose operands are of the kinds ROW names. */
  predicate Fits(l: Line, row: Row)
  {
    DenotesOpt(true, row.a0, l.op1) && DenotesOpt(false, row.a1, l.op2) && (l.op3.Some? <==> row.a2 == 'J')
  }

  predicate UsingGiven(l: Line, using: Option<nat>)
  {
    using.Some? || !((l.op1.Some? && NeedsUsing(l.op1.value)) || (l.op2.Some? && NeedsUsing(l.op2.value)))
  }

  /** The register a line names, that of the second operand if both do. */
  function RegisterOf(l: Line): nat
  {
    match l.op2
    case Some(Named(c, v)) => if c in {'R', 'I'} then v else Register1(l)
    case _ => Register1(l)
  }

  function Register1(l: Line): nat
  {
    match l.op1 case Some(Named(c, v)) => if c in {'R', 'I'} then v else 0 case _ => 0
  }

  /** The expression an operand carries: what is written, or the address a name of
      the operand table stands for. */
  function Carried(o: Option<Text>, using: Option<nat>): Option<Arg>
  {
    match o
    case Some(Hash(a)) => Some(a)
    case Some(Slash(a)) => Some(a)
    case Some(Plain(a)) => Some(a)
    case Some(Named(c, v)) =>
      if c == 'U' && using.Some? then Some(Arg(Constant(using.value + v), NoPrefix, 0))
      else if c in {'D', 'B', '/', 'U'} then Some(Arg(Constant(v), NoPrefix, 0))
      else None
    case _ => None
  }

  function ExprOf(a: Option<Arg>): Option<Expr> { if a.Some? then Some(a.value.ex) else None }

  function PrefixOf(a: Option<Arg>): Prefix { if a.Some? then a.value.prefix else NoPrefix }

  function BitOffset(a: Option<Arg>): nat { if PrefixOf(a).BitOf? then a.value.bit else 0 }

  /** The expressions of a line: the first and the second in the order they are
      written, but a third operand stands for the second; the prefix of the first,
      and that of the second operand, whichever its expression is. */
  function ExprsOf(l: Line, using: Option<nat>): Exprs
  {
    var a, b := Carried(l.op1, using), Carried(l.op2, using);
    var first, second := if a.Some? then a else b, if a.Some? then b else None;
    Exprs(ExprOf(first), PrefixOf(first), if l.op3.Some? then l.op3 else ExprOf(second), PrefixOf(b), BitOffset(first))
  }

  /** The second operand has only a prefix that is looked for there. */
  predicate Scans(l: Line, using: Option<nat>)
  {
    match l.op2
    case Some(Hash(a)) => !a.prefix.BitOf?
    case Some(Slash(a)) => a.prefix.NoPrefix?
    case Some(Plain(a)) => a.prefix.BitOf? ==> Carried(l.op1, using).None?
    case _ => true
  }

  predicate Legible(l: Line, using: Option<nat>) { UsingGiven(l, using) && Scans(l, using) }

  /** The expressions once the second operand O is read. */
  function SecondExprs(xs: Exprs, o: Text, using: Option<nat>): Exprs
  {
    match o
    case At => xs
    case Hash(a) => NextArg(xs, a)
    case Slash(a) => NextArg(xs, a)
    case Plain(a) => NextArg(xs, a)
    case Named(c, v) =>
      if Letter(c) in {'D', 'B', '/'} then NextValue(xs, TableValue(c, v, using)) else xs.(prefix2 := NoPrefix)
  }

  function FirstExprs(o1: Text, using: Option<nat>): Exprs { ExprsOf(Line(Some(o1), None, None), using) }

  lemma ExprsInOrder(l: Line, using: Option<nat>)
    requires l.op1.Some?
    ensures l.op2.None? && l.op3.None? ==> ExprsOf(l, using) == FirstExprs(l.op1.value, using)
    ensures l.op2.Some? && !l.op2.value.At? ==>
              var xs := SecondExprs(FirstExprs(l.op1.value, using), l.op2.value, using);
              ExprsOf(l, using) == if l.op3.Some? then xs.(ex2 := l.op3) else xs
  {
  }

  /** The first scan stops by row I on a row it wants. */
  lemma FirstScan(i: nat, o1: Text)
    requires i < ROWS && Denotes(true, RowAt(i).a0, o1)
    ensures var s := Scan(true, FirstRow(i), o1);
            FirstRow(i) <= s <= i && Stops1(RowAt(s), o1)
  {
    hide RowAt, FirstRow, Scan, Denotes, Stops1, Stops2, Alike, Row.Last;
    RowsOfMnemonic(i);
    DenotesStops(i, o1, None);
    var s := Scan(true, FirstRow(i), o1);
    assert Stops(true, RowAt(i), o1);
    assert s <= i;
    if s < i { assert !RowAt(s).Last(); }
  }

  /** The second scan stops on row I and nowhere before it. */
  lemma SecondScan(i: nat, o1: Text, o2: Text, s: nat)
    requires i < ROWS && Denotes(true, RowAt(i).a0, o1) && Denotes(false, RowAt(i).a1, o2)
    requires FirstRow(i) <= s <= i && Stops1(RowAt(s), o1)
    ensures Scan(false, s, o2) == i
  {
    hide RowAt, FirstRow, Scan, Denotes, Stops1, Stops2, Alike, Row.Last;
    RowsOfMnemonic(i);
    DenotesStops(i, o1, Some(o2));
    forall k | s <= k < i
      ensures !Stops(false, RowAt(k), o2) && !RowAt(k).Last()
    {
      NotBefore(s, k, i, o1, o2);
    }
    ScanIs(false, s, o2, i);
  }

  lemma DenotesStops(i: nat, o1: Text, o2: Option<Text>)
    requires i < ROWS && Denotes(true, RowAt(i).a0, o1)
    requires o2.Some? ==> Denotes(false, RowAt(i).a1, o2.value)
    ensures Stops1(RowAt(i), o1) && (o2.Some? ==> Stops2(RowAt(i), o2.value))
  {
    hide RowAt;
  }

  lemma NotBefore(s: nat, k: nat, i: nat, o1: Text, o2: Text)
    requires i < ROWS && FirstRow(i) <= s <= k < i
    requires Denotes(true, RowAt(i).a0, o1) && Denotes(false, RowAt(i).a1, o2)
    requires Stops1(RowAt(s), o1)
    ensures !Stops2(RowAt(k), o2)
  {
    NoRowShadows(s, k, i);
    hide RowAt, FirstRow;
  }

  /** A scan that stops on S stops there for sure. */
  lemma ScanIs(first: bool, i: nat, o: Text, j: nat)
    requires i <= j < ROWS
    requires Stops(first, RowAt(j), o) || RowAt(j).Last()
    requires forall k :: i <= k < j ==> !Stops(first, RowAt(k), o) && !RowAt(k).Last()
    ensures Scan(first, i, o) == j
  {
    hide RowAt, Stops1, Stops2;
  }

  /** What the table keeps to for the parsers to work. */
  predicate Regular(row: Row)
  {
    && (row.a0 == 'N' ==> row.a1 == 'N')
    && (row.a1 == 'N' ==> row.a2 == 'N')
    && (row.a1 == 'N' && row.a0 in {'B', 'D', 'N'} ==> row.Last())
    && (row.a0 in {'J', '1', '6'} ==> row.Last() && row.a1 == 'N')
    && (row.a1 == '#' && row.a0 in {'B', 'D'} ==> row.a0 == 'D')
    && (row.a1 == '/' ==> row.a0 == 'r')
    && row.a0 !in {' ', '#', '/'} && row.a1 != 'd'
  }

  lemma Regular0(i: nat)
    requires 0 <= i < 14
    ensures Regular(RowAt(i))
  {
  }

  lemma Regular1(i: nat)
    requires 14 <= i < 28
    ensures Regular(RowAt(i))
  {
  }

  lemma Regular2(i: nat)
    requires 28 <= i < 42
    ensures Regular(RowAt(i))
  {
  }

  lemma Regular3(i: nat)
    requires 42 <= i < 56
    ensures Regular(RowAt(i))
  {
  }

  lemma Regular4(i: nat)
    requires 56 <= i < 70
    ensures Regular(RowAt(i))
  {
  }

  lemma Regular5(i: nat)
    requires 70 <= i < 84
    ensures Regular(RowAt(i))
  {
  }

  lemma Regular6(i: nat)
    requires 84 <= i < 98
    ensures Regular(RowAt(i))
  {
  }

  lemma Regular7(i: nat)
    requires 98 <= i < 111
    ensures Regular(RowAt(i))
  {
  }

  lemma EveryRowRegular(i: nat)
    requires i < ROWS
    ensures Regular(RowAt(i))
  {
    hide RowAt, Regular;
    if i < 14 { Regular0(i); } else if i < 28 { Regular1(i); } else if i < 42 { Regular2(i); }
    else if i < 56 { Regular3(i); } else if i < 70 { Regular4(i); } else if i < 84 { Regular5(i); }
    else if i < 98 { Regular6(i); } else { Regular7(i); }
  }

  /** With one operand the first scan stops on row I itself. */
  lemma LonelyScan(i: nat, o1: Text, s: nat)
    requires i < ROWS && Denotes(true, RowAt(i).a0, o1)
    requires FirstRow(i) <= s <= i && Stops1(RowAt(s), o1)
    requires RowAt(i).a1 == 'N' && RowAt(s).a1 == 'N'
    ensures s == i
  {
    DenotesStops(i, o1, None);
    if s < i { NoRowShadows(s, s, i); }
    hide RowAt, FirstRow;
  }

  lemma SelectNone(i: nat, l: Line, using: Option<nat>)
    requires i < ROWS && Fits(l, RowAt(i)) && l.op1.None?
    ensures Select(FirstRow(i), l, using) == Found(i, RegisterOf(l), ExprsOf(l, using))
  {
    RowsOfMnemonic(i);
    EveryRowRegular(i);
    EveryRowRegular(FirstRow(i));
    hide RowAt, FirstRow;
  }

  lemma SelectOne(i: nat, l: Line, using: Option<nat>)
    requires i < ROWS && Fits(l, RowAt(i)) && Legible(l, using) && l.op1.Some? && l.op2.None?
    ensures Select(FirstRow(i), l, using) == Found(i, RegisterOf(l), ExprsOf(l, using))
  {
    hide RowAt, FirstRow, Scan, Parse1, Select, Stops1, Stops2, Row.Last, FirstExprs, ExprsOf, SecondReg, Denotes;
    RowsOfMnemonic(i);
    EveryRowRegular(i);
    LoneParsed(i, l.op1.value, using);
    SelectAlone(FirstRow(i), l, using);
  }

  lemma LoneParsed(i: nat, o1: Text, using: Option<nat>)
    requires i < ROWS && Denotes(true, RowAt(i).a0, o1) && RowAt(i).a0 != 'N' && RowAt(i).a1 == 'N'
    requires using.Some? || !NeedsUsing(o1)
    ensures Parse1(FirstRow(i), o1, using) == After1(i, RowAt(i).a0, SecondReg(0, o1), FirstExprs(o1, using))
  {
    hide RowAt, FirstRow, Scan, Stops1, Stops2, Row.Last, FirstExprs, FirstArg;
    RowsOfMnemonic(i);
    EveryRowRegular(i);
    FirstScan(i, o1);
    LonelyScan(i, o1, Scan(true, FirstRow(i), o1));
    FirstReads(FirstRow(i), o1, using);
  }

  /** The state the first operand of row I leaves behind. */
  lemma FirstParsed(i: nat, o1: Text, using: Option<nat>)
    requires i < ROWS && Denotes(true, RowAt(i).a0, o1) && RowAt(i).a1 != 'N'
    requires using.Some? || !NeedsUsing(o1)
    ensures var a := Parse1(FirstRow(i), o1, using);
            && a.After1? && FirstRow(i) <= a.row <= i && Stops1(RowAt(a.row), o1)
            && Alike(RowAt(FirstRow(i)), RowAt(i)) && Alike(RowAt(a.row), RowAt(i))
            && (a.mode == RowAt(i).a0 || (a.mode == ' ' && RowAt(i).a0 in {'B', 'D'}))
            && a.reg == SecondReg(0, o1) && a.xs == FirstExprs(o1, using)
  {
    hide RowAt, FirstRow, Scan, FirstExprs, Regular, FirstArg;
    RowsOfMnemonic(i);
    FirstScan(i, o1);
    var s := Scan(true, FirstRow(i), o1);
    EveryRowRegular(i);
    EveryRowRegular(s);
    NoSuchFirst(RowAt(i));
    NoSuchFirst(RowAt(s));
    if s < i { assert !RowAt(s).Last(); }
    FirstReads(FirstRow(i), o1, using);
  }

  lemma NoSuchFirst(row: Row)
    requires Regular(row)
    ensures row.a0 !in {' ', '#', '/'} && (row.a0 in {'J', '1', '6'} ==> row.Last() && row.a1 == 'N')
  {
    hide Row.Last;
  }

  /** The first operand leaves its own expression. */
  lemma FirstReads(f: nat, o1: Text, using: Option<nat>)
    requires f < ROWS && Parse1(f, o1, using).After1?
    ensures Parse1(f, o1, using).xs == FirstExprs(o1, using)
  {
    hide RowAt, Scan, Row.Last;
    EveryRowRegular(Scan(true, f, o1));
  }

  /** A prefix on the second operand is looked for once the first left XS. */
  predicate ScansAfter(xs: Exprs, o: Text)
  {
    match o
    case Hash(a) => !a.prefix.BitOf?
    case Slash(a) => a.prefix.NoPrefix?
    case Plain(a) => a.prefix.BitOf? ==> xs.ex1.None?
    case _ => true
  }

  function SecondReg(reg: nat, o: Text): nat
  {
    match o case Named(c, v) => if c in {'R', 'I'} then v else reg case _ => reg
  }

  /** The state the second operand leaves behind. */
  lemma SecondParsed(i: nat, a: After1, o2: Text, using: Option<nat>)
    requires i < ROWS && a.After1? && a.row < ROWS && Scan(false, a.row, o2) == i
    requires Denotes(false, RowAt(i).a1, o2) || o2.Plain?
    requires a.mode == RowAt(i).a0 || (a.mode == ' ' && RowAt(i).a0 in {'B', 'D'})
    requires using.Some? || !NeedsUsing(o2)
    requires ScansAfter(a.xs, o2)
    ensures Parse2(a, o2, using)
         == After2(i, RowAt(i).a0, RowAt(i).a1, SecondReg(a.reg, o2), SecondExprs(a.xs, o2, using))
  {
    hide RowAt, Scan, Row.Last;
    EveryRowRegular(i);
  }

  lemma SelectTwo(i: nat, l: Line, using: Option<nat>)
    requires i < ROWS && Fits(l, RowAt(i)) && Legible(l, using) && l.op1.Some? && l.op2.Some?
    ensures Select(FirstRow(i), l, using) == Found(i, RegisterOf(l), ExprsOf(l, using))
  {
    assert !l.op2.value.At?;
    hide RowAt, FirstRow, Scan, Parse1, Parse2, Stops1, Stops2, Denotes, NeedsUsing, Row.Last, Select;
    hide SecondExprs, FirstExprs, ExprsOf, ScansAfter, Scans, RegisterOf, SecondReg;
    var o1, o2 := l.op1.value, l.op2.value;
    ScansBoth(l, using);
    FirstParsed(i, o1, using);
    var a := Parse1(FirstRow(i), o1, using);
    SecondScan(i, o1, o2, a.row);
    EveryRowRegular(i);
    SecondParsed(i, a, o2, using);
    SelectBoth(FirstRow(i), l, using, a.row);
  }

  /** Both operands parsed, the modes those of row I. */
  lemma SelectBoth(f: nat, l: Line, using: Option<nat>, r: nat)
    requires f < ROWS && r < ROWS && l.op1.Some? && l.op2.Some? && !l.op2.value.At?
    requires RowAt(f).a0 != 'N' && RowAt(r).a1 != 'N'
    requires var a := Parse1(f, l.op1.value, using);
             && a.After1? && a.row == r
             && a.reg == SecondReg(0, l.op1.value) && a.xs == FirstExprs(l.op1.value, using)
             && var b := Parse2(a, l.op2.value, using);
                && b.After2? && b.row < ROWS && b.mode1 == RowAt(b.row).a0 && b.mode2 == RowAt(b.row).a1
                && b.reg == SecondReg(a.reg, l.op2.value) && b.xs == SecondExprs(a.xs, l.op2.value, using)
                && (l.op3.Some? <==> RowAt(b.row).a2 == 'J')
    ensures var a := Parse1(f, l.op1.value, using);
            var b := Parse2(a, l.op2.value, using);
            Select(f, l, using) == Found(b.row, RegisterOf(l), ExprsOf(l, using))
  {
    ExprsInOrder(l, using);
    hide RowAt, Parse1, Parse2, SecondExprs, FirstExprs, ExprsOf;
  }

  lemma ScansBoth(l: Line, using: Option<nat>)
    requires l.op1.Some? && l.op2.Some?
    ensures Scans(l, using) <==> ScansAfter(FirstExprs(l.op1.value, using), l.op2.value)
  {
  }

  /** Starting from the first row of a mnemonic, operands of the kinds any one of
      its rows names select that row and no other. */
  lemma SelectionIsComplete(i: nat, l: Line, using: Option<nat>)
    requires i < ROWS && Fits(l, RowAt(i)) && Legible(l, using)
    ensures Select(FirstRow(i), l, using) == Found(i, RegisterOf(l), ExprsOf(l, using))
  {
    hide RowAt, FirstRow, Select;
    if l.op1.None? { SelectNone(i, l, using); }
    else if l.op2.None? { SelectOne(i, l, using); }
    else { SelectTwo(i, l, using); }
  }

  // ---------------------------------------------------------------- exactness

  /** An operand a row accepts: one for its letter, or any expression if the row
      is the last of its mnemonic. */
  predicate Takes(first: bool, row: Row, o: Text)
  {
    Denotes(first, if first then row.a0 else row.a1, o) || (o.Plain? && row.Last())
  }

  predicate TakesOpt(first: bool, row: Row, o: Option<Text>)
  {
    var c := if first then row.a0 else row.a1;
    match o case None => c == 'N' case Some(t) => c != 'N' && Takes(first, row, t)
  }

  predicate FitsLoosely(l: Line, row: Row)
  {
    TakesOpt(true, row, l.op1) && TakesOpt(false, row, l.op2) && (l.op3.Some? <==> row.a2 == 'J')
  }

  /** What the first parse leaves, read backwards. */
  lemma Parsed1(f: nat, o1: Text, using: Option<nat>)
    requires f < ROWS && RowAt(f).a0 != 'N' && Parse1(f, o1, using).After1?
    ensures var a := Parse1(f, o1, using);
            && Alike(RowAt(f), RowAt(a.row)) && Takes(true, RowAt(a.row), o1)
            && (a.mode == RowAt(a.row).a0 || (a.mode == ' ' && o1.Plain? && RowAt(a.row).a0 in {'B', 'D'}))
            && (a.mode != ' ' && o1.Plain? ==> RowAt(a.row).Last())
            && (using.Some? || !NeedsUsing(o1))
            && a.reg == SecondReg(0, o1) && a.xs == FirstExprs(o1, using)
  {
    hide RowAt, Scan, Row.Last, FirstExprs, FirstArg;
    EveryRowRegular(Scan(true, f, o1));
    FirstReads(f, o1, using);
  }

  /** What the second parse leaves, read backwards. */
  lemma Parsed2(a: After1, o2: Text, using: Option<nat>)
    requires a.After1? && a.row < ROWS && RowAt(a.row).a1 != 'N' && Parse2(a, o2, using).After2?
    ensures var b := Parse2(a, o2, using);
            && Alike(RowAt(a.row), RowAt(b.row)) && Takes(false, RowAt(b.row), o2)
            && b.mode2 == RowAt(b.row).a1
            && (a.mode != ' ' ==> b.mode1 == a.mode)
            && (RowAt(a.row).Last() ==> b.row == a.row)
            && (using.Some? || !NeedsUsing(o2)) && !o2.At? && ScansAfter(a.xs, o2)
            && b.reg == SecondReg(a.reg, o2) && b.xs == SecondExprs(a.xs, o2, using)
  {
    hide RowAt, Row.Last;
    EveryRowRegular(Scan(false, a.row, o2));
  }

  /** What a row found from row F says about the line. */
  predicate Accounts(f: nat, l: Line, using: Option<nat>, found: Found)
    requires f < ROWS && found.Found?
  {
    && found.row < ROWS && Alike(RowAt(f), RowAt(found.row))
    && FitsLoosely(l, RowAt(found.row)) && Legible(l, using)
    && found.reg == RegisterOf(l) && found.xs == ExprsOf(l, using)
  }

  lemma SoundNone(f: nat, l: Line, using: Option<nat>)
    requires f < ROWS && Select(f, l, using).Found? && l.op1.None?
    ensures Accounts(f, l, using, Select(f, l, using))
  {
    hide RowAt, Scan;
    EveryRowRegular(f);
  }

  lemma SoundOne(f: nat, l: Line, using: Option<nat>)
    requires f < ROWS && Select(f, l, using).Found? && l.op1.Some? && l.op2.None?
    ensures Accounts(f, l, using, Select(f, l, using))
  {
    ExprsInOrder(l, using);
    hide RowAt, Parse1, Parse2, Takes, NeedsUsing, Row.Last, Scan, FirstExprs, ExprsOf;
    Parsed1(f, l.op1.value, using);
    EveryRowRegular(Parse1(f, l.op1.value, using).row);
  }

  /** The row the second scan moves on to takes the first operand as well. */
  lemma FirstTaken(r1: Row, r2: Row, o1: Text, mode: char)
    requires Takes(true, r1, o1) && Alike(r1, r2) && r1.a0 != ' '
    requires mode == r1.a0 || (mode == ' ' && o1.Plain? && r1.a0 in {'B', 'D'})
    requires mode != ' ' ==> mode == r2.a0 && (o1.Plain? ==> r1 == r2)
    ensures Takes(true, r2, o1)
  {
  }

  lemma SoundTwo(f: nat, l: Line, using: Option<nat>)
    requires f < ROWS && Select(f, l, using).Found? && l.op1.Some? && l.op2.Some?
    ensures Accounts(f, l, using, Select(f, l, using))
  {
    ExprsInOrder(l, using);
    ScansBoth(l, using);
    hide RowAt, Parse1, Parse2, Takes, NeedsUsing, Row.Last, Scan, FirstExprs, SecondExprs, ExprsOf, Scans, ScansAfter;
    var a := Parse1(f, l.op1.value, using);
    Parsed1(f, l.op1.value, using);
    Parsed2(a, l.op2.value, using);
    var b := Parse2(a, l.op2.value, using);
    EveryRowRegular(a.row);
    EveryRowRegular(b.row);
    FirstTaken(RowAt(a.row), RowAt(b.row), l.op1.value, a.mode);
  }

  lemma FoundIsSound(f: nat, l: Line, using: Option<nat>)
    requires f < ROWS && Select(f, l, using).Found?
    ensures Accounts(f, l, using, Select(f, l, using))
  {
    hide RowAt, Select, Accounts;
    if l.op1.None? { SoundNone(f, l, using); }
    else if l.op2.None? { SoundOne(f, l, using); }
    else { SoundTwo(f, l, using); }
  }

  lemma {:induction false} SameMnemonic(k: nat, i: nat)
    requires i < ROWS && FirstRow(i) <= k <= i
    ensures FirstRow(k) == FirstRow(i) && Alike(RowAt(k), RowAt(i))
    decreases i
  {
    hide RowAt, FirstRow;
    if k < i {
      RowsOfMnemonic(i);
      FirstStep(i - 1);
      SameMnemonic(k, i - 1);
      NextRow(i - 1);
    }
  }

  /** A last row that wants no expression follows rows that want none. */
  lemma LooseScan(i: nat, a: Arg)
    requires i < ROWS && RowAt(i).Last() && RowAt(i).a0 !in {'B', 'D', 'J', '1', '6'}
    ensures Scan(true, FirstRow(i), Plain(a)) == i
  {
    hide RowAt, FirstRow, Scan, Row.Last;
    RowsOfMnemonic(i);
    forall k | FirstRow(i) <= k < i
      ensures !Stops(true, RowAt(k), Plain(a)) && !RowAt(k).Last()
    {
      SameMnemonic(k, i);
      EveryRowRegular(k);
    }
    ScanIs(true, FirstRow(i), Plain(a), i);
  }

  lemma LooseFirst(i: nat, l: Line, using: Option<nat>)
    requires i < ROWS && RowAt(i).Last() && FitsLoosely(l, RowAt(i)) && Legible(l, using)
    requires l.op1.Some? && l.op1.value.Plain? && RowAt(i).a0 !in {'B', 'D', 'J', '1', '6'}
    ensures Select(FirstRow(i), l, using) == Found(i, RegisterOf(l), ExprsOf(l, using))
  {
    if l.op2.Some? { ScansBoth(l, using); } else { ExprsInOrder(l, using); }
    hide RowAt, FirstRow, Scan, Parse1, Parse2, Select, Stops1, Stops2, Row.Last, FirstExprs, SecondExprs, ExprsOf,
         Scans, SecondReg;
    var o1 := l.op1.value;
    RowsOfMnemonic(i);
    EveryRowRegular(i);
    LooseParsed(i, o1, using);
    var a := Parse1(FirstRow(i), o1, using);
    if l.op2.Some? {
      var o2 := l.op2.value;
      assert Scan(false, i, o2) == i by { ScanIs(false, i, o2, i); }
      SecondParsed(i, a, o2, using);
      SelectBoth(FirstRow(i), l, using, i);
    } else {
      SelectAlone(FirstRow(i), l, using);
    }
  }

  lemma LooseParsed(i: nat, o1: Text, using: Option<nat>)
    requires i < ROWS && RowAt(i).Last() && o1.Plain? && RowAt(i).a0 !in {'B', 'D', 'J', '1', '6'}
    ensures Parse1(FirstRow(i), o1, using) == After1(i, RowAt(i).a0, SecondReg(0, o1), FirstExprs(o1, using))
  {
    hide RowAt, FirstRow, Scan, Row.Last, FirstExprs;
    LooseScan(i, o1.arg);
    FirstReads(FirstRow(i), o1, using);
  }

  /** A single operand parsed, its mode that of the row. */
  lemma SelectAlone(f: nat, l: Line, using: Option<nat>)
    requires f < ROWS && l.op1.Some? && l.op2.None? && l.op3.None? && RowAt(f).a0 != 'N'
    requires var a := Parse1(f, l.op1.value, using);
             && a.After1? && a.row < ROWS && RowAt(a.row).a1 == 'N' && a.mode == RowAt(a.row).a0
             && a.reg == SecondReg(0, l.op1.value) && a.xs == FirstExprs(l.op1.value, using)
    ensures var a := Parse1(f, l.op1.value, using);
            Select(f, l, using) == Found(a.row, RegisterOf(l), ExprsOf(l, using))
  {
    ExprsInOrder(l, using);
    hide RowAt, Parse1, FirstExprs, ExprsOf;
  }

  lemma LooseSecond(i: nat, l: Line, using: Option<nat>)
    requires i < ROWS && RowAt(i).Last() && FitsLoosely(l, RowAt(i)) && Legible(l, using)
    requires l.op1.Some? && Denotes(true, RowAt(i).a0, l.op1.value)
    requires l.op2.Some? && l.op2.value.Plain? && RowAt(i).a1 !in {'B', 'D', 'J'}
    requires forall k :: FirstRow(i) <= k < i ==> !Fits(l, RowAt(k))
    ensures Select(FirstRow(i), l, using) == Found(i, RegisterOf(l), ExprsOf(l, using))
  {
    ScansBoth(l, using);
    hide RowAt, FirstRow, Scan, Parse1, Parse2, Select, Row.Last, FirstExprs, SecondExprs, ExprsOf, Scans, ScansAfter,
         SecondReg, RegisterOf;
    var o1, o2 := l.op1.value, l.op2.value;
    FirstParsed(i, o1, using);
    var a := Parse1(FirstRow(i), o1, using);
    RowsOfMnemonic(i);
    EveryRowRegular(i);
    forall k | a.row <= k < i
      ensures !Stops(false, RowAt(k), o2) && !RowAt(k).Last()
    {
      NoneBetween(a.row, k, i, l);
    }
    ScanIs(false, a.row, o2, i);
    SecondParsed(i, a, o2, using);
    SelectBoth(FirstRow(i), l, using, a.row);
  }

  /** A row between that wanted the expression would fit the line. */
  lemma NoneBetween(s: nat, k: nat, i: nat, l: Line)
    requires i < ROWS && FirstRow(i) <= s <= k < i && RowAt(i).Last() && FitsLoosely(l, RowAt(i))
    requires l.op1.Some? && Denotes(true, RowAt(i).a0, l.op1.value) && Stops1(RowAt(s), l.op1.value)
    requires l.op2.Some? && l.op2.value.Plain? && !Fits(l, RowAt(k))
    ensures !Stops(false, RowAt(k), l.op2.value) && !RowAt(k).Last()
  {
    hide RowAt, FirstRow, Shadows, Row.Last;
    RowsOfMnemonic(i);
    SameMnemonic(k, i);
    SameMnemonic(s, k);
    EveryRowRegular(s);
    EveryRowRegular(k);
    NoRowShadows(s, k, i);
  }

  /** A last row accepts, besides what it names, an expression it does not want. */
  lemma LastRowIsLoose(i: nat, l: Line, using: Option<nat>)
    requires i < ROWS && RowAt(i).Last() && FitsLoosely(l, RowAt(i)) && Legible(l, using)
    requires forall k :: FirstRow(i) <= k < i ==> !Fits(l, RowAt(k))
    ensures Select(FirstRow(i), l, using) == Found(i, RegisterOf(l), ExprsOf(l, using))
  {
    hide RowAt, FirstRow, Select, Row.Last, Legible, RegisterOf, ExprsOf;
    EveryRowRegular(i);
    if Fits(l, RowAt(i)) {
      SelectionIsComplete(i, l, using);
    } else if !Denotes(true, RowAt(i).a0, l.op1.value) {
      LooseFirst(i, l, using);
    } else {
      LooseSecond(i, l, using);
    }
  }

  /** A row of the mnemonic is chosen when it fits the line, or as the last one
      if no row fits and it would if an expression could be anything. */
  predicate Chosen(i: nat, l: Line)
    requires i < ROWS
  {
    || Fits(l, RowAt(i))
    || (RowAt(i).Last() && FitsLoosely(l, RowAt(i)) && forall k :: FirstRow(i) <= k < i ==> !Fits(l, RowAt(k)))
  }

  /** Exactly what the two scans select, and where the expressions go. */
  lemma SelectionIsExact(i: nat, l: Line, using: Option<nat>, reg: nat, xs: Exprs)
    requires i < ROWS
    ensures Select(FirstRow(i), l, using) == Found(i, reg, xs)
       <==> Chosen(i, l) && Legible(l, using) && reg == RegisterOf(l) && xs == ExprsOf(l, using)
  {
    hide RowAt, FirstRow, Select, Fits, Row.Last, Legible, RegisterOf, ExprsOf;
    RowsOfMnemonic(i);
    if Chosen(i, l) && Legible(l, using) {
      if Fits(l, RowAt(i)) { SelectionIsComplete(i, l, using); } else { LastRowIsLoose(i, l, using); }
    }
    if Select(FirstRow(i), l, using) == Found(i, reg, xs) {
      FoundIsSound(FirstRow(i), l, using);
      forall k | FirstRow(i) <= k < i
        ensures !Fits(l, RowAt(k))
      {
        SameMnemonic(k, i);
        if Fits(l, RowAt(k)) { SelectionIsComplete(k, l, using); }
      }
      TightOrLast(l, RowAt(i));
    }
  }

  lemma TightOrLast(l: Line, row: Row)
    requires FitsLoosely(l, row)
    ensures Fits(l, row) || row.Last()
  {
    hide Row.Last;
  }

  lemma XchdRow()
    ensures var row := RowAt(104);
            row.name == Xchd && row.a0 == 'A' && row.a1 == 'I' && row.a2 == 'N' && row.Last() && FirstRow(104) == 104
  {
  }

  /** `xchd a, expr': the row of `xchd a, @ri' takes the expression, so what is
      found need not be what was written. */
  lemma ExpressionForRegister(using: Option<nat>, e: Expr)
    ensures var l := Line(Some(Named('A', 0)), Some(Plain(Arg(e, NoPrefix, 0))), None);
            && Select(104, l, using) == Found(104, 0, NOTHING.(ex1 := Some(e)))
            && RowAt(104).name == Xchd && !Fits(l, RowAt(104))
  {
    hide RowAt, FirstRow, Select;
    var l := Line(Some(Named('A', 0)), Some(Plain(Arg(e, NoPrefix, 0))), None);
    XchdRow();
    SelectionIsExact(104, l, using, 0, NOTHING.(ex1 := Some(e)));
  }
}
