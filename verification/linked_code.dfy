/** Instructions whose operands are symbols, with HIGH, LOW and B2B written on
    them: the fixups gas leaves, turned into relocations and run through the
    linker's loop, against the bytes each operand should end as. */
module LinkedCode {
  import opened Bits
  import opened Wrappers
  import opened Relocation
  import opened RelocateSection
  import opened OpcodeTable
  import opened GasEmit
  import opened Agreement
  import opened Codec

  /** The addresses the link gives the symbols. */
  type Symbols = nat -> int

  /** What an expression is worth in the end. */
  function Worth(ex: Expr, syms: Symbols): int
  {
    match ex
    case Constant(v) => v
    case Symbolic(sym, offset) => syms(sym) + offset
    case Register => 0
  }

  /** The fixups md_apply_fix () resolves. */
  function Constants(fixes: seq<Fix>): seq<Fix>
  {
    if fixes == [] then []
    else (if fixes[0].ex.Constant? then [fixes[0]] else []) + Constants(fixes[1..])
  }

  /** The relocations tc_gen_reloc () writes for the others. */
  function Relas(fixes: seq<Fix>, syms: Symbols): seq<Rela>
  {
    if fixes == [] then []
    else (if fixes[0].ex.Symbolic? then [RelaOf(fixes[0], syms)] else []) + Relas(fixes[1..], syms)
  }

  function RelaOf(f: Fix, syms: Symbols): Rela
    requires f.ex.Symbolic?
  {
    Rela(f.kind, f.offset, Defined(syms(f.ex.sym)), GenAddend(f.ex.offset, f.pcrel))
  }

  /** Assembled bytes and fixups at ADDR, resolved and linked; None when either
      refuses one. */
  function Linked(bytes: seq<byte>, fixes: seq<Fix>, addr: nat, syms: Symbols): Option<seq<byte>>
  {
    match Resolve(bytes, Constants(fixes), addr)
    case None => None
    case Some(b) => LinkedBytes(b, Relas(fixes, syms), addr)
  }

  function LinkedBytes(bytes: seq<byte>, rels: seq<Rela>, addr: nat): Option<seq<byte>>
  {
    var run := RunAll(Run(bytes, false, false), rels, addr);
    if run.Clean() then Some(run.bytes) else None
  }

  /** ROW with these operands assembled at ADDR and linked. */
  function LinkRow(row: Row, o: Operands, addr: nat, syms: Symbols): Option<seq<byte>>
    requires OpcodeByte(row, o.reg) < 0x100
  {
    var e := EmitIns(0, row, o);
    if e.bad then None else Linked(e.bytes, e.fixes, addr, syms)
  }

  // ----------------------------------------------------------- what it ends as

  /** The byte an operand of LETTER ends as, in the byte before address NEXT; None
      when it is refused.  A symbol in a data operand loses B2B, and one in a bit
      operand HIGH and LOW: its low byte is written all the same. */
  function EndOf(letter: char, ex: Expr, prefix: Prefix, off: nat, next: int, syms: Symbols): Option<byte>
  {
    var v := Worth(ex, syms);
    if ex.Register? then None
    else if letter == 'J' then if -128 <= v - next <= 127 then Some((v - next) % 0x100) else None
    else if ex.Constant? then
      match prefix
      case HighOf => if -65536 <= v <= 65535 then Some(v / 0x100 % 0x100) else None
      case LowOf => Some(v % 0x100)
      case BitOf => BitAddress(v, off)
      case NoPrefix => if -128 <= v <= 255 then Some(v % 0x100) else None
    else if letter in {'B', '/'} then
      if prefix != BitOf then Some(v % 0x100)
      else if v == 0 then Some(off % 0x100)
      else BitAddress(v, off % 0x100)
    else
      match prefix
      case HighOf => Some(v / 0x100 % 0x100)
      case LowOf | BitOf => Some(v % 0x100)
      case NoPrefix =>
        if (if letter == 'D' then v % 0x10000 <= 255 else -128 <= v <= 255) then Some(v % 0x100) else None
  }

  function Two(op: byte, a: Option<byte>, b: Option<byte>): Option<seq<byte>>
  {
    if a.Some? && b.Some? then Some([op, a.value, b.value]) else None
  }

  /** A sixteen-bit operand, high byte first. */
  function WordEnd(op: byte, ex: Expr, syms: Symbols): Option<seq<byte>>
  {
    var v := Worth(ex, syms);
    if ex.Register? || (ex.Constant? && !(-65536 <= v <= 65535)) then None
    else Some([op, v / 0x100 % 0x100, v % 0x100])
  }

  /** An in-page jump: the target has the A15..A11 of the next instruction. */
  function InpageEnd(op: byte, ex: Expr, addr: nat, syms: Symbols): Option<seq<byte>>
  {
    var v := Worth(ex, syms);
    if ex.Register? || (ex.Constant? && !(-65536 <= v <= 65535)) || v / 0x800 % 32 != (addr + 2) / 0x800 % 32 then None
    else Some([v / 0x100 % 8 * 32 + op % 32, v % 0x100])
  }

  /** A prefix on an operand that names a whole address. */
  predicate PrefixOnAddress(row: Row, o: Operands)
  {
    || (o.prefix1 != NoPrefix && (Letter1(row) in {'J', '1', '6'} || (row.a0 == 'P' && row.a1 == '#')))
    || (o.prefix2 != NoPrefix && row.a1 == 'J')
  }

  function Opcode(row: Row, reg: nat): nat { if UsesReg(row) then row.bin + reg else row.bin }

  /** The bytes of the whole instruction, by the letters of the row alone: the
      opcode, then the operands in source order, but for MOV of one direct byte
      to another, which has the source first. */
  function RowEnds(row: Row, o: Operands, addr: nat, syms: Symbols): Option<seq<byte>>
    requires Opcode(row, o.reg) < 0x100
  {
    var op: byte := Opcode(row, o.reg);
    var c1, c2 := Letter1(row), Letter2(row);
    if PrefixOnAddress(row, o) then None
    else if c1 == 'N' then Some([op])
    else if c1 == '1' then InpageEnd(op, o.ex1, addr, syms)
    else if c1 == '6' || row.a0 == 'P' then WordEnd(op, o.ex1, syms)
    else if c2 == 'N' then
      match EndOf(c1, o.ex1, o.prefix1, o.b2bOffset, addr + 2, syms)
      case None => None
      case Some(b) => Some([op, b])
    else if c2 == 'D' then
      Two(op, EndOf('D', o.ex2, o.prefix2, o.b2bOffset, addr + 2, syms),
          EndOf(c1, o.ex1, o.prefix1, o.b2bOffset, addr + 3, syms))
    else
      Two(op, EndOf(c1, o.ex1, o.prefix1, o.b2bOffset, addr + 2, syms),
          EndOf(c2, o.ex2, o.prefix2, o.b2bOffset, addr + 3, syms))
  }

  // ----------------------------------------- fixups and relocations in one list

  /** One fixup done in its place: by md_apply_fix () if its operand is a
      constant, by the linker if it is a symbol. */
  function Done(f: Fix, held: seq<byte>, addr: nat, syms: Symbols): (r: Option<seq<byte>>)
    requires |held| == Width(f.kind)
    ensures r.Some? ==> |r.value| == |held|
  {
    var place := addr + f.offset;
    match f.ex
    case Constant(v) =>
      var p := GasPatch(f.kind, FixValue(f, v, addr), place, held);
      if p.ok then Some(p.bytes) else None
    case Symbolic(sym, offset) =>
      var l := LinkPatch(f.kind, syms(sym) + GenAddend(offset, f.pcrel), place, held);
      if l.status.Ok? then Some(l.bytes) else None
    case Register => None
  }

  predicate InBytes(f: Fix, n: nat) { f.offset + Width(f.kind) <= n && !f.ex.Register? }

  predicate InOrder(fixes: seq<Fix>, n: nat)
  {
    && (forall i :: 0 <= i < |fixes| ==> InBytes(fixes[i], n))
    && (forall i, j :: 0 <= i < j < |fixes| ==> fixes[i].offset + Width(fixes[i].kind) <= fixes[j].offset)
  }

  /** All fixups in the order of their fields. */
  function Finish(bytes: seq<byte>, fixes: seq<Fix>, addr: nat, syms: Symbols): Option<seq<byte>>
    requires InOrder(fixes, |bytes|)
    decreases |fixes|
  {
    if fixes == [] then Some(bytes)
    else
      var f := fixes[0];
      assert InBytes(f, |bytes|);
      match Done(f, bytes[f.offset..f.offset + Width(f.kind)], addr, syms)
      case None => None
      case Some(b) => Finish(Splice(bytes, f.offset, b), fixes[1..], addr, syms)
  }

  lemma {:induction false} ConstantsInOrder(fixes: seq<Fix>, n: nat)
    ensures forall f :: f in Constants(fixes) ==> f in fixes && f.ex.Constant?
  {
    if fixes != [] { ConstantsInOrder(fixes[1..], n); }
  }

  /** Bytes in front of the fields come out as they went in. */
  lemma {:induction false} ResolveBehind(bytes: seq<byte>, at: nat, b: seq<byte>, fixes: seq<Fix>, addr: nat)
    requires at + |b| <= |bytes|
    requires forall f :: f in fixes ==> at + |b| <= f.offset
    ensures var r := Resolve(bytes, fixes, addr);
            && Resolve(Splice(bytes, at, b), fixes, addr) == (if r.None? then None else Some(Splice(r.value, at, b)))
            && (r.Some? ==> r.value[at..at + |b|] == bytes[at..at + |b|])
    decreases |fixes|
  {
    hide GasPatch, Splice, FixValue, Width;
    if fixes == [] {
      SpliceKeeps(bytes, at, b, at, 0);
    } else {
      var f := fixes[0];
      assert f in fixes;
      if f.ex.Constant? && f.offset + Width(f.kind) <= |bytes| {
        var held := bytes[f.offset..f.offset + Width(f.kind)];
        SpliceKeeps(bytes, at, b, f.offset, Width(f.kind));
        var p := GasPatch(f.kind, FixValue(f, f.ex.v, addr), addr + f.offset, held);
        if p.ok {
          SplicesApart(bytes, at, b, f.offset, p.bytes);
          ResolveBehind(Splice(bytes, f.offset, p.bytes), at, b, fixes[1..], addr);
        }
      }
    }
  }

  lemma SpliceKeeps(s: seq<byte>, at: nat, b: seq<byte>, from: nat, n: nat)
    requires at + |b| <= |s| && from + n <= |s| && (at + |b| <= from || n == 0)
    ensures Splice(s, at, b)[from..from + n] == s[from..from + n]
  {
  }

  lemma SplicesApart(s: seq<byte>, at: nat, a: seq<byte>, to: nat, b: seq<byte>)
    requires at + |a| <= to && to + |b| <= |s|
    ensures Splice(Splice(s, at, a), to, b) == Splice(Splice(s, to, b), at, a)
    ensures Splice(s, to, b)[at..at + |a|] == s[at..at + |a|]
  {
  }

  /** Resolving all constants first and then linking is taking the fixups one by
      one: their fields do not touch. */
  lemma {:induction false} LinkedInOrder(bytes: seq<byte>, fixes: seq<Fix>, addr: nat, syms: Symbols)
    requires InOrder(fixes, |bytes|)
    ensures Linked(bytes, fixes, addr, syms) == Finish(bytes, fixes, addr, syms)
    decreases |fixes|
  {
    hide Done, Linked, Splice;
    if fixes == [] {
      NoFixes(bytes, addr, syms);
    } else {
      var f, rest := fixes[0], fixes[1..];
      assert InBytes(f, |bytes|);
      assert fixes == [f] + rest;
      var d := Done(f, bytes[f.offset..f.offset + Width(f.kind)], addr, syms);
      if f.ex.Constant? {
        ConstantFirst(bytes, f, rest, addr, syms);
      } else {
        SymbolFirst(bytes, f, rest, addr, syms);
      }
      if d.Some? {
        assert InOrder(rest, |bytes|);
        LinkedInOrder(Splice(bytes, f.offset, d.value), rest, addr, syms);
      }
    }
  }

  lemma NoFixes(bytes: seq<byte>, addr: nat, syms: Symbols)
    ensures Linked(bytes, [], addr, syms) == Some(bytes)
    ensures Finish(bytes, [], addr, syms) == Some(bytes)
  {
  }

  lemma ConstantFirst(bytes: seq<byte>, f: Fix, rest: seq<Fix>, addr: nat, syms: Symbols)
    requires f.offset + Width(f.kind) <= |bytes| && f.ex.Constant?
    ensures var d := Done(f, bytes[f.offset..f.offset + Width(f.kind)], addr, syms);
            Linked(bytes, [f] + rest, addr, syms)
            == if d.None? then None else Linked(Splice(bytes, f.offset, d.value), rest, addr, syms)
  {
    hide GasPatch, LinkedBytes;
    var fixes := [f] + rest;
    assert fixes[1..] == rest;
    assert Constants(fixes) == [f] + Constants(rest) && Relas(fixes, syms) == Relas(rest, syms);
    assert Constants(fixes)[1..] == Constants(rest);
  }

  lemma SymbolFirst(bytes: seq<byte>, f: Fix, rest: seq<Fix>, addr: nat, syms: Symbols)
    requires InOrder([f] + rest, |bytes|) && f.ex.Symbolic?
    ensures f.offset + Width(f.kind) <= |bytes|
    ensures var d := Done(f, bytes[f.offset..f.offset + Width(f.kind)], addr, syms);
            Linked(bytes, [f] + rest, addr, syms)
            == if d.None? then None else Linked(Splice(bytes, f.offset, d.value), rest, addr, syms)
  {
    hide Done, LinkedBytes, Resolve, Splice;
    var fixes := [f] + rest;
    assert InBytes(fixes[0], |bytes|);
    assert fixes[1..] == rest;
    assert Constants(fixes) == Constants(rest) && Relas(fixes, syms) == [RelaOf(f, syms)] + Relas(rest, syms);
    var w := Width(f.kind);
    var held := bytes[f.offset..f.offset + w];
    var d := Done(f, held, addr, syms);
    ConstantsBehind(f, rest, |bytes|);
    ResolveBehind(bytes, f.offset, if d.Some? then d.value else held, Constants(rest), addr);
    var r := Resolve(bytes, Constants(rest), addr);
    if r.Some? { FirstTurn(bytes, r.value, f, Relas(rest, syms), addr, syms); }
  }

  lemma ConstantsBehind(f: Fix, rest: seq<Fix>, n: nat)
    requires InOrder([f] + rest, n)
    ensures forall g :: g in Constants(rest) ==> f.offset + Width(f.kind) <= g.offset
  {
    hide Width;
    ConstantsInOrder(rest, n);
    var fixes := [f] + rest;
    forall g | g in Constants(rest)
      ensures f.offset + Width(f.kind) <= g.offset
    {
      var i :| 0 <= i < |rest| && rest[i] == g;
      assert fixes[0] == f && fixes[i + 1] == g;
    }
  }

  /** The first relocation of a run. */
  lemma FirstTurn(was: seq<byte>, bytes: seq<byte>, f: Fix, rels: seq<Rela>, addr: nat, syms: Symbols)
    requires f.ex.Symbolic? && f.offset + Width(f.kind) <= |bytes| == |was|
    requires var w := Width(f.kind); bytes[f.offset..f.offset + w] == was[f.offset..f.offset + w]
    ensures var d := Done(f, was[f.offset..f.offset + Width(f.kind)], addr, syms);
            LinkedBytes(bytes, [RelaOf(f, syms)] + rels, addr)
            == if d.None? then None else LinkedBytes(Splice(bytes, f.offset, d.value), rels, addr)
  {
    hide LinkPatch, Splice, Width;
    var r := RelaOf(f, syms);
    var l := LinkPatch(f.kind, syms(f.ex.sym) + GenAddend(f.ex.offset, f.pcrel), addr + f.offset,
                       bytes[f.offset..f.offset + Width(f.kind)]);
    assert Turn(bytes, r, addr) == Placed(bytes, f.offset, l);
    OneTurn(bytes, r, rels, addr);
  }

  lemma OneTurn(bytes: seq<byte>, r: Rela, rels: seq<Rela>, addr: nat)
    requires !r.symbol.Undefined?
    ensures var l := Turn(bytes, r, addr);
            LinkedBytes(bytes, [r] + rels, addr) == if l.status.Ok? then LinkedBytes(l.bytes, rels, addr) else None
  {
    hide Turn;
    var run := Run(bytes, false, false);
    var next := Next(run, r, addr);
    assert ([r] + rels)[1..] == rels;
    assert RunAll(run, [r] + rels, addr) == RunAll(next, rels, addr);
  }

  // -------------------------------------------------- one operand at a time

  /** The letters fixup8 () is told as MODE and KIND. */
  predicate Told(letter: char, mode: Mode, kind: ArgKind)
  {
    match letter
    case 'D' => mode == ModeImm8 && kind == Direct
    case '#' => mode == ModeImm8 && kind == Immediate
    case 'B' | '/' => mode == ModeBit && kind == NoKind
    case 'J' => mode == ModeRel && kind == NoKind
    case _ => false
  }

  /** E is the emission of the byte at AT, B what it ends as: refused, written at
      once, or left to a fixup that does the rest. */
  predicate Settles(e: Emission, at: nat, b: Option<byte>, addr: nat, syms: Symbols)
  {
    && |e.bytes| == 1
    && (e.bad ==> b.None?)
    && (!e.bad && e.fixes == [] ==> b == Some(e.bytes[0]))
    && (!e.bad && e.fixes != [] ==>
          && |e.fixes| == 1 && e.fixes[0].offset == at && Width(e.fixes[0].kind) == 1
          && !e.fixes[0].ex.Register?
          && Done(e.fixes[0], e.bytes, addr, syms) == (if b.None? then None else Some([b.value])))
  }

  lemma OperandDone(at: nat, letter: char, ex: Expr, mode: Mode, prefix: Prefix, kind: ArgKind, off: nat,
                    addr: nat, syms: Symbols)
    requires Told(letter, mode, kind) && (letter == 'J' ==> prefix == NoPrefix)
    ensures Settles(Emit8(at, ex, mode, prefix, kind, off), at,
                    EndOf(letter, ex, prefix, off, addr + at + 1, syms), addr, syms)
  {
    if !ex.Register? && !(ex.Constant? && mode != ModeRel) {
      var reloc := OperandKind(mode, prefix, kind);
      var f := Fix(at, 1, ex, mode == ModeRel, reloc);
      if letter == 'J' {
        BranchDone(f, addr, syms);
      } else if reloc == B2b {
        FoldedDone(f, off, addr, syms);
      }
    }
  }

  lemma BranchDone(f: Fix, addr: nat, syms: Symbols)
    requires f.pcrel && f.kind == Pcrel7 && !f.ex.Register?
    ensures var d := Worth(f.ex, syms) - (addr + f.offset + 1);
            Done(f, [0], addr, syms) == if -128 <= d <= 127 then Some([d % 0x100]) else None
  {
    var d := Worth(f.ex, syms) - (addr + f.offset + 1);
    if f.ex.Symbolic? {
      assert syms(f.ex.sym) + GenAddend(f.ex.offset, true) - (addr + f.offset) == d;
    }
  }

  lemma FoldedDone(f: Fix, off: nat, addr: nat, syms: Symbols)
    requires !f.pcrel && f.kind == B2b && f.ex.Symbolic?
    ensures var v := Worth(f.ex, syms);
            Done(f, [Low8(off)], addr, syms)
            == if v == 0 then Some([off % 0x100])
               else match BitAddress(v, off % 0x100) case None => None case Some(b) => Some([b])
  {
  }

  /** The same between the bytes PRE and POST, before the fixups REST. */
  lemma OperandInPlace(pre: seq<byte>, e: Emission, b: Option<byte>, post: seq<byte>, rest: seq<Fix>,
                       addr: nat, syms: Symbols)
    requires Settles(e, |pre|, b, addr, syms) && !e.bad
    requires InOrder(rest, |pre| + 1 + |post|) && forall f :: f in rest ==> |pre| < f.offset
    ensures |pre + e.bytes + post| == |pre| + 1 + |post| && InOrder(e.fixes + rest, |pre| + 1 + |post|)
    ensures Finish(pre + e.bytes + post, e.fixes + rest, addr, syms)
         == if b.None? then None else Finish(pre + [b.value] + post, rest, addr, syms)
  {
    hide Done, Finish, Width;
    if e.fixes == [] {
      assert e.fixes + rest == rest;
      assert e.bytes == [b.value];
    } else {
      var f := e.fixes[0];
      assert e.fixes + rest == [f] + rest;
      FixInFront(f, |pre|, rest, |pre| + 1 + |post|);
      FirstFix(pre, e.bytes, post, f, rest, addr, syms);
    }
  }

  lemma FixInFront(f: Fix, at: nat, rest: seq<Fix>, n: nat)
    requires InOrder(rest, n) && forall g :: g in rest ==> at < g.offset
    requires f.offset == at < n && Width(f.kind) == 1 && !f.ex.Register?
    ensures InOrder([f] + rest, n)
  {
    hide Width;
    var fixes := [f] + rest;
    forall i | 0 <= i < |rest| ensures at < rest[i].offset { assert rest[i] in rest; }
  }

  lemma FirstFix(pre: seq<byte>, held: seq<byte>, post: seq<byte>, f: Fix, rest: seq<Fix>, addr: nat, syms: Symbols)
    requires |held| == Width(f.kind) == 1 && f.offset == |pre|
    requires InOrder([f] + rest, |pre + held + post|)
    ensures InOrder(rest, |pre + held + post|)
    ensures var d := Done(f, held, addr, syms);
            Finish(pre + held + post, [f] + rest, addr, syms)
            == if d.None? then None else Finish(pre + d.value + post, rest, addr, syms)
  {
    hide Done, Width;
    var bytes := pre + held + post;
    var fixes := [f] + rest;
    assert fixes[1..] == rest;
    forall i | 0 <= i < |rest| ensures rest[i] == fixes[i + 1] {}
    assert bytes[|pre|..|pre| + 1] == held;
    var d := Done(f, held, addr, syms);
    if d.Some? { assert Splice(bytes, |pre|, d.value) == pre + d.value + post; }
  }

  /** An opcode and one operand. */
  lemma OneDone(op: byte, letter: char, ex: Expr, mode: Mode, prefix: Prefix, kind: ArgKind, off: nat,
                addr: nat, syms: Symbols)
    requires Told(letter, mode, kind) && (letter == 'J' ==> prefix == NoPrefix)
    ensures var e := Then(Emission([op], [], false), Emit8(1, ex, mode, prefix, kind, off));
            var b := EndOf(letter, ex, prefix, off, addr + 2, syms);
            (if e.bad then None else Linked(e.bytes, e.fixes, addr, syms))
            == match b case None => None case Some(b) => Some([op, b])
  {
    hide Emit8, EndOf, Finish, Linked, Settles, InOrder;
    var one, b := Emit8(1, ex, mode, prefix, kind, off), EndOf(letter, ex, prefix, off, addr + 2, syms);
    OperandDone(1, letter, ex, mode, prefix, kind, off, addr, syms);
    if one.bad { Refused(one, 1, b, addr, syms); } else { LastOperand([op], one, b, addr, syms); }
    assert one.fixes + [] == one.fixes && [] + one.fixes == one.fixes;
    if b.Some? { assert [op] + [b.value] == [op, b.value]; }
  }

  lemma Refused(e: Emission, at: nat, b: Option<byte>, addr: nat, syms: Symbols)
    requires Settles(e, at, b, addr, syms) && e.bad
    ensures b.None?
  {
  }

  /** The last operand, behind bytes that are final. */
  lemma LastOperand(pre: seq<byte>, e: Emission, b: Option<byte>, addr: nat, syms: Symbols)
    requires Settles(e, |pre|, b, addr, syms) && !e.bad
    ensures InOrder(e.fixes, |pre| + 1) && |pre + e.bytes| == |pre| + 1
    ensures Linked(pre + e.bytes, e.fixes, addr, syms) == if b.None? then None else Some(pre + [b.value])
    ensures Finish(pre + e.bytes, e.fixes, addr, syms) == if b.None? then None else Some(pre + [b.value])
  {
    hide Settles, Finish, Linked;
    OperandInPlace(pre, e, b, [], [], addr, syms);
    assert pre + e.bytes + [] == pre + e.bytes && e.fixes + [] == e.fixes;
    LinkedInOrder(pre + e.bytes, e.fixes, addr, syms);
    if b.Some? {
      assert pre + [b.value] + [] == pre + [b.value];
      NoFixes(pre + [b.value], addr, syms);
    }
  }

  /** Two 8-bit operands one after the other. */
  lemma TwoDone(op: byte, letter: char, ex: Expr, mode: Mode, prefix: Prefix, kind: ArgKind,
                letter2: char, ex2: Expr, mode2: Mode, prefix2: Prefix, kind2: ArgKind, off: nat,
                addr: nat, syms: Symbols)
    requires Told(letter, mode, kind) && (letter == 'J' ==> prefix == NoPrefix)
    requires Told(letter2, mode2, kind2) && (letter2 == 'J' ==> prefix2 == NoPrefix)
    ensures var e := Then(Emission([op], [], false),
                          Then(Emit8(1, ex, mode, prefix, kind, off), Emit8(2, ex2, mode2, prefix2, kind2, off)));
            (if e.bad then None else Linked(e.bytes, e.fixes, addr, syms))
            == Two(op, EndOf(letter, ex, prefix, off, addr + 2, syms),
                   EndOf(letter2, ex2, prefix2, off, addr + 3, syms))
  {
    hide Emit8, EndOf, Finish, Linked, Settles;
    var one, two := Emit8(1, ex, mode, prefix, kind, off), Emit8(2, ex2, mode2, prefix2, kind2, off);
    var b, c := EndOf(letter, ex, prefix, off, addr + 2, syms), EndOf(letter2, ex2, prefix2, off, addr + 3, syms);
    OperandDone(1, letter, ex, mode, prefix, kind, off, addr, syms);
    OperandDone(2, letter2, ex2, mode2, prefix2, kind2, off, addr, syms);
    if one.bad { Refused(one, 1, b, addr, syms); }
    if two.bad { Refused(two, 2, c, addr, syms); }
    if !one.bad && !two.bad { BothOperands(op, one, two, b, c, addr, syms); }
  }

  lemma BothOperands(op: byte, one: Emission, two: Emission, b: Option<byte>, c: Option<byte>,
                     addr: nat, syms: Symbols)
    requires Settles(one, 1, b, addr, syms) && Settles(two, 2, c, addr, syms) && !one.bad && !two.bad
    ensures var e := Then(Emission([op], [], false), Then(one, two));
            Linked(e.bytes, e.fixes, addr, syms) == Two(op, b, c)
  {
    hide Finish, Linked, Done, InOrder;
    var pre: seq<byte> := [op];
    var e := Then(Emission(pre, [], false), Then(one, two));
    assert e.bytes == pre + one.bytes + two.bytes && e.fixes == one.fixes + two.fixes;
    SecondInOrder(two, c, addr, syms);
    hide Settles;
    OperandInPlace(pre, one, b, two.bytes, two.fixes, addr, syms);
    LinkedInOrder(e.bytes, e.fixes, addr, syms);
    if b.Some? {
      LastOperand(pre + [b.value], two, c, addr, syms);
      if c.Some? { assert pre + [b.value] + [c.value] == [op, b.value, c.value]; }
    }
  }

  lemma SecondInOrder(two: Emission, c: Option<byte>, addr: nat, syms: Symbols)
    requires Settles(two, 2, c, addr, syms) && !two.bad
    ensures |two.bytes| == 1 && InOrder(two.fixes, 3) && forall f :: f in two.fixes ==> 1 < f.offset
  {
    hide Done;
  }

  lemma WordDone(op: byte, ex: Expr, addr: nat, syms: Symbols)
    ensures var e := Then(Emission([op], [], false), Emit16(1, ex));
            (if e.bad then None else Linked(e.bytes, e.fixes, addr, syms)) == WordEnd(op, ex, syms)
  {
    hide Linked, Finish;
    var e, v := Then(Emission([op], [], false), Emit16(1, ex)), Worth(ex, syms);
    if !e.bad {
      if ex.Constant? {
        assert e.bytes == [op, High8(v), Low8(v)] && e.fixes == [];
        NoFixes(e.bytes, addr, syms);
      } else {
        assert e.bytes == [op, 0, 0] && e.fixes == [Fix(1, 2, ex, false, Word16)];
        WordFixed(op, ex, addr, syms);
      }
    }
  }

  lemma WordFixed(op: byte, ex: Expr, addr: nat, syms: Symbols)
    requires ex.Symbolic?
    ensures var v := Worth(ex, syms);
            Linked([op, 0, 0], [Fix(1, 2, ex, false, Word16)], addr, syms) == Some([op, High8(v), Low8(v)])
  {
    hide Linked, Finish;
    var f, v := Fix(1, 2, ex, false, Word16), Worth(ex, syms);
    var bytes: seq<byte> := [op, 0, 0];
    LinkedInOrder(bytes, [f], addr, syms);
    LastFix(bytes, f, addr, syms);
    assert Splice(bytes, 1, [High8(v), Low8(v)]) == [op, High8(v), Low8(v)];
  }

  /** A single fixup. */
  lemma LastFix(bytes: seq<byte>, f: Fix, addr: nat, syms: Symbols)
    requires InBytes(f, |bytes|)
    ensures var d := Done(f, bytes[f.offset..f.offset + Width(f.kind)], addr, syms);
            Finish(bytes, [f], addr, syms) == if d.None? then None else Some(Splice(bytes, f.offset, d.value))
  {
    hide Done, Width;
    assert [f][1..] == [];
  }

  lemma InpageDone(op: byte, ex: Expr, addr: nat, syms: Symbols)
    ensures var e := Emit11(0, ex, op);
            (if e.bad then None else Linked(e.bytes, e.fixes, addr, syms)) == InpageEnd(op, ex, addr, syms)
  {
    hide Linked, Finish;
    if !ex.Register? { InpageFixed(op, ex, addr, syms); }
  }

  lemma InpageFixed(op: byte, ex: Expr, addr: nat, syms: Symbols)
    requires !ex.Register?
    ensures var v := Worth(ex, syms);
            Linked([op, 0], [Fix(0, 2, ex, false, Abs11)], addr, syms)
            == if Page(v) == Page(addr + 2) then Some([InpageHigh(v, op), Low8(v)]) else None
  {
    hide Linked, Finish;
    var f, v := Fix(0, 2, ex, false, Abs11), Worth(ex, syms);
    var bytes: seq<byte> := [op, 0];
    LinkedInOrder(bytes, [f], addr, syms);
    LastFix(bytes, f, addr, syms);
    assert bytes[0..2] == bytes;
    assert Splice(bytes, 0, [InpageHigh(v, op), Low8(v)]) == [InpageHigh(v, op), Low8(v)];
  }

  // ---------------------------------------------------------- every row

  lemma PrefixesRefused(row: Row, o: Operands)
    requires ShapeKnown(row)
    ensures PrefixRefused(row, o) <==> PrefixOnAddress(row, o)
  {
  }

  lemma EndsOne(row: Row, o: Operands, addr: nat, syms: Symbols)
    requires ShapeKnown(row) && row.mreloc in {'D', 'r', 'B', '7', 'W'}
    requires OpcodeByte(row, o.reg) == Opcode(row, o.reg) < 0x100 && !PrefixRefused(row, o)
    ensures LinkRow(row, o, addr, syms) == RowEnds(row, o, addr, syms)
  {
    PrefixesRefused(row, o);
    BranchTakesNone(row, o);
    OneLetter(row);
    hide Emit8, EndOf, Linked, OpcodeByte, Opcode, PrefixRefused, PrefixOnAddress, ShapeKnown, Kinds, Letter1, Letter2;
    var op := OpcodeByte(row, o.reg);
    if row.mreloc in {'7', 'W'} {
      OneDone(op, 'J', o.ex1, ModeRel, NoPrefix, NoKind, o.b2bOffset, addr, syms);
    } else if row.mreloc == 'B' {
      OneDone(op, Letter1(row), o.ex1, ModeBit, o.prefix1, NoKind, o.b2bOffset, addr, syms);
    } else {
      OneDone(op, Letter1(row), o.ex1, ModeImm8, o.prefix1, Kinds(row).0, o.b2bOffset, addr, syms);
    }
  }

  /** The rows of one 8-bit operand, their letter and what it is told as. */
  lemma OneLetter(row: Row)
    requires ShapeKnown(row) && row.mreloc in {'D', 'r', 'B', '7', 'W'}
    ensures Letter2(row) == 'N' && row.a0 != 'P'
    ensures if row.mreloc in {'D', 'r'} then Told(Letter1(row), ModeImm8, Kinds(row).0)
            else if row.mreloc == 'B' then Told(Letter1(row), ModeBit, NoKind)
            else Letter1(row) == 'J'
    ensures Letter1(row) == 'J' <==> row.mreloc in {'7', 'W'}
  {
    hide MaskKnown;
  }

  /** A branch operand that is not refused has no prefix. */
  lemma BranchTakesNone(row: Row, o: Operands)
    requires ShapeKnown(row) && !PrefixRefused(row, o)
    ensures row.mreloc in {'7', 'W'} ==> o.prefix1 == NoPrefix && Letter1(row) == 'J' && Letter2(row) == 'N'
    ensures row.a1 == 'J' ==> o.prefix2 == NoPrefix
  {
  }

  /** A branch byte ends the same whatever is written beside it. */
  lemma BranchEnd(ex: Expr, prefix: Prefix, off: nat, next: int, syms: Symbols)
    ensures EndOf('J', ex, prefix, off, next, syms) == EndOf('J', ex, NoPrefix, off, next, syms)
  {
  }

  lemma EndsTwo(row: Row, o: Operands, addr: nat, syms: Symbols)
    requires ShapeKnown(row) && row.mreloc in {'d', 'a', 'J', 'X', 'Y', 'Z'}
    requires OpcodeByte(row, o.reg) == Opcode(row, o.reg) < 0x100 && !PrefixRefused(row, o)
    ensures LinkRow(row, o, addr, syms) == RowEnds(row, o, addr, syms)
  {
    PrefixesRefused(row, o);
    hide Emit8, EndOf, Linked, OpcodeByte, Opcode, PrefixRefused, PrefixOnAddress;
    var op := OpcodeByte(row, o.reg);
    var (k1, k2) := Kinds(row);
    var c1 := Letter1(row);
    if row.mreloc == 'd' {
      TwoDone(op, 'D', o.ex2, ModeImm8, o.prefix2, k2, 'D', o.ex1, ModeImm8, o.prefix1, k1, o.b2bOffset, addr, syms);
    } else if row.mreloc == 'a' {
      TwoDone(op, 'D', o.ex1, ModeImm8, o.prefix1, k1, '#', o.ex2, ModeImm8, o.prefix2, k2, o.b2bOffset, addr, syms);
    } else {
      BranchEnd(o.ex2, o.prefix2, o.b2bOffset, addr + 3, syms);
      var mode := if row.mreloc == 'J' then ModeBit else ModeImm8;
      var kind := if row.mreloc == 'J' then NoKind else k1;
      TwoDone(op, c1, o.ex1, mode, o.prefix1, kind, 'J', o.ex2, ModeRel, NoPrefix, NoKind, o.b2bOffset, addr, syms);
    }
  }

  lemma EndsWord(row: Row, o: Operands, addr: nat, syms: Symbols)
    requires ShapeKnown(row) && row.mreloc == '6'
    requires OpcodeByte(row, o.reg) == Opcode(row, o.reg) < 0x100 && !PrefixRefused(row, o)
    ensures LinkRow(row, o, addr, syms) == RowEnds(row, o, addr, syms)
  {
    PrefixesRefused(row, o);
    hide Emit16, WordEnd, Linked, OpcodeByte, Opcode, PrefixRefused, PrefixOnAddress;
    WordDone(OpcodeByte(row, o.reg), o.ex1, addr, syms);
  }

  lemma EndsInpage(row: Row, o: Operands, addr: nat, syms: Symbols)
    requires ShapeKnown(row) && row.mreloc == '1'
    requires OpcodeByte(row, o.reg) == Opcode(row, o.reg) < 0x100 && !PrefixRefused(row, o)
    ensures LinkRow(row, o, addr, syms) == RowEnds(row, o, addr, syms)
  {
    PrefixesRefused(row, o);
    hide Emit11, InpageEnd, Linked, OpcodeByte, Opcode, PrefixRefused, PrefixOnAddress;
    InpageDone(OpcodeByte(row, o.reg), o.ex1, addr, syms);
  }

  lemma EndsPlain(row: Row, o: Operands, addr: nat, syms: Symbols)
    requires ShapeKnown(row) && row.mreloc in {'N', 'I', 'R'}
    requires OpcodeByte(row, o.reg) == Opcode(row, o.reg) < 0x100 && !PrefixRefused(row, o)
    ensures LinkRow(row, o, addr, syms) == RowEnds(row, o, addr, syms)
  {
    PrefixesRefused(row, o);
    hide Linked, OpcodeByte, Opcode, PrefixRefused, PrefixOnAddress;
    NoFixes([OpcodeByte(row, o.reg)], addr, syms);
  }

  /** Every row, with any prefixes, constants or symbols: assembling it and linking
      what is left gives the bytes its letters ask for, and is refused exactly when
      one of its operands is. */
  lemma LinkIsEnds(row: Row, o: Operands, addr: nat, syms: Symbols)
    requires ShapeKnown(row) && RegFits(row, o.reg)
    ensures OpcodeByte(row, o.reg) == Opcode(row, o.reg) < 0x100
    ensures LinkRow(row, o, addr, syms) == RowEnds(row, o, addr, syms)
  {
    OpcodeByteIs(row, o.reg);
    hide LinkRow, RowEnds, OpcodeByte, PrefixRefused;
    if PrefixRefused(row, o) {
      RefusedAlike(row, o, addr, syms);
    } else {
      match row.mreloc {
        case 'N' | 'I' | 'R' => EndsPlain(row, o, addr, syms);
        case 'D' | 'r' | 'B' | '7' | 'W' => EndsOne(row, o, addr, syms);
        case '1' => EndsInpage(row, o, addr, syms);
        case '6' => EndsWord(row, o, addr, syms);
        case _ => EndsTwo(row, o, addr, syms);
      }
    }
  }

  lemma RefusedAlike(row: Row, o: Operands, addr: nat, syms: Symbols)
    requires ShapeKnown(row) && PrefixRefused(row, o) && OpcodeByte(row, o.reg) == Opcode(row, o.reg) < 0x100
    ensures LinkRow(row, o, addr, syms) == RowEnds(row, o, addr, syms) == None
  {
    PrefixesRefused(row, o);
    hide OpcodeByte, Opcode, ShapeKnown;
  }

  // ------------------------------------------------------ symbols and constants

  function ConstantOf(ex: Expr, syms: Symbols): Expr { if ex.Symbolic? then Constant(Worth(ex, syms)) else ex }

  /** The same operands with the values written out. */
  function WrittenOut(o: Operands, syms: Symbols): Operands
  {
    o.(ex1 := ConstantOf(o.ex1, syms), ex2 := ConstantOf(o.ex2, syms))
  }

  /** A symbol whose prefix the fixup does not carry: B2B on a data operand, HIGH on
      a bit. */
  predicate Loses(letter: char, ex: Expr, prefix: Prefix)
  {
    ex.Symbolic? && ((letter in {'D', '#'} && prefix == BitOf) || (letter in {'B', '/'} && prefix == HighOf))
  }

  /** One operand: where the symbol and its value are both accepted they end as the
      same byte, unless the prefix is lost. */
  lemma SameEnd(letter: char, ex: Expr, prefix: Prefix, off: nat, next: int, syms: Symbols)
    requires letter in {'D', '#', 'B', '/', 'J'} && !Loses(letter, ex, prefix)
    ensures var a, b := EndOf(letter, ex, prefix, off, next, syms),
                        EndOf(letter, ConstantOf(ex, syms), prefix, off, next, syms);
            a.Some? && b.Some? ==> a == b
  {
  }

  /** Where the prefix is lost the symbol ends as its low byte, and so as the value
      does exactly when that is the byte the prefix names. */
  lemma LostEnd(letter: char, ex: Expr, prefix: Prefix, off: nat, next: int, syms: Symbols)
    requires Loses(letter, ex, prefix)
    ensures var v := Worth(ex, syms);
            var a, b := EndOf(letter, ex, prefix, off, next, syms),
                        EndOf(letter, ConstantOf(ex, syms), prefix, off, next, syms);
            && a == Some(Low8(v))
            && (b.Some? ==> (a == b <==> if prefix == HighOf then High8(v) == Low8(v)
                                         else BitAddress(v, off) == Some(Low8(v))))
  {
  }

  /** Symbols link to the bytes of their values: wherever both are accepted, under
      the same prefixes, unless a prefix is lost. */
  lemma SymbolsAreTheirValues(row: Row, o: Operands, addr: nat, syms: Symbols)
    requires ShapeKnown(row) && RegFits(row, o.reg)
    requires !Loses(Letter1(row), o.ex1, o.prefix1) && !Loses(Letter2(row), o.ex2, o.prefix2)
    ensures OpcodeByte(row, o.reg) < 0x100
    ensures var a, b := LinkRow(row, o, addr, syms), LinkRow(row, WrittenOut(o, syms), addr, syms);
            a.Some? && b.Some? ==> a == b
  {
    LinkIsEnds(row, o, addr, syms);
    LinkIsEnds(row, WrittenOut(o, syms), addr, syms);
    hide LinkRow, RowEnds, OpcodeByte;
    EndsAreTheirValues(row, o, addr, syms);
  }

  lemma EndsAreTheirValues(row: Row, o: Operands, addr: nat, syms: Symbols)
    requires ShapeKnown(row) && Opcode(row, o.reg) < 0x100
    requires !Loses(Letter1(row), o.ex1, o.prefix1) && !Loses(Letter2(row), o.ex2, o.prefix2)
    ensures var a, b := RowEnds(row, o, addr, syms), RowEnds(row, WrittenOut(o, syms), addr, syms);
            a.Some? && b.Some? ==> a == b
  {
    LettersKnown(row);
    hide ShapeKnown, EndOf, PrefixOnAddress, Opcode, Loses, Letter1, Letter2, UsesReg;
    var c1, c2 := Letter1(row), Letter2(row);
    var w := WrittenOut(o, syms);
    if c1 in {'D', '#', 'B', '/', 'J'} {
      SameEnd(c1, o.ex1, o.prefix1, o.b2bOffset, addr + 2, syms);
      SameEnd(c1, o.ex1, o.prefix1, o.b2bOffset, addr + 3, syms);
    }
    if c2 != 'N' {
      SameEnd(c2, o.ex2, o.prefix2, o.b2bOffset, addr + 2, syms);
      SameEnd(c2, o.ex2, o.prefix2, o.b2bOffset, addr + 3, syms);
    }
  }

  lemma LettersKnown(row: Row)
    requires ShapeKnown(row)
    ensures Letter1(row) in {'N', 'D', '#', 'B', '/', 'J', '1', '6'} && Letter2(row) in {'N', 'D', '#', 'J'}
    ensures Letter2(row) != 'N' ==> Letter1(row) in {'D', '#', 'B'}
  {
  }

  /** `mov a,B2B(sym,3)' and `setb HIGH(sym)' are such operands: they are accepted
      with the symbol and with its value 0x20 or 0x2100 written out, and end as
      different bytes. */
  lemma LostPrefixShows(syms: Symbols)
    requires syms(0) == 0x20 && syms(1) == 0x2100
    ensures EndOf('D', Symbolic(0, 0), BitOf, 3, 2, syms) == Some(0x20)
    ensures EndOf('D', Constant(0x20), BitOf, 3, 2, syms) == Some(3)
    ensures EndOf('B', Symbolic(1, 0), HighOf, 0, 2, syms) == Some(0)
    ensures EndOf('B', Constant(0x2100), HighOf, 0, 2, syms) == Some(0x21)
  {
  }

  // ------------------------------------------------------- the values encoded

  lemma {:induction false} ConstantsResolve(bytes: seq<byte>, fixes: seq<Fix>, addr: nat, syms: Symbols)
    requires forall f :: f in fixes ==> f.ex.Constant?
    ensures Constants(fixes) == fixes && Relas(fixes, syms) == []
    ensures Linked(bytes, fixes, addr, syms) == Resolve(bytes, fixes, addr)
  {
    if fixes != [] {
      assert fixes[0] in fixes;
      ConstantsResolve(bytes, fixes[1..], addr, syms);
      assert [fixes[0]] + fixes[1..] == fixes;
    }
  }

  /** Without symbols nothing is left to the linker. */
  lemma ConstantsAreEncoded(row: Row, i: nat, reg: nat, v1: int, v2: int, addr: nat, syms: Symbols)
    requires OpcodeByte(row, reg) < 0x100
    ensures LinkRow(row, Operands(reg, Constant(v1), Constant(v2), NoPrefix, NoPrefix, 0), addr, syms)
         == EncodeRow(row, Insn(i, reg, v1, v2), addr)
  {
    var o := Operands(reg, Constant(v1), Constant(v2), NoPrefix, NoPrefix, 0);
    ConstantFixes(row, o);
    hide EmitIns, Linked, Resolve, OpcodeByte;
    var e := EmitIns(0, row, o);
    ConstantsResolve(e.bytes, e.fixes, addr, syms);
  }

  lemma ConstantFixes(row: Row, o: Operands)
    requires OpcodeByte(row, o.reg) < 0x100 && o.ex1.Constant? && o.ex2.Constant?
    ensures forall f :: f in EmitIns(0, row, o).fixes ==> f.ex.Constant?
  {
    hide OpcodeByte, Kinds, PrefixRefused, ConstantByte, OperandKind, CheckRange;
  }

  /** An instruction of constants and symbols, assembled and linked, is the
      instruction of the values they are worth wherever both are accepted. */
  lemma LinkedIsEncoded(row: Row, i: nat, reg: nat, ex1: Expr, ex2: Expr, addr: nat, syms: Symbols)
    requires ShapeKnown(row) && RegFits(row, reg)
    ensures OpcodeByte(row, reg) < 0x100
    ensures var x := Insn(i, reg, Worth(ex1, syms), Worth(ex2, syms));
            var o := Operands(reg, ex1, ex2, NoPrefix, NoPrefix, 0);
            LinkRow(row, o, addr, syms).Some? && EncodeRow(row, x, addr).Some? ==>
              LinkRow(row, o, addr, syms) == EncodeRow(row, x, addr)
  {
    var o := Operands(reg, ex1, ex2, NoPrefix, NoPrefix, 0);
    var v := Operands(reg, Constant(Worth(ex1, syms)), Constant(Worth(ex2, syms)), NoPrefix, NoPrefix, 0);
    LinkIsEnds(row, o, addr, syms);
    LinkIsEnds(row, v, addr, syms);
    ConstantsAreEncoded(row, i, reg, Worth(ex1, syms), Worth(ex2, syms), addr, syms);
    SymbolsAreTheirValues(row, o, addr, syms);
    hide LinkRow, OpcodeByte, EncodeRow, ShapeKnown, RowEnds;
    if LinkRow(row, o, addr, syms).Some? {
      NoRegisters(row, o, addr, syms);
      OthersIgnored(row, v, WrittenOut(o, syms), addr, syms);
      LinkIsEnds(row, WrittenOut(o, syms), addr, syms);
    }
  }

  /** No expression of a row that is accepted is a register. */
  lemma NoRegisters(row: Row, o: Operands, addr: nat, syms: Symbols)
    requires ShapeKnown(row) && Opcode(row, o.reg) < 0x100 && RowEnds(row, o, addr, syms).Some?
    ensures Letter1(row) != 'N' ==> !o.ex1.Register?
    ensures Letter2(row) != 'N' ==> !o.ex2.Register?
  {
    LettersKnown(row);
    hide ShapeKnown, Opcode, PrefixOnAddress, Letter1, Letter2;
  }

  /** An expression the row does not name is not looked at. */
  lemma OthersIgnored(row: Row, a: Operands, b: Operands, addr: nat, syms: Symbols)
    requires Opcode(row, a.reg) < 0x100 && b == a.(ex1 := b.ex1, ex2 := b.ex2)
    requires Letter1(row) != 'N' ==> a.ex1 == b.ex1
    requires Letter2(row) != 'N' ==> a.ex2 == b.ex2
    requires Letter1(row) == 'N' ==> Letter2(row) == 'N'
    ensures RowEnds(row, a, addr, syms) == RowEnds(row, b, addr, syms)
  {
    hide Opcode, EndOf, Letter1, Letter2;
  }

  /** And it prints as that instruction. */
  lemma LinkedPrints(row: Row, i: nat, reg: nat, ex1: Expr, ex2: Expr, addr: nat, syms: Symbols, tail: seq<byte>)
    requires ShapeKnown(row) && RegFits(row, reg)
    ensures OpcodeByte(row, reg) < 0x100
    ensures var x := Insn(i, reg, Worth(ex1, syms), Worth(ex2, syms));
            var o := Operands(reg, ex1, ex2, NoPrefix, NoPrefix, 0);
            LinkRow(row, o, addr, syms).Some? && EncodeRow(row, x, addr).Some? ==>
              PrintsAs(row, x, addr, LinkRow(row, o, addr, syms).value, tail)
  {
    var x := Insn(i, reg, Worth(ex1, syms), Worth(ex2, syms));
    LinkedIsEncoded(row, i, reg, ex1, ex2, addr, syms);
    hide LinkRow, EncodeRow, Worth, OpcodeByte, PrintsAs;
    if EncodeRow(row, x, addr).Some? { DecodeAfterEncode(row, x, addr, tail); }
  }
}
