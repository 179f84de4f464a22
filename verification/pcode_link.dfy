/** `.pcode' entries in the linker: what the relocations of a section leave of
    an entry, and what the operands of symbols end as. */
module PcodeLink {
  import opened Bits
  import opened Wrappers
  import opened Relocation
  import opened GasEmit
  import opened RelocateSection
  import opened Pcode
  import opened LinkedCode
  import opened LinkedProgram

  /** The flags of an entry and its length. */
  datatype Shape = Shape(ind1: bool, ind2: bool, ind3: bool, swap1: bool, swap3: bool, length: nat)

  function ShapeOf(mem: seq<byte>): Option<Shape>
  {
    match SplitEntry(mem, 0)
    case None => None
    case Some((e, n)) => Some(Shape(e.ind1, e.ind2, e.ind3, e.swap1, e.swap3, n))
  }

  /** The shape is in the upper bits of the first byte and in the third. */
  lemma ShapeByHead(a: seq<byte>, b: seq<byte>)
    requires |a| == |b| >= 3 && a[0] / 32 == b[0] / 32 && a[2] == b[2]
    ensures ShapeOf(a) == ShapeOf(b)
  {
    TopBits(a[0]);
    TopBits(b[0]);
    hide BitSet;
  }

  lemma TopBits(x: byte)
    ensures BitSet(x, 128) <==> x / 32 / 4 % 2 == 1
    ensures BitSet(x, 64) <==> x / 32 / 2 % 2 == 1
    ensures BitSet(x, 32) <==> x / 32 % 2 == 1
  {
  }

  /** A relocation of the entry at P - its execution address, or an operand
      behind the flags - or of something else in the section. */
  predicate Beside(r: Rela, p: nat)
  {
    FieldEnd(r) <= p || r.offset >= p + 3 || (r.kind == Pcode13 && r.offset == p)
  }

  predicate FixBeside(f: Fix, at: nat) { (f.kind == Pcode13 && f.offset == at) || f.offset >= at + 3 }

  predicate AllBeside(fs: seq<Fix>, at: nat) { forall i :: 0 <= i < |fs| ==> FixBeside(fs[i], at) }

  /** The fixups an entry at AT leaves for the linker are of that kind. */
  lemma FixesAreBeside(l: Line, at: nat)
    ensures AllBeside(EmitLine(at, l).fixes, at)
  {
    hide OperandBytes, Head, FixBeside;
    var e1 := OperandBytes(at + 3, l.op1);
    var e2 := OperandBytes(at + 3 + |e1.bytes|, l.op2);
    HeadFix(l, at);
    OperandFix(l.op1, at, at + 3);
    OperandFix(l.op2, at, at + 3 + |e1.bytes|);
    OperandFix(l.op3, at, at + 3 + |e1.bytes| + |e2.bytes|);
  }

  lemma HeadFix(l: Line, at: nat)
    ensures AllBeside(Head(at, l).fixes, at)
  {
    hide LineFlags, FlagByte, ExecHigh;
  }

  lemma OperandFix(o: Operand, start: nat, at: nat)
    requires start + 3 <= at
    ensures AllBeside(OperandBytes(at, o).fixes, start)
  {
  }

  /** One relocation leaves the head of the entry at P its flags. */
  lemma TurnKeepsHead(bytes: seq<byte>, r: Rela, base: int, p: nat)
    requires p + 3 <= |bytes| && Beside(r, p)
    ensures var out := Turn(bytes, r, base).bytes;
            out[p] / 32 == bytes[p] / 32 && out[p + 2] == bytes[p + 2]
  {
    if r.kind == Pcode13 && r.offset == p {
      var target := SymbolValue(r.symbol) + r.addend;
      var field := bytes[p..p + 2];
      var l := LinkPatch(Pcode13, target, base + p, field);
      FlagsKept(target, base + p, field);
      var out := Turn(bytes, r, base).bytes;
      assert out == Splice(bytes, p, l.bytes);
      assert out[p..p + 2] == l.bytes;
      assert out[p] == out[p..p + 2][0] && field[0] == bytes[p];
    } else {
      hide LinkPatch;
    }
  }

  /** The 13-bit address leaves the three bits above it alone, accepted or not. */
  lemma FlagsKept(target: int, place: int, field: seq<byte>)
    requires |field| == 2
    ensures LinkPatch(Pcode13, target, place, field).bytes[0] / 32 == field[0] / 32
  {
    if 0x100 <= target <= 0x1FFF {
      var t := target / 0x100;
      assert 1 <= t < 32;
      assert (field[0] / 32 * 32 + t) / 32 == field[0] / 32;
    }
  }

  lemma {:induction false} RunKeepsHead(run: Run, rels: seq<Rela>, base: int, p: nat)
    requires p + 3 <= |run.bytes| && forall r :: r in rels ==> Beside(r, p)
    ensures var out := RunAll(run, rels, base).bytes;
            out[p] / 32 == run.bytes[p] / 32 && out[p + 2] == run.bytes[p + 2]
    decreases |rels|
  {
    hide Turn, Beside;
    if rels != [] && !run.stopped {
      assert rels[0] in rels;
      TurnKeepsHead(run.bytes, rels[0], base, p);
      RunKeepsHead(Next(run, rels[0], base), rels[1..], base, p);
    }
  }

  /** Whatever the relocations of a section come to, an entry in it keeps its
      flags and its length. */
  lemma RelocationKeepsShape(bytes: seq<byte>, rels: seq<Rela>, base: int, p: nat)
    requires p + 3 <= |bytes| && forall r :: r in rels ==> Beside(r, p)
    ensures ShapeOf(RunAll(Run(bytes, false, false), rels, base).bytes[p..]) == ShapeOf(bytes[p..])
  {
    hide RunAll, ShapeOf, Beside;
    RunKeepsHead(Run(bytes, false, false), rels, base, p);
    ShapeByHead(RunAll(Run(bytes, false, false), rels, base).bytes[p..], bytes[p..]);
  }

  function ExecOf(mem: seq<byte>): nat
    requires |mem| >= 2
  {
    Word(mem[0] % 32, mem[1])
  }

  /** After a link without a diagnostic the entry's execution address is the
      symbol's, or, if that is 0, as it was. */
  lemma ExecIsRelocated(bytes: seq<byte>, rels: seq<Rela>, base: int, r: Rela)
    requires Disjoint(rels) && r in rels && r.kind == Pcode13
    requires RunAll(Run(bytes, false, false), rels, base).Clean()
    ensures var out, target := RunAll(Run(bytes, false, false), rels, base).bytes, SymbolValue(r.symbol) + r.addend;
            && FieldEnd(r) <= |bytes|
            && ExecOf(out[r.offset..]) == if target == 0 then ExecOf(bytes[r.offset..]) else target
  {
    hide RunAll, Disjoint, Turn, ExecOf;
    var out := RunAll(Run(bytes, false, false), rels, base).bytes;
    CleanRun(bytes, rels, base);
    assert Succeeds(bytes, r, base) && WritesAlone(bytes, out, r, base);
    ExecAlone(bytes, out, base, r);
  }

  lemma ExecAlone(bytes: seq<byte>, out: seq<byte>, base: int, r: Rela)
    requires r.kind == Pcode13 && Succeeds(bytes, r, base) && WritesAlone(bytes, out, r, base)
    ensures var target := SymbolValue(r.symbol) + r.addend;
            ExecOf(out[r.offset..]) == if target == 0 then ExecOf(bytes[r.offset..]) else target
  {
    var p, target := r.offset, SymbolValue(r.symbol) + r.addend;
    var field := bytes[p..p + 2];
    var l := LinkPatch(Pcode13, target, base + p, field);
    hide LinkPatch;
    assert out[p..p + 2] == l.bytes;
    assert out[p..][0] == l.bytes[0] && out[p..][1] == l.bytes[1];
    assert bytes[p..][0] == field[0] && bytes[p..][1] == field[1];
    ExecPatched(target, base + p, field);
  }

  lemma ExecPatched(target: int, place: int, field: seq<byte>)
    requires |field| == 2 && LinkPatch(Pcode13, target, place, field).status.Ok?
    ensures var b := LinkPatch(Pcode13, target, place, field).bytes;
            Word(b[0] % 32, b[1]) == if target == 0 then Word(field[0] % 32, field[1]) else target
  {
    if target != 0 { AddressBack(field[0], target); }
  }

  lemma AddressBack(x: byte, target: int)
    requires 0x100 <= target <= 0x1FFF
    ensures (x / 32 * 32 + target / 0x100) % 32 * 0x100 + target % 0x100 == target
  {
    var t := target / 0x100;
    assert 1 <= t < 32;
    assert (x / 32 * 32 + t) % 32 == t;
  }

  /** `@BYTE' of a symbol leaves 0xFF in the field.  The linker adds the symbol
      to it and so writes what the directive writes for a constant of that
      value, one less; md_apply_fix () writes the value itself, which is never
      that byte. */
  lemma IndirectByteOfSymbol(sym: nat, offset: int, v: int, at: nat, place: int)
    ensures var o := Operand(Symbolic(sym, offset), IndirectByte);
            OperandBytes(at, o) == Emission([0xFF], [Fix(at, 1, o.ex, false, Byte8)], false)
    ensures LinkPatch(Byte8, v, place, [0xFF]) == Link(Ok, [Low8(v - 1)])
    ensures OperandBytes(at, Operand(Constant(v), IndirectByte)).bytes == if Low8(v) != 0 then [Low8(v - 1)] else []
    ensures GasPatch(Byte8, v, place, [0xFF]) == Patch(-256 <= v <= 255, [Low8(v)])
    ensures Low8(v) != Low8(v - 1)
  {
    assert (0xFF + v) % 0x100 == (v - 1) % 0x100 by {
      assert 0xFF + v == v - 1 + 0x100;
    }
  }

  // ------------------------------------------------- an entry of symbols, linked

  /** The bytes an operand ends as.  A constant leaves out bytes of 0; a symbol has
      them all, and a swapped word of a symbol is written as an unswapped one. */
  function OperandEnds(o: Operand, syms: Symbols): seq<byte>
  {
    var v := Worth(o.ex, syms);
    if o.ex.Constant? then OperandBytes(0, o).bytes
    else
      match o.mode
      case DirectByte | DirectShl8 | IndirectWord | IndirectSwap => [v % 0x100]
      case IndirectByte => [(v - 1) % 0x100]
      case DirectWord | DirectSwap => [v / 0x100 % 0x100, v % 0x100]
  }

  /** The two bytes of the execution address under the flags in HIGH. */
  function ExecEnds(high: byte, ex: Expr, syms: Symbols): Option<seq<byte>>
  {
    var v := Worth(ex, syms);
    if v == 0 && ex.Symbolic? then Some([high / 32 * 32, 0])
    else if 0x100 <= v <= 0x1FFF then Some([high / 32 * 32 + v / 0x100, v % 0x100])
    else None
  }

  /** A whole entry: its address, its flags and its operands; None when it or its
      address is refused. */
  function EntryEnds(l: Line, syms: Symbols): Option<seq<byte>>
  {
    var h := Head(0, l).bytes;
    if BadExec(l.exec) || BadOperand(l.op1, true) || BadOperand(l.op2, false) || BadOperand(l.op3, true) then None
    else
      match ExecEnds(h[0], l.exec, syms)
      case None => None
      case Some(x) =>
        Some(x + [h[2]] + OperandEnds(l.op1, syms) + OperandEnds(l.op2, syms) + OperandEnds(l.op3, syms))
  }

  predicate NoRegisters(l: Line) { !l.op1.ex.Register? && !l.op2.ex.Register? && !l.op3.ex.Register? }

  /** The emission of one part of an entry, its fixups in order. */
  predicate Ends(e: Emission, b: Option<seq<byte>>, addr: nat, syms: Symbols)
  {
    && InOrder(e.fixes, |e.bytes|) && Finish(e.bytes, e.fixes, addr, syms) == b
    && (b.Some? ==> |b.value| == |e.bytes|)
  }

  lemma OperandEndsSo(o: Operand, addr: nat, syms: Symbols)
    requires !o.ex.Register?
    ensures Ends(OperandBytes(0, o), Some(OperandEnds(o, syms)), addr, syms)
  {
    hide Finish, InOrder;
    var e := OperandBytes(0, o);
    if o.ex.Constant? {
      NothingToDo(e.bytes, addr, syms);
    } else if o.mode in {DirectWord, DirectSwap} {
      WordSymbol(o.ex, addr, syms);
    } else {
      ByteSymbol(o.ex, e.bytes[0], addr, syms);
      SymbolByte(Worth(o.ex, syms));
    }
  }

  lemma NothingToDo(bytes: seq<byte>, addr: nat, syms: Symbols)
    ensures InOrder([], |bytes|) && Finish(bytes, [], addr, syms) == Some(bytes)
  {
  }

  lemma ByteSymbol(ex: Expr, held: byte, addr: nat, syms: Symbols)
    requires ex.Symbolic?
    ensures var fixes := [Fix(0, 1, ex, false, Byte8)];
            InOrder(fixes, 1) && Finish([held], fixes, addr, syms) == Some([Low8(held + Worth(ex, syms))])
  {
    hide Finish;
    var f := Fix(0, 1, ex, false, Byte8);
    LastFix([held], f, addr, syms);
    assert [held][0..1] == [held];
    assert Splice([held], 0, [Low8(held + Worth(ex, syms))]) == [Low8(held + Worth(ex, syms))];
  }

  lemma WordSymbol(ex: Expr, addr: nat, syms: Symbols)
    requires ex.Symbolic?
    ensures var fixes, v := [Fix(0, 2, ex, false, Word16)], Worth(ex, syms);
            InOrder(fixes, 2) && Finish([0, 0], fixes, addr, syms) == Some([High8(v), Low8(v)])
  {
    hide Finish;
    var f, v := Fix(0, 2, ex, false, Word16), Worth(ex, syms);
    var bytes: seq<byte> := [0, 0];
    LastFix(bytes, f, addr, syms);
    assert bytes[0..2] == bytes;
    assert Splice(bytes, 0, [High8(v), Low8(v)]) == [High8(v), Low8(v)];
  }

  lemma SymbolByte(v: int)
    ensures Low8(0xFF + v) == (v - 1) % 0x100
  {
    assert 0xFF + v == v - 1 + 0x100;
  }

  lemma OperandMoves(o: Operand, at: nat)
    ensures var e := OperandBytes(0, o); OperandBytes(at, o) == e.(fixes := MoveFixes(e.fixes, at))
  {
  }

  /** The head: the address takes the symbol's value, the flags stay. */
  lemma HeadEndsSo(l: Line, addr: nat, syms: Symbols)
    requires !BadExec(l.exec)
    ensures var e := Head(0, l);
            var x := ExecEnds(e.bytes[0], l.exec, syms);
            Ends(e, if x.None? then None else Some(x.value + [e.bytes[2]]), addr, syms)
  {
    var v := if l.exec.Constant? then l.exec.v else 0;
    HeadParts(l, v);
    HeadFixes(l);
    hide Head, Finish, InOrder;
    var e := Head(0, l);
    if l.exec.Constant? {
      NothingToDo(e.bytes, addr, syms);
      ConstantExec(e.bytes, v);
    } else {
      ExecFixed(e.bytes, l.exec, addr, syms);
    }
  }

  lemma HeadParts(l: Line, v: int)
    requires !BadExec(l.exec) && v == (if l.exec.Constant? then l.exec.v else 0)
    ensures var b := Head(0, l).bytes; b[0] % 32 == v / 0x100 % 32 && b[1] == Low8(v)
  {
    hide LineFlags, FlagByte, ExecHigh, Head;
    HeadIs(l, LineFlags(l).0, v);
    ExecHighBits(LineFlags(l).0, v);
  }

  lemma HeadFixes(l: Line)
    requires !BadExec(l.exec)
    ensures Head(0, l).fixes == if l.exec.Constant? then [] else [Fix(0, 2, l.exec, false, Pcode13)]
  {
    hide LineFlags, FlagByte, ExecHigh;
  }

  lemma ConstantExec(bytes: seq<byte>, v: int)
    requires |bytes| == 3 && bytes[0] % 32 == v / 0x100 % 32 && bytes[1] == Low8(v) && 0x100 <= v <= 0x1FFF
    ensures bytes[0] / 32 * 32 + v / 0x100 == bytes[0]
    ensures bytes == [bytes[0], Low8(v)] + [bytes[2]]
  {
    assert v / 0x100 % 32 == v / 0x100;
  }

  lemma ExecFixed(bytes: seq<byte>, exec: Expr, addr: nat, syms: Symbols)
    requires |bytes| == 3 && bytes[0] % 32 == 0 && bytes[1] == 0 && exec.Symbolic?
    ensures var fixes, x := [Fix(0, 2, exec, false, Pcode13)], ExecEnds(bytes[0], exec, syms);
            && InOrder(fixes, 3)
            && Finish(bytes, fixes, addr, syms) == (if x.None? then None else Some(x.value + [bytes[2]]))
            && (x.Some? ==> |x.value| == 2)
  {
    hide Finish;
    var f := Fix(0, 2, exec, false, Pcode13);
    LastFix(bytes, f, addr, syms);
    ExecDone(bytes, exec, addr, syms);
    var x := ExecEnds(bytes[0], exec, syms);
    if x.Some? { assert Splice(bytes, 0, x.value) == x.value + [bytes[2]]; }
  }

  lemma ExecDone(bytes: seq<byte>, exec: Expr, addr: nat, syms: Symbols)
    requires |bytes| == 3 && bytes[0] % 32 == 0 && bytes[1] == 0 && exec.Symbolic?
    ensures Done(Fix(0, 2, exec, false, Pcode13), bytes[0..2], addr, syms) == ExecEnds(bytes[0], exec, syms)
  {
    assert bytes[0..2] == [bytes[0], bytes[1]];
    assert bytes[0] / 32 * 32 == bytes[0];
  }

  /** Two parts one behind the other. */
  lemma EndsTogether(a: Emission, b: Emission, x: Option<seq<byte>>, y: seq<byte>, addr: nat, syms: Symbols)
    requires Ends(a, x, addr, syms) && Ends(b, Some(y), addr + |a.bytes|, syms)
    ensures Ends(Then(a, b.(fixes := MoveFixes(b.fixes, |a.bytes|))), if x.None? then None else Some(x.value + y),
                 addr, syms)
  {
    hide Finish, InOrder;
    var moved := MoveFixes(b.fixes, |a.bytes|);
    var e := Then(a, b.(fixes := moved));
    MovedInOrder(b.fixes, |b.bytes|, |a.bytes|);
    BothInOrder(a.fixes, moved, |a.bytes|, |e.bytes|);
    assert MoveFixes(a.fixes, 0) == a.fixes && [] + a.bytes + b.bytes == e.bytes;
    FinishInside([], a.bytes, b.bytes, a.fixes, moved, addr, syms);
    if x.Some? {
      var pre := x.value;
      assert [] + pre + b.bytes == pre + b.bytes + [] && moved + [] == moved;
      FinishInside(pre, b.bytes, [], b.fixes, [], addr, syms);
      assert pre + y + [] == pre + y;
      NoFixes(pre + y, addr, syms);
    }
  }

  /** An entry assembled at ADDR and linked is what its address and its operands end
      as, and is refused exactly when its line or its address is. */
  lemma EntryLinks(l: Line, addr: nat, syms: Symbols)
    requires NoRegisters(l)
    ensures var e := EmitLine(0, l);
            (if e.bad then None else Linked(e.bytes, e.fixes, addr, syms)) == EntryEnds(l, syms)
  {
    RefusedLines(0, l);
    hide EmitLine, OperandBytes, Head, Linked, Finish, InOrder, OperandEnds, ExecEnds, BadExec, BadOperand;
    var e := EmitLine(0, l);
    if !e.bad {
      EntryEndsSo(l, addr, syms);
      LinkedInOrder(e.bytes, e.fixes, addr, syms);
    }
  }

  lemma EntryEndsSo(l: Line, addr: nat, syms: Symbols)
    requires NoRegisters(l) && !EmitLine(0, l).bad
    ensures Ends(EmitLine(0, l), EntryEnds(l, syms), addr, syms)
  {
    RefusedLines(0, l);
    HeadEndsSo(l, addr, syms);
    hide OperandBytes, Head, Ends, OperandEnds, ExecEnds, BadExec, BadOperand, EmitLine;
    var h := Head(0, l);
    var x := ExecEnds(h.bytes[0], l.exec, syms);
    var x0 := if x.None? then None else Some(x.value + [h.bytes[2]]);
    var e1 := OperandBehind(h, l.op1, x0, addr, syms);
    var x1 := if x0.None? then None else Some(x0.value + OperandEnds(l.op1, syms));
    var e2 := OperandBehind(e1, l.op2, x1, addr, syms);
    var x2 := if x1.None? then None else Some(x1.value + OperandEnds(l.op2, syms));
    var e3 := OperandBehind(e2, l.op3, x2, addr, syms);
    LineIsParts(l);
  }

  lemma OperandBehind(e: Emission, o: Operand, x: Option<seq<byte>>, addr: nat, syms: Symbols) returns (r: Emission)
    requires Ends(e, x, addr, syms) && !o.ex.Register?
    ensures r == Then(e, OperandBytes(|e.bytes|, o))
    ensures Ends(r, if x.None? then None else Some(x.value + OperandEnds(o, syms)), addr, syms)
  {
    OperandMoves(o, |e.bytes|);
    OperandEndsSo(o, addr + |e.bytes|, syms);
    hide Ends, OperandBytes, OperandEnds;
    EndsTogether(e, OperandBytes(0, o), x, OperandEnds(o, syms), addr, syms);
    r := Then(e, OperandBytes(|e.bytes|, o));
  }

  lemma LineIsParts(l: Line)
    ensures var h := Head(0, l);
            var e1 := Then(h, OperandBytes(|h.bytes|, l.op1));
            var e2 := Then(e1, OperandBytes(|e1.bytes|, l.op2));
            EmitLine(0, l) == Then(e2, OperandBytes(|e2.bytes|, l.op3))
  {
    hide OperandBytes, Head;
  }

  /** A swapped word: the flags are the same for a symbol as for its value, but the
      value is stored low byte first and the symbol high byte first. */
  lemma SwappedSymbol(ex: Expr, syms: Symbols, swapable: bool)
    requires ex.Symbolic? && High8(Worth(ex, syms)) != 0 && Low8(Worth(ex, syms)) != 0
    ensures var v := Worth(ex, syms);
            var symbol, value := Operand(ex, DirectSwap), Operand(Constant(v), DirectSwap);
            && OperandFlags(symbol, swapable).0 == OperandFlags(value, swapable).0
            && OperandEnds(symbol, syms) == [High8(v), Low8(v)] && OperandEnds(value, syms) == [Low8(v), High8(v)]
            && (OperandEnds(symbol, syms) == OperandEnds(value, syms) <==> High8(v) == Low8(v))
  {
  }
}
