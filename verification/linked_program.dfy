/** A whole program of instructions in one frag: its fixups, resolved and linked
    in one run of the relocation loop, give each instruction the bytes it ends as
    at its own address. */
module LinkedProgram {
  import opened Bits
  import opened Wrappers
  import opened Relocation
  import opened OpcodeTable
  import opened GasEmit
  import opened Agreement
  import opened Codec
  import opened Framing
  import opened Stream
  import opened LinkedCode

  /** An instruction chosen: its row and what i51_build_ins () is given. */
  datatype Item = Item(row: nat, o: Operands)

  predicate Chosen(x: Item) { x.row < ROWS && RegFits(RowAt(x.row), x.o.reg) }

  predicate AllChosen(xs: seq<Item>) { forall k :: 0 <= k < |xs| ==> Chosen(xs[k]) }

  function EmitItem(at: nat, x: Item): Emission
    requires Chosen(x)
  {
    EveryShapeKnown(x.row);
    OpcodeByteIs(RowAt(x.row), x.o.reg);
    EmitIns(at, RowAt(x.row), x.o)
  }

  /** The frag from position AT on. */
  function EmitAll(at: nat, xs: seq<Item>): Emission
    requires AllChosen(xs)
    decreases |xs|
  {
    hide Chosen, EmitItem;
    if xs == [] then Emission([], [], false)
    else
      assert Chosen(xs[0]);
      var e := EmitItem(at, xs[0]);
      Then(e, EmitAll(at + |e.bytes|, xs[1..]))
  }

  /** What one instruction ends as at ADDR. */
  function EndsItem(x: Item, addr: nat, syms: Symbols): Option<seq<byte>>
    requires Chosen(x)
  {
    EveryShapeKnown(x.row);
    LinkIsEnds(RowAt(x.row), x.o, addr, syms);
    RowEnds(RowAt(x.row), x.o, addr, syms)
  }

  /** The bytes of all, each at its address; None when one is refused. */
  function EndsAll(xs: seq<Item>, addr: nat, syms: Symbols): Option<seq<byte>>
    requires AllChosen(xs)
    decreases |xs|
  {
    hide Chosen, EndsItem;
    if xs == [] then Some([])
    else
      assert Chosen(xs[0]);
      match EndsItem(xs[0], addr, syms)
      case None => None
      case Some(b) =>
        match EndsAll(xs[1..], addr + |b|, syms)
        case None => None
        case Some(rest) => Some(b + rest)
  }

  // --------------------------------------------------------- moving the fixups

  function MovedFix(f: Fix, n: nat): Fix { f.(offset := f.offset + n) }

  function MoveFixes(fixes: seq<Fix>, n: nat): (out: seq<Fix>)
    ensures |out| == |fixes|
    ensures forall i :: 0 <= i < |fixes| ==> out[i] == MovedFix(fixes[i], n)
  {
    seq(|fixes|, i requires 0 <= i < |fixes| => MovedFix(fixes[i], n))
  }

  lemma Emit8Moves(at: nat, n: nat, ex: Expr, mode: Mode, prefix: Prefix, kind: ArgKind, off: nat)
    ensures var e := Emit8(at, ex, mode, prefix, kind, off);
            Emit8(at + n, ex, mode, prefix, kind, off) == e.(fixes := MoveFixes(e.fixes, n))
  {
  }

  lemma ThenMoves(a: Emission, b: Emission, n: nat)
    ensures Then(a.(fixes := MoveFixes(a.fixes, n)), b.(fixes := MoveFixes(b.fixes, n)))
         == Then(a, b).(fixes := MoveFixes(Then(a, b).fixes, n))
  {
  }

  /** Two emissions one behind the other, at AT and moved on. */
  lemma BothMove(a: Emission, b: Emission, c: Emission, d: Emission, n: nat)
    requires c == a.(fixes := MoveFixes(a.fixes, n)) && d == b.(fixes := MoveFixes(b.fixes, n))
    ensures Then(c, d) == Then(a, b).(fixes := MoveFixes(Then(a, b).fixes, n))
  {
    ThenMoves(a, b, n);
  }

  lemma OpcodeMoves(op: byte, a: Emission, c: Emission, n: nat)
    requires c == a.(fixes := MoveFixes(a.fixes, n))
    ensures var e := Then(Emission([op], [], false), a);
            Then(Emission([op], [], false), c) == e.(fixes := MoveFixes(e.fixes, n))
  {
    var o := Emission([op], [], false);
    assert MoveFixes(o.fixes, n) == [];
    BothMove(o, a, o, c, n);
  }

  lemma TwoMove(op: byte, at: nat, ex: Expr, mode: Mode, prefix: Prefix, kind: ArgKind,
                ex': Expr, mode': Mode, prefix': Prefix, kind': ArgKind, off: nat)
    ensures var e := Then(Emission([op], [], false),
                          Then(Emit8(1, ex, mode, prefix, kind, off), Emit8(2, ex', mode', prefix', kind', off)));
            Then(Emission([op], [], false),
                 Then(Emit8(at + 1, ex, mode, prefix, kind, off), Emit8(at + 2, ex', mode', prefix', kind', off)))
            == e.(fixes := MoveFixes(e.fixes, at))
  {
    var a, b := Emit8(1, ex, mode, prefix, kind, off), Emit8(2, ex', mode', prefix', kind', off);
    var c, d := Emit8(at + 1, ex, mode, prefix, kind, off), Emit8(at + 2, ex', mode', prefix', kind', off);
    Emit8Moves(1, at, ex, mode, prefix, kind, off);
    Emit8Moves(2, at, ex', mode', prefix', kind', off);
    hide Emit8, Then, MoveFixes;
    BothMove(a, b, c, d, at);
    OpcodeMoves(op, Then(a, b), Then(c, d), at);
  }

  lemma OneMoves(op: byte, at: nat, ex: Expr, mode: Mode, prefix: Prefix, kind: ArgKind, off: nat)
    ensures var e := Then(Emission([op], [], false), Emit8(1, ex, mode, prefix, kind, off));
            Then(Emission([op], [], false), Emit8(at + 1, ex, mode, prefix, kind, off))
            == e.(fixes := MoveFixes(e.fixes, at))
  {
    Emit8Moves(1, at, ex, mode, prefix, kind, off);
    hide Emit8, Then, MoveFixes;
    OpcodeMoves(op, Emit8(1, ex, mode, prefix, kind, off), Emit8(at + 1, ex, mode, prefix, kind, off), at);
  }

  lemma WordMoves(op: byte, at: nat, ex: Expr)
    ensures var e := Then(Emission([op], [], false), Emit16(1, ex));
            Then(Emission([op], [], false), Emit16(at + 1, ex)) == e.(fixes := MoveFixes(e.fixes, at))
    ensures var e := Emit11(0, ex, op); Emit11(at, ex, op) == e.(fixes := MoveFixes(e.fixes, at))
    ensures MoveFixes([], at) == []
  {
    OpcodeMoves(op, Emit16(1, ex), Emit16(at + 1, ex), at);
  }

  /** An instruction is emitted alike anywhere. */
  lemma EmitMoves(at: nat, row: Row, o: Operands)
    requires OpcodeByte(row, o.reg) < 0x100
    ensures var e := EmitIns(0, row, o);
            EmitIns(at, row, o) == e.(fixes := MoveFixes(e.fixes, at))
  {
    hide Emit8, Emit11, Emit16, Then, OpcodeByte, Kinds, MoveFixes, PrefixRefused;
    var op := OpcodeByte(row, o.reg);
    var off := o.b2bOffset;
    var (k1, k2) := Kinds(row);
    WordMoves(op, at, o.ex1);
    if row.mreloc in {'D', 'i', 'r'} {
      OneMoves(op, at, o.ex1, ModeImm8, o.prefix1, k1, off);
    } else if row.mreloc in {'7', 'W'} {
      OneMoves(op, at, o.ex1, ModeRel, NoPrefix, NoKind, off);
    } else if row.mreloc == 'B' {
      OneMoves(op, at, o.ex1, ModeBit, o.prefix1, NoKind, off);
    } else if row.mreloc == 'd' {
      TwoMove(op, at, o.ex2, ModeImm8, o.prefix2, k2, o.ex1, ModeImm8, o.prefix1, k1, off);
    } else if row.mreloc == 'a' {
      TwoMove(op, at, o.ex1, ModeImm8, o.prefix1, k1, o.ex2, ModeImm8, o.prefix2, k2, off);
    } else if row.mreloc == 'J' {
      TwoMove(op, at, o.ex1, ModeBit, o.prefix1, NoKind, o.ex2, ModeRel, NoPrefix, NoKind, off);
    } else if row.mreloc in {'X', 'Y', 'Z'} {
      TwoMove(op, at, o.ex1, ModeImm8, o.prefix1, k1, o.ex2, ModeRel, NoPrefix, NoKind, off);
    }
  }

  // ------------------------------------------------------ one behind the other

  lemma DoneMoves(f: Fix, held: seq<byte>, n: nat, addr: nat, syms: Symbols)
    requires |held| == Width(f.kind)
    ensures Done(MovedFix(f, n), held, addr, syms) == Done(f, held, addr + n, syms)
  {
  }

  lemma SpliceInside(pre: seq<byte>, bytes: seq<byte>, post: seq<byte>, at: nat, b: seq<byte>)
    requires at + |b| <= |bytes|
    ensures var all := pre + bytes + post;
            && all[|pre| + at..|pre| + at + |b|] == bytes[at..at + |b|]
            && Splice(all, |pre| + at, b) == pre + Splice(bytes, at, b) + post
  {
  }

  /** One step of Finish. */
  lemma FinishStep(bytes: seq<byte>, fixes: seq<Fix>, addr: nat, syms: Symbols)
    requires fixes != [] && InOrder(fixes, |bytes|)
    ensures var f := fixes[0];
            && f.offset + Width(f.kind) <= |bytes| && InOrder(fixes[1..], |bytes|)
            && var d := Done(f, bytes[f.offset..f.offset + Width(f.kind)], addr, syms);
               Finish(bytes, fixes, addr, syms)
               == if d.None? then None else Finish(Splice(bytes, f.offset, d.value), fixes[1..], addr, syms)
  {
    hide Done, Splice, Width;
    assert InBytes(fixes[0], |bytes|);
  }

  lemma TailInOrder(fixes: seq<Fix>, more: seq<Fix>, n: nat)
    requires InOrder(fixes + more, n)
    ensures InOrder(more, n)
  {
    hide InBytes, Width;
    forall i | 0 <= i < |more| ensures more[i] == (fixes + more)[|fixes| + i] {}
  }

  /** Fixups within the middle bytes are done as if those stood alone. */
  lemma {:induction false} FinishInside(pre: seq<byte>, bytes: seq<byte>, post: seq<byte>, fixes: seq<Fix>,
                                        more: seq<Fix>, addr: nat, syms: Symbols)
    requires InOrder(fixes, |bytes|)
    requires InOrder(MoveFixes(fixes, |pre|) + more, |pre + bytes + post|)
    ensures InOrder(more, |pre + bytes + post|)
    ensures var r := Finish(bytes, fixes, addr + |pre|, syms);
            && (r.Some? ==> |r.value| == |bytes|)
            && Finish(pre + bytes + post, MoveFixes(fixes, |pre|) + more, addr, syms)
               == if r.None? then None else Finish(pre + r.value + post, more, addr, syms)
    decreases |fixes|
  {
    hide Done, Width, Splice, Finish, InOrder;
    var moved := MoveFixes(fixes, |pre|);
    TailInOrder(moved, more, |pre + bytes + post|);
    if fixes == [] {
      assert moved + more == more;
      NoFixes(bytes, addr + |pre|, syms);
    } else {
      var f, rest := fixes[0], fixes[1..];
      FinishStep(bytes, fixes, addr + |pre|, syms);
      FinishStep(pre + bytes + post, moved + more, addr, syms);
      assert (moved + more)[0] == MovedFix(f, |pre|);
      assert (moved + more)[1..] == MoveFixes(rest, |pre|) + more;
      var held := bytes[f.offset..f.offset + Width(f.kind)];
      SpliceInside(pre, bytes, post, f.offset, held);
      DoneMoves(f, held, |pre|, addr, syms);
      var d := Done(f, held, addr + |pre|, syms);
      if d.Some? {
        SpliceInside(pre, bytes, post, f.offset, d.value);
        FinishInside(pre, Splice(bytes, f.offset, d.value), post, rest, more, addr, syms);
      }
    }
  }

  // --------------------------------------------------------------- the program

  lemma EightInOrder(at: nat, ex: Expr, mode: Mode, prefix: Prefix, kind: ArgKind, off: nat)
    ensures var e := Emit8(at, ex, mode, prefix, kind, off);
            |e.bytes| == 1 && InOrder(e.fixes, at + 1) && forall f :: f in e.fixes ==> at <= f.offset
  {
  }

  lemma BothInOrder(a: seq<Fix>, b: seq<Fix>, at: nat, n: nat)
    requires InOrder(a, at) && InOrder(b, n) && at <= n && forall f :: f in b ==> at <= f.offset
    ensures InOrder(a + b, n)
  {
    hide Width;
    forall i | 0 <= i < |a| ensures InBytes(a[i], at) && (a + b)[i] == a[i] {}
    forall i | 0 <= i < |b| ensures at <= b[i].offset && (a + b)[|a| + i] == b[i] { assert b[i] in b; }
  }

  lemma TwoInOrder(op: byte, ex: Expr, mode: Mode, prefix: Prefix, kind: ArgKind,
                   ex': Expr, mode': Mode, prefix': Prefix, kind': ArgKind, off: nat)
    ensures var e := Then(Emission([op], [], false),
                          Then(Emit8(1, ex, mode, prefix, kind, off), Emit8(2, ex', mode', prefix', kind', off)));
            |e.bytes| == 3 && InOrder(e.fixes, 3)
  {
    EightInOrder(1, ex, mode, prefix, kind, off);
    EightInOrder(2, ex', mode', prefix', kind', off);
    hide Emit8, InOrder;
    var a, b := Emit8(1, ex, mode, prefix, kind, off).fixes, Emit8(2, ex', mode', prefix', kind', off).fixes;
    BothInOrder(a, b, 2, 3);
    assert [] + (a + b) == a + b;
  }

  lemma OneInOrder(op: byte, ex: Expr, mode: Mode, prefix: Prefix, kind: ArgKind, off: nat)
    ensures var e := Then(Emission([op], [], false), Emit8(1, ex, mode, prefix, kind, off));
            |e.bytes| == 2 && InOrder(e.fixes, 2)
  {
    EightInOrder(1, ex, mode, prefix, kind, off);
    hide Emit8, InOrder;
    var a := Emit8(1, ex, mode, prefix, kind, off).fixes;
    assert [] + a == a;
  }

  lemma RowInOrder(row: Row, o: Operands)
    requires OpcodeByte(row, o.reg) < 0x100 && ShapeKnown(row)
    ensures var e := EmitIns(0, row, o); !e.bad ==> e.bytes != [] && InOrder(e.fixes, |e.bytes|)
  {
    var op := OpcodeByte(row, o.reg);
    var off := o.b2bOffset;
    var (k1, k2) := Kinds(row);
    WordInOrder(op, o.ex1);
    hide Emit8, Emit11, Emit16, OpcodeByte, Kinds, InOrder, PrefixRefused, MaskKnown, Then;
    if row.mreloc in {'D', 'r'} {
      OneInOrder(op, o.ex1, ModeImm8, o.prefix1, k1, off);
    } else if row.mreloc in {'7', 'W'} {
      OneInOrder(op, o.ex1, ModeRel, NoPrefix, NoKind, off);
    } else if row.mreloc == 'B' {
      OneInOrder(op, o.ex1, ModeBit, o.prefix1, NoKind, off);
    } else if row.mreloc == 'd' {
      TwoInOrder(op, o.ex2, ModeImm8, o.prefix2, k2, o.ex1, ModeImm8, o.prefix1, k1, off);
    } else if row.mreloc == 'a' {
      TwoInOrder(op, o.ex1, ModeImm8, o.prefix1, k1, o.ex2, ModeImm8, o.prefix2, k2, off);
    } else if row.mreloc == 'J' {
      TwoInOrder(op, o.ex1, ModeBit, o.prefix1, NoKind, o.ex2, ModeRel, NoPrefix, NoKind, off);
    } else if row.mreloc in {'X', 'Y', 'Z'} {
      TwoInOrder(op, o.ex1, ModeImm8, o.prefix1, k1, o.ex2, ModeRel, NoPrefix, NoKind, off);
    }
  }

  lemma WordInOrder(op: byte, ex: Expr)
    ensures var e := Then(Emission([op], [], false), Emit16(1, ex)); |e.bytes| == 3 && InOrder(e.fixes, 3)
    ensures var e := Emit11(0, ex, op); |e.bytes| == 2 && InOrder(e.fixes, 2)
    ensures InOrder([], 1)
  {
  }

  /** The fixups of a frag lie behind one another and inside it. */
  lemma {:induction false} AllInOrder(at: nat, xs: seq<Item>)
    requires AllChosen(xs)
    ensures var e := EmitAll(at, xs);
            !e.bad ==> InOrder(e.fixes, at + |e.bytes|) && forall f :: f in e.fixes ==> at <= f.offset
    decreases |xs|
  {
    hide Chosen, InOrder, EmitItem;
    if xs == [] {
      NothingInOrder(at);
    } else if !EmitAll(at, xs).bad {
      assert Chosen(xs[0]);
      var one := EmitItem(at, xs[0]);
      var next := at + |one.bytes|;
      ItemInOrder(at, xs[0]);
      AllInOrder(next, xs[1..]);
      ThenInOrder(at, one, EmitAll(next, xs[1..]));
    }
  }

  lemma ThenInOrder(at: nat, a: Emission, b: Emission)
    requires InOrder(a.fixes, at + |a.bytes|) && InOrder(b.fixes, at + |a.bytes| + |b.bytes|)
    requires forall f :: f in a.fixes ==> at <= f.offset
    requires forall f :: f in b.fixes ==> at + |a.bytes| <= f.offset
    ensures InOrder(Then(a, b).fixes, at + |Then(a, b).bytes|)
    ensures forall f :: f in Then(a, b).fixes ==> at <= f.offset
  {
    hide InOrder;
    BothInOrder(a.fixes, b.fixes, at + |a.bytes|, at + |a.bytes| + |b.bytes|);
  }

  lemma NothingInOrder(n: nat)
    ensures InOrder([], n)
  {
  }

  lemma ItemInOrder(at: nat, x: Item)
    requires Chosen(x)
    ensures var e := EmitItem(at, x);
            !e.bad ==> InOrder(e.fixes, at + |e.bytes|) && forall f :: f in e.fixes ==> at <= f.offset
  {
    var row := RowAt(x.row);
    EveryShapeKnown(x.row);
    OpcodeByteIs(row, x.o.reg);
    RowInOrder(row, x.o);
    EmitMoves(at, row, x.o);
    hide EmitIns, RowAt, OpcodeByte, ShapeKnown;
    var e := EmitIns(0, row, x.o);
    if !e.bad { MovedInOrder(e.fixes, |e.bytes|, at); }
  }

  lemma MovedInOrder(fixes: seq<Fix>, n: nat, at: nat)
    requires InOrder(fixes, n)
    ensures InOrder(MoveFixes(fixes, at), at + n)
    ensures forall f :: f in MoveFixes(fixes, at) ==> at <= f.offset
  {
    hide Width;
    forall i | 0 <= i < |fixes|
      ensures InBytes(MovedFix(fixes[i], at), at + n)
    {
      assert InBytes(fixes[i], n);
    }
  }

  /** One instruction at the front: its own fixups give what it ends as. */
  lemma ItemDone(x: Item, addr: nat, syms: Symbols)
    requires Chosen(x)
    ensures var e := EmitItem(0, x);
            if e.bad then EndsItem(x, addr, syms).None?
            else InOrder(e.fixes, |e.bytes|) && Finish(e.bytes, e.fixes, addr, syms) == EndsItem(x, addr, syms)
  {
    var row := RowAt(x.row);
    EveryShapeKnown(x.row);
    OpcodeByteIs(row, x.o.reg);
    LinkIsEnds(row, x.o, addr, syms);
    ItemInOrder(0, x);
    hide EmitIns, RowAt, OpcodeByte, ShapeKnown, RowEnds, Linked, Finish;
    var e := EmitIns(0, row, x.o);
    if !e.bad { LinkedInOrder(e.bytes, e.fixes, addr, syms); }
  }

  lemma ItemMoves(at: nat, x: Item)
    requires Chosen(x)
    ensures var e := EmitItem(0, x); EmitItem(at, x) == e.(fixes := MoveFixes(e.fixes, at))
  {
    hide EmitIns, RowAt, OpcodeByte;
    EveryShapeKnown(x.row);
    OpcodeByteIs(RowAt(x.row), x.o.reg);
    EmitMoves(at, RowAt(x.row), x.o);
  }

  /** The frag behind the bytes PRE. */
  lemma {:induction false} ProgramDone(pre: seq<byte>, xs: seq<Item>, addr: nat, syms: Symbols)
    requires AllChosen(xs)
    ensures var e, r := EmitAll(|pre|, xs), EndsAll(xs, addr + |pre|, syms);
            if e.bad then r.None?
            else
              && InOrder(e.fixes, |pre + e.bytes|)
              && Finish(pre + e.bytes, e.fixes, addr, syms) == (if r.None? then None else Some(pre + r.value))
    decreases |xs|
  {
    hide Chosen, EmitItem, EndsItem, InOrder, Finish;
    AllInOrder(|pre|, xs);
    var e := EmitAll(|pre|, xs);
    if xs == [] {
      assert pre + [] == pre;
      NoFixes(pre, addr, syms);
    } else {
      var x := xs[0];
      assert Chosen(x);
      ItemMoves(|pre|, x);
      ItemDone(x, addr + |pre|, syms);
      var one := EmitItem(0, x);
      var rest := EmitAll(|pre| + |one.bytes|, xs[1..]);
      if !one.bad {
        var b := EndsItem(x, addr + |pre|, syms);
        if rest.bad {
          if b.Some? { ItemLength(x, addr + |pre|, syms); ProgramDone(pre + b.value, xs[1..], addr, syms); }
        } else {
          assert pre + e.bytes == pre + one.bytes + rest.bytes;
          FinishInside(pre, one.bytes, rest.bytes, one.fixes, rest.fixes, addr, syms);
          if b.Some? {
            ProgramDone(pre + b.value, xs[1..], addr, syms);
            BehindFirst(pre, b.value, EndsAll(xs[1..], addr + |pre| + |b.value|, syms));
          }
        }
      }
    }
  }

  lemma BehindFirst(pre: seq<byte>, b: seq<byte>, r: Option<seq<byte>>)
    ensures r.Some? ==> (pre + b) + r.value == pre + (b + r.value)
  {
  }

  lemma ItemLength(x: Item, addr: nat, syms: Symbols)
    requires Chosen(x) && !EmitItem(0, x).bad && EndsItem(x, addr, syms).Some?
    ensures |EndsItem(x, addr, syms).value| == |EmitItem(0, x).bytes|
  {
    hide EmitItem, EndsItem, Finish;
    ItemDone(x, addr, syms);
    var e := EmitItem(0, x);
    assert MoveFixes(e.fixes, 0) == e.fixes && [] + e.bytes + [] == e.bytes && e.fixes + [] == e.fixes;
    FinishInside([], e.bytes, [], e.fixes, [], addr, syms);
  }

  /** A program assembled into one frag at ADDR and linked in one run of the loop
      is the sequence of what its instructions end as, each at its own address; it
      is refused exactly when one of them is. */
  lemma ProgramLinks(xs: seq<Item>, addr: nat, syms: Symbols)
    requires AllChosen(xs)
    ensures var e := EmitAll(0, xs);
            (if e.bad then None else Linked(e.bytes, e.fixes, addr, syms)) == EndsAll(xs, addr, syms)
  {
    hide AllChosen, EmitAll, EndsAll, Linked, Finish, InOrder;
    ProgramDone([], xs, addr, syms);
    var e := EmitAll(0, xs);
    assert [] + e.bytes == e.bytes;
    if !e.bad {
      LinkedInOrder(e.bytes, e.fixes, addr, syms);
      var r := EndsAll(xs, addr, syms);
      assert r.Some? ==> [] + r.value == r.value;
    }
  }

  /** The instruction of the values an item's expressions are worth. */
  function InsnOf(x: Item, syms: Symbols): Insn
  {
    Insn(x.row, x.o.reg, Worth(x.o.ex1, syms), Worth(x.o.ex2, syms))
  }

  function InsnsOf(xs: seq<Item>, syms: Symbols): (ys: seq<Insn>)
    ensures |ys| == |xs|
  {
    if xs == [] then [] else [InsnOf(xs[0], syms)] + InsnsOf(xs[1..], syms)
  }

  predicate Unprefixed(x: Item) { x.o.prefix1 == x.o.prefix2 == NoPrefix && x.o.b2bOffset == 0 }

  lemma ItemIsEncoded(x: Item, addr: nat, syms: Symbols)
    requires Chosen(x) && Unprefixed(x)
    ensures var a, b := EndsItem(x, addr, syms), Encode(InsnOf(x, syms), addr);
            a.Some? && b.Some? ==> a == b
  {
    var row := RowAt(x.row);
    EveryShapeKnown(x.row);
    LinkIsEnds(row, x.o, addr, syms);
    assert x.o == Operands(x.o.reg, x.o.ex1, x.o.ex2, NoPrefix, NoPrefix, 0);
    hide LinkRow, RowEnds, EncodeRow, OpcodeByte, ShapeKnown, RowAt;
    LinkedIsEncoded(row, x.row, x.o.reg, x.o.ex1, x.o.ex2, addr, syms);
  }

  lemma {:induction false} ProgramIsEncoded(xs: seq<Item>, addr: nat, syms: Symbols)
    requires AllChosen(xs) && forall k :: 0 <= k < |xs| ==> Unprefixed(xs[k])
    ensures var a, b := EndsAll(xs, addr, syms), Assemble(InsnsOf(xs, syms), addr);
            a.Some? && b.Some? ==> a == b
  {
    hide Chosen, Unprefixed, EndsItem, Encode;
    if xs != [] {
      assert Chosen(xs[0]) && Unprefixed(xs[0]);
      ItemIsEncoded(xs[0], addr, syms);
      var ys := InsnsOf(xs, syms);
      assert ys[0] == InsnOf(xs[0], syms) && ys[1..] == InsnsOf(xs[1..], syms);
      var b := Encode(ys[0], addr);
      if b.Some? { ProgramIsEncoded(xs[1..], addr + |b.value|, syms); }
    }
  }

  /** The linked program of symbols disassembles to the instructions of their values,
      wherever those assemble. */
  lemma ProgramPrints(xs: seq<Item>, addr: nat, syms: Symbols)
    requires AllChosen(xs) && forall k :: 0 <= k < |xs| ==> Unprefixed(xs[k])
    ensures var e := EmitAll(0, xs);
            var ys := InsnsOf(xs, syms);
            !e.bad && Linked(e.bytes, e.fixes, addr, syms).Some? && Assemble(ys, addr).Some? ==>
              Sweep(Linked(e.bytes, e.fixes, addr, syms).value, addr) == Some(MapSeq(Known, ys))
  {
    hide AllChosen, Unprefixed, EmitAll, EndsAll, Linked, Assemble, Sweep;
    ProgramLinks(xs, addr, syms);
    ProgramIsEncoded(xs, addr, syms);
    SweepAfterAssemble(InsnsOf(xs, syms), addr);
  }
}
