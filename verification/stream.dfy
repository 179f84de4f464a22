/** Round trips over whole code streams. */
module Stream {
  import opened Bits
  import opened Wrappers
  import opened Framing
  import opened OpcodeTable
  import opened GasEmit
  import opened Disassembler
  import opened Codec

  /** One instruction assembled at ADDR; None when gas refuses it. */
  function Encode(x: Insn, addr: nat): Option<seq<byte>>
  {
    if x.row < ROWS && RegFits(RowAt(x.row), x.reg) && OpcodeByte(RowAt(x.row), x.reg) < 0x100
    then EncodeRow(RowAt(x.row), x, addr)
    else None
  }

  /** The instruction at the head of MEM and its length; None at a byte no row
      carries and at a truncated tail. */
  function Disassemble(mem: seq<byte>, addr: nat): Option<(Insn, nat)>
  {
    match Decode(mem, addr)
    case Some(Decoded(i, o1, o2, o3, c, n)) => Some((ReadBack(Decoded(i, o1, o2, o3, c, n)), n))
    case _ => None
  }

  /** X as the disassembler can know it. */
  function Known(x: Insn): Insn
  {
    if x.row < ROWS then Canonical(RowAt(x.row), x) else x
  }

  /** A branch at the head of MEM does not wrap past 0..0xFFFF. */
  predicate HeadStays(mem: seq<byte>, addr: nat)
  {
    mem != [] && RowOf(mem[0]).Some? && RowOf(mem[0]).value < ROWS
    && var row := RowAt(RowOf(mem[0]).value);
       0 < row.Length() <= |mem| && StaysInside(row, mem, addr)
  }

  function Assemble(xs: seq<Insn>, addr: nat): Option<seq<byte>> { WriteAll(Encode, xs, addr) }

  function Sweep(mem: seq<byte>, addr: nat): Option<seq<Insn>> { ReadAll(Disassemble, mem, addr) }

  predicate NoWrap(mem: seq<byte>, addr: nat) { AllOk(Disassemble, HeadStays, mem, addr) }

  lemma DecodeOne(x: Insn, addr: nat, tail: seq<byte>)
    requires Encode(x, addr).Some?
    ensures var b := Encode(x, addr).value;
            b != [] && Disassemble(b + tail, addr) == Some((Known(x), |b|))
  {
    var row := RowAt(x.row);
    var b := Encode(x, addr).value;
    EveryShapeKnown(x.row);
    DecodeAfterEncode(row, x, addr, tail);
    CarriedByOneRow(x.row, b[0]);
    assert (b + tail)[0] == b[0];
  }

  lemma EncodeOne(mem: seq<byte>, addr: nat)
    ensures match Disassemble(mem, addr)
            case None => true
            case Some((x, n)) =>
              0 < n <= |mem| && Encode(x, addr) == if HeadStays(mem, addr) then Some(mem[..n]) else None
  {
    if Disassemble(mem, addr).Some? {
      var (x, n) := Disassemble(mem, addr).value;
      var i := RowOf(mem[0]).value;
      if mem[0] != 0xA5 { RowOfCarries(mem[0]); }
      EveryShapeKnown(i);
      EncodeAfterDecode(i, RowAt(i), mem, addr, x);
    }
  }

  /** Assembling any list gas accepts and sweeping the bytes gives the list
      back, each instruction as the disassembler can know it. */
  lemma SweepAfterAssemble(xs: seq<Insn>, addr: nat)
    ensures Assemble(xs, addr).Some? ==> Sweep(Assemble(xs, addr).value, addr) == Some(MapSeq(Known, xs))
  {
    hide Encode, Disassemble, Known;
    forall x: Insn, a: nat, tail: seq<byte>
      ensures ReadsItem(Encode, Disassemble, Known, x, a, tail)
    {
      if Encode(x, a).Some? { DecodeOne(x, a, tail); }
    }
    if Assemble(xs, addr).Some? { ReadAllAfterWriteAll(Encode, Disassemble, Known, xs, addr); }
  }

  /** Sweeping bytes to their end and assembling the list gives the bytes back
      exactly when no branch wraps; when one does, gas refuses the list. */
  lemma AssembleAfterSweep(mem: seq<byte>, addr: nat)
    ensures Sweep(mem, addr).Some? ==>
              Assemble(Sweep(mem, addr).value, addr) == if NoWrap(mem, addr) then Some(mem) else None
  {
    hide Encode, Disassemble, HeadStays;
    forall m: seq<byte>, a: nat
      ensures WritesItem(Encode, Disassemble, HeadStays, m, a)
    {
      EncodeOne(m, a);
    }
    if Sweep(mem, addr).Some? { WriteAllAfterReadAll(Encode, Disassemble, HeadStays, mem, addr); }
  }

  /** `sjmp' backwards out of address 0 is such a branch: its two bytes sweep, and
      gas refuses what they print as. */
  lemma BackwardBranchWraps()
    ensures var mem: seq<byte> := [0x80, 0xFD];
            && Sweep(mem, 0).Some? && !NoWrap(mem, 0)
            && Assemble(Sweep(mem, 0).value, 0).None?
  {
    hide Disassemble, HeadStays, Encode;
    var mem: seq<byte> := [0x80, 0xFD];
    BackwardBranchReads();
    assert mem[2..] == [];
    AssembleAfterSweep(mem, 0);
  }

  lemma BackwardBranchReads()
    ensures var mem: seq<byte> := [0x80, 0xFD];
            Disassemble(mem, 0).Some? && Disassemble(mem, 0).value.1 == 2 && !HeadStays(mem, 0)
  {
    hide RowOf, RowAt, ReadBack;
    SjmpRow();
    var mem: seq<byte> := [0x80, 0xFD];
    var row := RowAt(95);
    assert ReadOperand('J', 'J', mem, 0, Step(1, 0, None, Nothing)).Some?;
  }

  lemma SjmpRow()
    ensures RowOf(0x80) == Some(95)
    ensures var row := RowAt(95); row.a0 == 'J' && row.a1 == row.a2 == 'N' && row.Length() == 2 && row.mreloc == '7'
  {
  }

  /** Well-formed instructions come back as they were written. */
  lemma SweepReturnsList(xs: seq<Insn>, addr: nat)
    requires Assemble(xs, addr).Some?
    requires forall x :: x in xs ==> Known(x) == x
    ensures Sweep(Assemble(xs, addr).value, addr) == Some(xs)
  {
    SweepAfterAssemble(xs, addr);
    assert MapSeq(Known, xs) == xs;
  }
}
