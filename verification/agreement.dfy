/** The same arithmetic written several times: where the assembler's constants,
    the assembler's fixups and the linker's relocations agree, and exactly
    where they do not. */
module Agreement {
  import opened Bits
  import opened Wrappers
  import opened Relocation
  import opened GasEmit
  import opened Disassembler

  // ------------------------------------------------- fixups and relocations

  /** The values gas resolves and the linker refuses, over a field that holds HELD. */
  predicate GasOnly(kind: Kind, v: int, held: seq<byte>)
    requires |held| == Width(kind)
  {
    || (kind == Dir8 && -256 <= v <= 255 && (v < 0 || v + held[0] > 255))
    || (kind == Imm8 && -256 <= v < -128)
    || (kind == Pcode13 && v > 0x1FFF)
  }

  /** The values the linker takes and gas refuses. */
  predicate LinkerOnly(kind: Kind, v: int, held: seq<byte>)
    requires |held| == Width(kind)
  {
    || (kind in {Byte8, Bit8} && !(-256 <= v <= 255))
    || (kind == Dir8 && !(-256 <= v <= 255) && v % 0x10000 + held[0] <= 255)
    || (kind == High && !(-65536 <= v <= 65535))
    || (kind in {B2b, Pcode13} && v == 0)
  }

  /** For an operand V in the field HELD at PLACE the two lists are all that
      separates what they accept; and where both accept they write the same
      bytes, except that the linker adds a byte operand to what the field
      holds: those agree exactly over a field of 0. */
  lemma GasAndLinkerAgree(kind: Kind, v: int, place: int, held: seq<byte>)
    requires kind !in {None_, R1, R3, Pcrel7} && |held| == Width(kind)
    ensures var g, l := GasPatch(kind, v, place, held), LinkPatch(kind, v, place, held);
            && (g.ok && l.status.Ok? ==> (g.bytes == l.bytes <==> (Adds(kind) ==> held[0] == 0)))
            && (g.ok && !l.status.Ok? <==> GasOnly(kind, v, held))
            && (!g.ok && l.status.Ok? <==> LinkerOnly(kind, v, held))
  {
    hide GasPatch, LinkPatch, GasOnly, LinkerOnly;
    if Adds(kind) { AddedBytesAgree(kind, v, place, held); } else { OtherFieldsAgree(kind, v, place, held); }
  }

  lemma OtherFieldsAgree(kind: Kind, v: int, place: int, held: seq<byte>)
    requires kind in {Abs11, Word16, B2b, Pcode13} && |held| == Width(kind)
    ensures var g, l := GasPatch(kind, v, place, held), LinkPatch(kind, v, place, held);
            && (g.ok && l.status.Ok? ==> g.bytes == l.bytes)
            && (g.ok && !l.status.Ok? <==> GasOnly(kind, v, held))
            && (!g.ok && l.status.Ok? <==> LinkerOnly(kind, v, held))
  {
    if kind == Pcode13 && 0x100 <= v <= 0x1FFF {
      assert v / 0x100 % 32 == v / 0x100;
    }
  }

  lemma AddedBytesAgree(kind: Kind, v: int, place: int, held: seq<byte>)
    requires Adds(kind) && |held| == Width(kind)
    ensures var g, l := GasPatch(kind, v, place, held), LinkPatch(kind, v, place, held);
            && (g.ok && l.status.Ok? ==> (g.bytes == l.bytes <==> held[0] == 0))
            && (g.ok && !l.status.Ok? <==> GasOnly(kind, v, held))
            && (!g.ok && l.status.Ok? <==> LinkerOnly(kind, v, held))
  {
    HeldShows(v, held[0]);
    HeldShows(v / 0x100, held[0]);
    hide Low8;
  }

  /** Adding what a byte holds shows in the byte. */
  lemma HeldShows(v: int, b: byte)
    ensures Low8(b + v) == Low8(v) <==> b == 0
  {
    var q := v / 0x100;
    assert v == q * 0x100 + v % 0x100;
    if v % 0x100 + b < 0x100 {
      assert (b + v) % 0x100 == v % 0x100 + b;
    } else {
      assert b + v == (q + 1) * 0x100 + (v % 0x100 + b - 0x100);
    }
  }

  // ------------------------------------------------------ relative branches

  /** md_pcrel_from_section (): the address after the field for a symbol defined
      in the section being assembled, 0 otherwise. */
  function PcrelFrom(definedHere: bool, place: int): int
  {
    if definedHere then place + 1 else 0
  }

  /** The addend tc_gen_reloc () writes for a fixup of offset OFF. */
  function GenAddend(off: int, pcrel: bool): int { if pcrel then off - 1 else off }

  /** A branch to T whose displacement byte is at PLACE, the last of the LENGTH
      bytes of its instruction: gas, resolving it, and the linker, given symbol
      SYM and offset OFF with T = SYM + OFF, accept the same targets, exactly
      those -128..127 from the next instruction, and write the same byte. */
  lemma RelativeBranch(t: int, sym: int, off: int, place: nat, held: seq<byte>)
    requires t == sym + off && |held| == 1
    ensures var g := GasPatch(Pcrel7, t - PcrelFrom(true, place), place, held);
            var l := LinkPatch(Pcrel7, sym + GenAddend(off, true), place, held);
            && (g.ok <==> -128 <= t - (place + 1) <= 127)
            && (l.status.Ok? <==> g.ok)
            && (g.ok ==> g.bytes == l.bytes && SignExtend(g.bytes[0]) == t - (place + 1))
  {
    var d := t - (place + 1);
    if -128 <= d <= 127 { assert SignExtend(Low8(d)) == d; }
  }

  /** From that byte the disassembler prints T twice: as a displacement from the
      start of the instruction, and as an address modulo 2^16. */
  lemma BranchPrintsTarget(t: int, start: nat, mem: seq<byte>, offset: nat, comment: Option<int>, op: Operand)
    requires |mem| == offset + 2
    requires -128 <= t - (start + |mem|) <= 127
    requires [mem[|mem| - 1]] == GasPatch(Pcrel7, t - PcrelFrom(true, start + |mem| - 1), start + |mem| - 1, [0]).bytes
    ensures ReadOperand('J', 'J', mem, start, Step(|mem| - 1, offset, comment, op))
            == Some(Step(|mem|, offset, Some(t % 0x10000), Rel(t - start)))
  {
    RelativeBranch(t, t, 0, start + |mem| - 1, [0]);
  }

  // --------------------------------------------------------- in-page jumps

  /** ACALL/AJMP at PLACE: gas and the linker accept exactly the targets whose
      A15..A11 are those of PLACE + 2, write the same two bytes, keep the low
      five opcode bits, and the disassembler reads the target back. */
  lemma InpageJump(t: int, place: nat, held: seq<byte>)
    requires |held| == 2
    ensures var g, l := GasPatch(Abs11, t, place, held), LinkPatch(Abs11, t, place, held);
            && (g.ok <==> Page(t) == Page(place + 2))
            && (l.status.Ok? <==> g.ok)
            && (g.ok ==>
                  && g.bytes == l.bytes
                  && g.bytes[0] % 32 == held[0] % 32
                  && InpageTarget(place + 2, g.bytes[0], g.bytes[1]) == t % 0x10000)
  {
    if Page(t) == Page(place + 2) { InpageBack(t, place + 2, held[0]); }
  }

  /** The split address of an in-page jump comes back whole. */
  lemma InpageBack(v: int, next: int, opcode: byte)
    requires Page(v) == Page(next) && 0 <= next
    ensures InpageHigh(v, opcode) % 32 == opcode % 32
    ensures InpageTarget(next, InpageHigh(v, opcode), Low8(v)) == v % 0x10000
  {
    SplitAddress(v);
    var h := v / 0x100 % 8;
    assert InpageHigh(v, opcode) == h * 32 + opcode % 32;
    assert InpageHigh(v, opcode) / 32 == h;
  }

  lemma SplitAddress(v: int)
    ensures v % 0x10000 == Page(v) * 0x800 + v / 0x100 % 8 * 0x100 + v % 0x100
  {
    var q := v / 0x100;
    assert v / 0x800 == q / 8;
  }

  // ------------------------------------------------------------- byte halves

  /** HIGH and LOW of V are its two bytes on each of the three paths; all three
      take every V in -65536..65535, the constant path and the fixup no other,
      and the fixup's second range check adds nothing to its first.  The linker
      adds the half to what the field holds. */
  lemma ByteHalves(v: int, place: int, held: seq<byte>)
    requires |held| == 1
    ensures Word(High8(v), Low8(v)) == v % 0x10000
    ensures ConstantByte(v, ModeImm8, HighOf, 0) == (High8(v), !(-65536 <= v <= 65535))
    ensures ConstantByte(v, ModeImm8, LowOf, 0) == (Low8(v), false)
    ensures GasPatch(High, v, place, held) == Patch(-65536 <= v <= 65535, [High8(v)])
    ensures GasPatch(Low, v, place, held) == Patch(true, [Low8(v)])
    ensures LinkPatch(High, v, place, held) == Link(Ok, [Low8(held[0] + High8(v))])
    ensures LinkPatch(Low, v, place, held) == Link(Ok, [Low8(held[0] + Low8(v))])
    ensures LinkPatch(High, v, place, [0]) == Link(Ok, [High8(v)])
    ensures LinkPatch(Low, v, place, [0]) == Link(Ok, [Low8(v)])
  {
    WordBack(v);
    assert -65536 <= v <= 65535 ==> -256 <= v / 0x100 <= 255;
    AddsLowByte(v, held[0]);
    AddsLowByte(v / 0x100, held[0]);
  }

  lemma AddsLowByte(v: int, b: byte)
    ensures Low8(b + v) == Low8(b + Low8(v))
  {
    assert b + v == v / 0x100 * 0x100 + (b + v % 0x100);
  }

  /** The chain of 8-bit ranges: direct at link time, immediate at link time, a
      constant, a fixup.  The first link breaks exactly at the values that are a
      byte only modulo 2^16, which the generic check sees as one.  Over a field
      of 0 each path writes the low byte of V where it accepts it; the linker
      adds what the field holds. */
  lemma RangeChain(v: int, place: int, held: seq<byte>)
    requires |held| == 1
    ensures LinkPatch(Dir8, v, place, held).status.Ok? <==> v % 0x10000 + held[0] <= 255
    ensures -0xFF00 <= v <= 0xFFFF ==> (LinkPatch(Dir8, v, place, [0]).status.Ok? <==> 0 <= v <= 255)
    ensures LinkPatch(Imm8, v, place, held).status.Ok? <==> CheckRange(v, ModeImm8)
    ensures (LinkPatch(Dir8, v, place, held).status.Ok? ==> LinkPatch(Imm8, v, place, held).status.Ok?)
       <==> (0 <= v <= 255 || v % 0x10000 > 255 - held[0])
    ensures CheckRange(v, ModeImm8) ==> GasPatch(Imm8, v, place, held).ok && GasPatch(Dir8, v, place, held).ok
    ensures forall k :: k in {Imm8, Dir8} ==>
              && (GasPatch(k, v, place, held).ok ==> GasPatch(k, v, place, held).bytes == [Low8(v)])
              && (LinkPatch(k, v, place, held).status.Ok? ==>
                    LinkPatch(k, v, place, held).bytes == [Low8(held[0] + v)])
              && ConstantByte(v, ModeImm8, NoPrefix, 0) == (Low8(v), !CheckRange(v, ModeImm8))
  {
    assert -0xFF00 <= v < 0 ==> v % 0x10000 == v + 0x10000;
    assert -128 <= v < 0 ==> v % 0x10000 == v + 0x10000;
  }

  // ------------------------------------------------------ the bit-address fold

  /** i51_fold_bit_suffix () on `ADDR.BIT', BIT being one of the digits 0..7. */
  function FoldSuffix(addr: int, bit: nat): Option<int>
    requires bit <= 7
  {
    if 0x20 <= addr <= 0x2F then Some((addr - 0x20) * 8 + bit)
    else if 0x80 <= addr <= 0xF8 && addr % 8 == 0 then Some(addr + bit)
    else None
  }

  /** The byte a B2B operand that is not a constant leaves for the fixup. */
  function StoredOffset(off: nat): byte { Low8(off) }

  function OfPatch(p: Patch): Option<int>
    requires |p.bytes| == 1
  {
    if p.ok then Some(p.bytes[0]) else None
  }

  function OfLink(l: Link): Option<int>
    requires |l.bytes| == 1
  {
    if l.status.Ok? then Some(l.bytes[0]) else None
  }

  function OfConstant(v: int, off: nat): Option<int>
  {
    var (b, bad) := ConstantByte(v, ModeBit, BitOf, off);
    if bad then None else Some(b)
  }

  /** The four copies of the fold are one function of the byte address and the
      bit, for every offset a byte holds; the linker leaves it at address 0
      only, where it takes what the other three refuse. */
  lemma FoldCopiesAgree(addr: int, off: nat, place: int)
    ensures OfConstant(addr, off) == BitAddress(addr, off)
    ensures off <= 7 ==> FoldSuffix(addr, off) == BitAddress(addr, off)
    ensures off <= 255 ==> OfPatch(GasPatch(B2b, addr, place, [StoredOffset(off)])) == BitAddress(addr, off)
    ensures off <= 255 ==>
              (OfLink(LinkPatch(B2b, addr, place, [StoredOffset(off)])) == BitAddress(addr, off) <==> addr != 0)
  {
  }

  /** An offset too big for its byte is refused on a constant and cut to a byte
      on a symbol, so the two part exactly when the cut one names a bit. */
  lemma WideOffsetsPart(addr: int, off: nat, place: int)
    ensures OfConstant(addr, off) == OfPatch(GasPatch(B2b, addr, place, [StoredOffset(off)]))
            <==> (off <= 255 || BitAddress(addr, off % 0x100).None?)
  {
  }

  /** The byte and the bit a bit address stands for. */
  function ByteOfBit(bit: byte): byte { if bit < 0x80 then 0x20 + bit / 8 else bit - bit % 8 }
  function OffsetOfBit(bit: byte): byte { bit % 8 }

  /** The fold is a bijection from the bit-addressable (byte, bit) pairs onto
      0..255: unfolding a bit address folds to it, and folding a pair unfolds
      to the pair. */
  lemma FoldIsBijection(bit: byte, addr: int, off: int)
    ensures BitAddress(ByteOfBit(bit), OffsetOfBit(bit)) == Some(bit)
    ensures BitAddress(addr, off) == Some(bit) <==> (addr == ByteOfBit(bit) && off == OffsetOfBit(bit))
  {
    UnfoldBit(bit);
    if BitAddress(addr, off) == Some(bit) { FoldPair(addr, off, bit); }
  }

  lemma UnfoldBit(bit: byte)
    ensures BitAddress(ByteOfBit(bit), OffsetOfBit(bit)) == Some(bit)
  {
    if bit >= 0x80 {
      assert (bit - bit % 8) % 8 == 0;
    }
  }

  lemma FoldPair(addr: int, off: int, bit: byte)
    requires BitAddress(addr, off) == Some(bit)
    ensures addr == ByteOfBit(bit) && off == OffsetOfBit(bit)
  {
    if addr < 0x30 {
      assert bit == (addr - 0x20) * 8 + off;
    } else {
      assert bit == addr + off && addr % 8 == 0;
    }
  }
}
