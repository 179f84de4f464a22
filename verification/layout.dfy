/** The addresses the default linker script gives the memory spaces of the
    MCS-51, and what its ASSERTs buy.  The sizes are those of the output
    sections, in bytes except for the two bit sections, whose unit is a bit. */
module Layout {
  import opened Bits
  import opened Wrappers
  import opened Relocation
  import opened Agreement

  datatype Sizes = Sizes(regbank: nat, rdata: nat, rbss: nat, bdata: nat, bbss: nat, bit: nat, bitbss: nat,
                         data: nat, bss: nat, idata: nat, ibss: nat, xdata: nat, xbss: nat, edata: nat, ebss: nat)
  {
    function Regbank(): nat { 0x00 }
    function Rdata(): nat { Regbank() + regbank }
    function Rbss(): nat { Rdata() + rdata }
    function RdataEnd(): nat { Rbss() + rbss }
    function Bdata(): nat { if RdataEnd() > 0x20 then RdataEnd() else 0x20 }
    function Bbss(): nat { Bdata() + bdata }
    function BdataEnd(): nat { Bbss() + bbss }
    function Bit(): nat { (BdataEnd() - 0x20) * 8 }
    function Bitbss(): nat { Bit() + bit }
    function BitEnd(): nat { Bitbss() + bitbss }
    function Data(): nat { BdataEnd() + (bit + bitbss + 7) / 8 }
    function Bss(): nat { Data() + data }
    function Idata(): nat { Bss() + bss }
    function Ibss(): nat { Idata() + idata }
    function IdataEnd(): nat { Ibss() + ibss }
    function Stack(): nat { IdataEnd() }
    function XdataEnd(): nat { 0x0000 + xdata + xbss }
    function EdataEnd(): nat { 0x0000 + edata + ebss }

    /** The five ASSERTs. */
    predicate Accepted()
    {
      && IdataEnd() <= 0x100
      && (bdata + bbss == 0 || BdataEnd() <= 0x30)
      && (bit + bitbss == 0 || (BitEnd() <= 0x80 && Data() <= 0x30))
      && XdataEnd() <= 0x10000
      && EdataEnd() <= 0x10000
    }

    /** The sections of the internal RAM in script order, with the bytes that
        hold the named bits in the place they take. */
    function Extents(): seq<Extent>
    {
      [ Extent(Regbank(), regbank), Extent(Rdata(), rdata), Extent(Rbss(), rbss),
        Extent(Bdata(), bdata), Extent(Bbss(), bbss), Extent(BdataEnd(), (bit + bitbss + 7) / 8),
        Extent(Data(), data), Extent(Bss(), bss), Extent(Idata(), idata), Extent(Ibss(), ibss) ]
    }

    function Xdata(): Extent { Extent(0, xdata + xbss) }
    function Edata(): Extent { Extent(0, edata + ebss) }

    predicate NamedBit(b: int) { Bit() <= b < BitEnd() }
  }

  datatype Extent = Extent(start: nat, size: nat)
  {
    function End(): nat { start + size }
    predicate Has(a: int) { start <= a < End() }
  }

  const BDATA_EXTENT := 3
  const BBSS_EXTENT := 4
  const BIT_EXTENT := 5

  /** The internal RAM is allocated in order, without overlap, below 0x100 and
      below the stack. */
  lemma ExtentsOrdered(s: Sizes)
    requires s.Accepted()
    ensures var es := s.Extents();
            && (forall i, j :: 0 <= i < j < |es| ==> es[i].End() <= es[j].start)
            && (forall i :: 0 <= i < |es| ==> es[i].End() <= s.Stack() <= 0x100)
  {
    var es := s.Extents();
    assert forall i :: 0 <= i < 9 ==> es[i].End() <= es[i + 1].start;
    forall i, j | 0 <= i < j < |es|
      ensures es[i].End() <= es[j].start
    {
      Chain(es, i, j);
    }
  }

  lemma {:induction false} Chain(es: seq<Extent>, i: nat, j: nat)
    requires i < j < |es|
    requires forall k {:trigger es[k]} :: 0 <= k < |es| - 1 ==> es[k].End() <= es[k + 1].start
    ensures es[i].End() <= es[j].start
    decreases j - i
  {
    if i + 1 < j { Chain(es, i + 1, j); }
  }

  /** No byte of internal RAM belongs to two sections. */
  lemma ExtentsDisjoint(s: Sizes, i: nat, j: nat, a: int)
    requires s.Accepted() && i < j < |s.Extents()|
    ensures !(s.Extents()[i].Has(a) && s.Extents()[j].Has(a))
  {
    ExtentsOrdered(s);
  }

  /** Every named bit lives in a bit-addressable byte of its own extent, between
      the end of .bbss and the start of .data, and is that byte's bit. */
  lemma NamedBitsHaveBytes(s: Sizes, b: int)
    requires s.Accepted() && s.NamedBit(b)
    ensures 0 <= b < 0x80
    ensures s.Extents()[BIT_EXTENT].Has(0x20 + b / 8)
    ensures s.BdataEnd() <= 0x20 + b / 8 < s.Data() <= 0x30
    ensures BitAddress(0x20 + b / 8, b % 8) == Some(b)
  {
    var n := s.bit + s.bitbss;
    var off := b - s.Bit();
    assert b / 8 == s.BdataEnd() - 0x20 + off / 8;
    assert off / 8 <= (n - 1) / 8 < (n + 7) / 8;
  }

  /** The bits of a .bdata or .bbss byte fold below every named bit. */
  lemma ByteBitsFoldBelow(s: Sizes, a: int, off: int)
    requires s.Accepted() && 0 <= off <= 7
    requires s.Extents()[BDATA_EXTENT].Has(a) || s.Extents()[BBSS_EXTENT].Has(a)
    ensures BitAddress(a, off).Some? && BitAddress(a, off).value < s.Bit() <= 0x80
  {
    assert s.bdata + s.bbss > 0;
    assert 0x20 <= a < s.BdataEnd() <= 0x30;
  }

  /** One bit of the machine: a bit of a .bdata/.bbss byte, a named bit, or a bit
      of a bit-addressable special function register. */
  datatype Owner = ByteBit(a: int, off: int) | Named(b: int) | SfrBit(a: int, off: int)

  predicate Owns(s: Sizes, o: Owner)
  {
    match o
    case ByteBit(a, off) => 0 <= off <= 7 && (s.Extents()[BDATA_EXTENT].Has(a) || s.Extents()[BBSS_EXTENT].Has(a))
    case Named(b) => s.NamedBit(b)
    case SfrBit(a, off) => 0 <= off <= 7 && 0x80 <= a <= 0xF8 && a % 8 == 0
  }

  /** The bit address an instruction reaches it by: B2B of the byte, or the
      symbol of a named bit itself. */
  function BitOf(o: Owner): Option<int>
  {
    match o
    case ByteBit(a, off) => BitAddress(a, off)
    case Named(b) => Some(b)
    case SfrBit(a, off) => BitAddress(a, off)
  }

  /** Different bits never share a bit address. */
  lemma BitAddressesUnique(s: Sizes, x: Owner, y: Owner)
    requires s.Accepted() && Owns(s, x) && Owns(s, y) && x != y
    ensures BitOf(x).Some? && BitOf(y).Some? && 0 <= BitOf(x).value < 0x100 && BitOf(x) != BitOf(y)
  {
    Placed(s, x);
    Placed(s, y);
    if BitOf(x) == BitOf(y) && !x.Named? && !y.Named? {
      FoldIsBijection(BitOf(x).value, x.a, x.off);
      FoldIsBijection(BitOf(y).value, y.a, y.off);
    }
  }

  /** Where in 0..0xFF each kind of bit falls. */
  lemma Placed(s: Sizes, o: Owner)
    requires s.Accepted() && Owns(s, o)
    ensures BitOf(o).Some? && 0 <= BitOf(o).value < 0x100
    ensures match o
            case ByteBit(_, _) => BitOf(o).value < s.Bit() <= 0x80
            case Named(_) => s.Bit() <= BitOf(o).value < 0x80
            case SfrBit(_, _) => 0x80 <= BitOf(o).value
  {
    match o
    case ByteBit(a, off) => ByteBitsFoldBelow(s, a, off);
    case Named(b) => NamedBitsHaveBytes(s, b);
    case SfrBit(a, off) =>
  }

  /** Everything the program asked for is where the machine can reach it. */
  ghost predicate Reachable(s: Sizes)
  {
    && (forall i, a :: 0 <= i < |s.Extents()| && s.Extents()[i].Has(a) ==> a < 0x100)
    && (forall a :: s.Extents()[BDATA_EXTENT].Has(a) || s.Extents()[BBSS_EXTENT].Has(a) ==> 0x20 <= a < 0x30)
    && (forall b :: s.NamedBit(b) ==> 0 <= b < 0x80)
    && (forall a :: s.Xdata().Has(a) ==> a < 0x10000)
    && (forall a :: s.Edata().Has(a) ==> a < 0x10000)
  }

  /** The ASSERTs refuse exactly the links some object of which is out of reach. */
  lemma AssertsAreExact(s: Sizes)
    ensures s.Accepted() <==> Reachable(s)
  {
    if s.Accepted() { AcceptedReaches(s); }
    if Reachable(s) { ReachableAccepted(s); }
  }

  lemma AcceptedReaches(s: Sizes)
    requires s.Accepted()
    ensures Reachable(s)
  {
    ExtentsOrdered(s);
    forall b | s.NamedBit(b) ensures 0 <= b < 0x80 { NamedBitsHaveBytes(s, b); }
  }

  lemma ReachableAccepted(s: Sizes)
    requires Reachable(s)
    ensures s.Accepted()
  {
    LastByte(s);
    if s.bdata + s.bbss > 0 {
      var a := s.BdataEnd() - 1;
      assert s.Extents()[BDATA_EXTENT].Has(a) || s.Extents()[BBSS_EXTENT].Has(a);
    }
    if s.bit + s.bitbss > 0 {
      assert s.NamedBit(s.BitEnd() - 1);
    }
    if s.xdata + s.xbss > 0 { assert s.Xdata().Has(s.XdataEnd() - 1); }
    if s.edata + s.ebss > 0 { assert s.Edata().Has(s.EdataEnd() - 1); }
  }

  /** The byte before the stack is occupied, unless nothing pushes past 0x20. */
  lemma LastByte(s: Sizes)
    requires forall i, a :: 0 <= i < |s.Extents()| && s.Extents()[i].Has(a) ==> a < 0x100
    ensures s.IdataEnd() <= 0x100
  {
    var es := s.Extents();
    var a := s.IdataEnd() - 1;
    if s.ibss > 0 { assert es[9].Has(a); }
    else if s.idata > 0 { assert es[8].Has(a); }
    else if s.bss > 0 { assert es[7].Has(a); }
    else if s.data > 0 { assert es[6].Has(a); }
    else if s.bit + s.bitbss > 0 { assert es[5].Has(a); }
    else if s.bbss > 0 { assert es[4].Has(a); }
    else if s.bdata > 0 { assert es[3].Has(a); }
    else if s.RdataEnd() <= 0x20 { }
    else if s.rbss > 0 { assert es[2].Has(a); }
    else if s.rdata > 0 { assert es[1].Has(a); }
    else { assert es[0].Has(a); }
  }

  /** The second half of the bit-space ASSERT says nothing the first does not. */
  lemma DataAssertImplied(s: Sizes)
    requires s.bit + s.bitbss > 0 && s.BitEnd() <= 0x80
    ensures s.Data() <= 0x30
  {
    var n := s.bit + s.bitbss;
    assert (s.BdataEnd() - 0x20) * 8 + n <= 0x80;
    assert (n + 7) / 8 <= 16 - (s.BdataEnd() - 0x20);
  }

  // ------------------------------------------------------ the least placement

  /** A start address for every section, the two bit sections in bits. */
  datatype Placement = Placement(regbank: nat, rdata: nat, rbss: nat, bdata: nat, bbss: nat, bit: nat, bitbss: nat,
                                 data: nat, bss: nat, idata: nat, ibss: nat,
                                 xdata: nat, xbss: nat, edata: nat, ebss: nat)

  /** The sections follow one another in script order, bit-addressable data from
      0x20 on.  Bit n is in byte 0x20 + n / 8, so the named bits start behind the
      last byte of .bbss and their last byte is before .data. */
  predicate Fits(s: Sizes, p: Placement)
  {
    && p.regbank + s.regbank <= p.rdata && p.rdata + s.rdata <= p.rbss
    && p.rbss + s.rbss <= p.bdata && 0x20 <= p.bdata && p.bdata + s.bdata <= p.bbss
    && 8 * (p.bbss + s.bbss - 0x20) <= p.bit && p.bit + s.bit <= p.bitbss
    && p.bitbss + s.bitbss <= 8 * (p.data - 0x20)
    && p.data + s.data <= p.bss && p.bss + s.bss <= p.idata && p.idata + s.idata <= p.ibss
    && p.xdata + s.xdata <= p.xbss && p.edata + s.edata <= p.ebss
  }

  /** Where the script puts them. */
  function Chosen(s: Sizes): Placement
  {
    Placement(s.Regbank(), s.Rdata(), s.Rbss(), s.Bdata(), s.Bbss(), s.Bit(), s.Bitbss(), s.Data(), s.Bss(),
              s.Idata(), s.Ibss(), 0, s.xdata, 0, s.edata)
  }

  /** No section starts later in P than in Q. */
  predicate NoLater(p: Placement, q: Placement)
  {
    && p.regbank <= q.regbank && p.rdata <= q.rdata && p.rbss <= q.rbss && p.bdata <= q.bdata && p.bbss <= q.bbss
    && p.bit <= q.bit && p.bitbss <= q.bitbss && p.data <= q.data && p.bss <= q.bss
    && p.idata <= q.idata && p.ibss <= q.ibss
    && p.xdata <= q.xdata && p.xbss <= q.xbss && p.edata <= q.edata && p.ebss <= q.ebss
  }

  /** The script wastes nothing: its placement fits, and none that fits starts any
      section earlier. */
  lemma LayoutIsLeast(s: Sizes, p: Placement)
    ensures Fits(s, Chosen(s))
    ensures Fits(s, p) ==> NoLater(Chosen(s), p)
    ensures Fits(s, p) ==> s.Stack() <= p.ibss + s.ibss
  {
    if Fits(s, p) {
      BytesOfBits(p.bitbss + s.bitbss, s.BdataEnd(), s.bit + s.bitbss, p.data);
    }
  }

  /** N bits behind the bytes up to E, ending at bit B, take that many bytes. */
  lemma BytesOfBits(b: nat, e: nat, n: nat, data: nat)
    requires 0x20 <= e && 8 * (e - 0x20) + n <= b <= 8 * (data - 0x20)
    ensures e + (n + 7) / 8 <= data
  {
  }

  /** Each section is where the machine can reach it, an empty one anywhere. */
  predicate InReach(s: Sizes, p: Placement)
  {
    && Under(p.regbank, s.regbank, 0x100) && Under(p.rdata, s.rdata, 0x100) && Under(p.rbss, s.rbss, 0x100)
    && Under(p.bdata, s.bdata, 0x30) && Under(p.bbss, s.bbss, 0x30)
    && Under(p.bit, s.bit, 0x80) && Under(p.bitbss, s.bitbss, 0x80)
    && Under(p.data, s.data, 0x100) && Under(p.bss, s.bss, 0x100)
    && Under(p.idata, s.idata, 0x100) && Under(p.ibss, s.ibss, 0x100)
    && Under(p.xdata, s.xdata, 0x10000) && Under(p.xbss, s.xbss, 0x10000)
    && Under(p.edata, s.edata, 0x10000) && Under(p.ebss, s.ebss, 0x10000)
  }

  predicate Under(start: nat, size: nat, limit: nat) { size > 0 ==> start + size <= limit }

  lemma NoLaterInReach(s: Sizes, p: Placement, q: Placement)
    requires NoLater(p, q) && InReach(s, q)
    ensures InReach(s, p)
  {
  }

  /** The ASSERTs refuse a link exactly when no placement of its sections would
      do. */
  lemma RefusedOnlyIfNothingFits(s: Sizes)
    ensures s.Accepted() <==> exists p :: Fits(s, p) && InReach(s, p)
  {
    LayoutIsLeast(s, Chosen(s));
    if s.Accepted() {
      AcceptedIsInReach(s);
      assert Fits(s, Chosen(s)) && InReach(s, Chosen(s));
    }
    if p :| Fits(s, p) && InReach(s, p) {
      LayoutIsLeast(s, p);
      NoLaterInReach(s, Chosen(s), p);
      InReachIsAccepted(s);
    }
  }

  lemma AcceptedIsInReach(s: Sizes)
    requires s.Accepted()
    ensures InReach(s, Chosen(s))
  {
    ExtentsOrdered(s);
  }

  lemma InReachIsAccepted(s: Sizes)
    requires InReach(s, Chosen(s))
    ensures s.Accepted()
  {
    if s.bit + s.bitbss > 0 { DataAssertImplied(s); }
    if s.data + s.bss + s.idata + s.ibss == 0 {
      assert s.IdataEnd() == s.Data();
      assert s.RdataEnd() <= 0x100;
    }
  }

  ghost predicate HoldsNamedBit(s: Sizes, a: nat) { exists b :: s.NamedBit(b) && a == 0x20 + b / 8 }

  /** A byte of internal RAM that something lies in: a section of bytes, or the
      byte of a named bit. */
  ghost predicate Occupied(s: Sizes, a: nat)
  {
    || Extent(s.Regbank(), s.regbank).Has(a) || Extent(s.Rdata(), s.rdata).Has(a) || Extent(s.Rbss(), s.rbss).Has(a)
    || Extent(s.Bdata(), s.bdata).Has(a) || Extent(s.Bbss(), s.bbss).Has(a)
    || HoldsNamedBit(s, a)
    || Extent(s.Data(), s.data).Has(a) || Extent(s.Bss(), s.bss).Has(a)
    || Extent(s.Idata(), s.idata).Has(a) || Extent(s.Ibss(), s.ibss).Has(a)
  }

  /** The stack starts at the first byte from 0x20 on behind everything else. */
  lemma StackIsFirstFree(s: Sizes, a: nat)
    ensures 0x20 <= s.Stack()
    ensures Occupied(s, a) ==> a < s.Stack()
    ensures s.Stack() > 0x20 ==> Occupied(s, s.Stack() - 1)
  {
    if HoldsNamedBit(s, a) {
      var b :| s.NamedBit(b) && a == 0x20 + b / 8;
      NamedBitBelowData(s, b);
    }
    if s.bit + s.bitbss > 0 { NamedBitBelowData(s, s.BitEnd() - 1); }
  }

  lemma NamedBitBelowData(s: Sizes, b: int)
    requires s.NamedBit(b)
    ensures 0 <= b && 0x20 + b / 8 < s.Data() && HoldsNamedBit(s, 0x20 + b / 8)
    ensures b == s.BitEnd() - 1 ==> 0x20 + b / 8 == s.Data() - 1
  {
    var n, e := s.bit + s.bitbss, s.BdataEnd() - 0x20;
    var off := b - 8 * e;
    assert b / 8 == e + off / 8;
    assert off / 8 <= (n - 1) / 8 == (n + 7) / 8 - 1;
  }
}
