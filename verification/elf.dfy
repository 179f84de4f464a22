/** The fields of a 32-bit ELF object: System V ABI, chapter 4, "ELF Header",
    "Sections", "Symbol Table" and "Relocation". */
module Elf {
  import opened Bits

  datatype Order = Little | Big

  /** LEN bytes from LO on. */
  datatype Field = Field(lo: nat, len: nat)
  {
    predicate Has(k: int) { lo <= k < lo + len }

    predicate Apart(f: Field) { lo + len <= f.lo || f.lo + f.len <= lo }

    predicate Fits(n: nat) { lo + len <= n }

    /** The place byte K goes to when the field is turned around. */
    function Mirror(k: int): int { lo + lo + len - 1 - k }
  }

  function BigValue(s: seq<byte>): nat
  {
    if s == [] then 0 else BigValue(s[..|s| - 1]) * 0x100 + s[|s| - 1]
  }

  function LittleValue(s: seq<byte>): nat
  {
    if s == [] then 0 else s[0] + 0x100 * LittleValue(s[1..])
  }

  function Read(d: seq<byte>, f: Field, order: Order): nat
    requires f.Fits(|d|)
  {
    var s := d[f.lo..f.lo + f.len];
    if order == Big then BigValue(s) else LittleValue(s)
  }

  predicate AllFit(fs: seq<Field>, n: nat) { forall i :: 0 <= i < |fs| ==> fs[i].Fits(n) }

  function ReadAll(d: seq<byte>, fs: seq<Field>, order: Order): (v: seq<nat>)
    requires AllFit(fs, |d|)
    ensures |v| == |fs|
  {
    seq(|fs|, i requires 0 <= i < |fs| => Read(d, fs[i], order))
  }

  // ----------------------------------------------------------------- records

  const EHDR: nat := 52
  const SHDR: nat := 40
  const SYM: nat := 16
  const RELA: nat := 12

  /** The ELF header's fields but e_machine. */
  const HEADER: seq<Field> :=
    [Field(16, 2), Field(20, 4), Field(24, 4), Field(28, 4), Field(32, 4), Field(36, 4),
     Field(40, 2), Field(42, 2), Field(44, 2), Field(46, 2), Field(48, 2), Field(50, 2)]

  const MACHINE: Field := Field(18, 2)
  const SHOFF: Field := Field(32, 4)
  const SHENTSIZE: Field := Field(46, 2)
  const SHNUM: Field := Field(48, 2)

  /** sh_name, sh_type, sh_flags, sh_addr, sh_offset, sh_size, sh_link, sh_info,
      sh_addralign and sh_entsize. */
  function SectionRecord(lo: nat): (fs: seq<Field>) { seq(10, i requires 0 <= i < 10 => Field(lo + 4 * i, 4)) }

  /** st_name, st_value, st_size and st_shndx; st_info and st_other are bytes. */
  function SymbolRecord(lo: nat): (fs: seq<Field>)
  {
    [Field(lo, 4), Field(lo + 4, 4), Field(lo + 8, 4), Field(lo + 14, 2)]
  }

  /** r_offset, r_info and r_addend. */
  function RelaRecord(lo: nat): (fs: seq<Field>) { [Field(lo, 4), Field(lo + 4, 4), Field(lo + 8, 4)] }

  datatype Kind = Symbols | Relocations | Neither
  {
    function Size(): nat { match this case Symbols => SYM case Relocations => RELA case Neither => 0 }

    function Record(lo: nat): seq<Field>
    {
      match this case Symbols => SymbolRecord(lo) case Relocations => RelaRecord(lo) case Neither => []
    }
  }

  /** What a section header says about where its entries are. */
  datatype Head = Head(stype: nat, offset: nat, size: nat, link: nat, entsize: nat)
  {
    function Kind(): Kind { if stype == 2 then Symbols else if stype == 4 then Relocations else Neither }

    function Count(): nat { if entsize > 0 then size / entsize else 0 }
  }

  function HeadAt(d: seq<byte>, lo: nat, order: Order): Head
    requires lo + SHDR <= |d|
  {
    Head(Read(d, Field(lo + 4, 4), order), Read(d, Field(lo + 16, 4), order), Read(d, Field(lo + 20, 4), order),
         Read(d, Field(lo + 24, 4), order), Read(d, Field(lo + 36, 4), order))
  }

  /** The fields of the entries of a table from the J-th on, up to the first one
      that runs past the N bytes there are. */
  function EntryFields(n: nat, h: Head, j: nat): (fs: seq<Field>)
    ensures AllFit(fs, n)
    decreases h.Count() - j
  {
    var lo := h.offset + j * h.entsize;
    if h.Kind() == Neither || j >= h.Count() || lo + h.Kind().Size() > n then []
    else h.Kind().Record(lo) + EntryFields(n, h, j + 1)
  }

  /** Where the section headers are. */
  datatype Table = Table(off: nat, entsize: nat, num: nat)
  {
    function At(i: nat): nat { off + i * entsize }
  }

  function SectionTable(d: seq<byte>, order: Order): Table
    requires |d| >= EHDR
  {
    Table(Read(d, SHOFF, order), Read(d, SHENTSIZE, order), Read(d, SHNUM, order))
  }

  lemma MulStep(j: nat, n: nat, e: nat)
    requires j < n
    ensures (j + 1) * e == j * e + e && j * e + e <= n * e
  {
    if j + 1 < n { MulMore(j + 1, n, e); }
  }

  lemma MulMore(a: nat, b: nat, e: nat)
    requires a <= b
    ensures a * e <= b * e
  {
  }

  /** A section as it is read: its header and the fields of its entries. */
  datatype Section = Section(fields: seq<nat>, entries: seq<nat>)

  function SectionAt(d: seq<byte>, lo: nat, order: Order): Section
    requires lo + SHDR <= |d|
  {
    Section(ReadAll(d, SectionRecord(lo), order), ReadAll(d, EntryFields(|d|, HeadAt(d, lo, order), 0), order))
  }

  function Sections(d: seq<byte>, t: Table, i: nat, order: Order): seq<Section>
    decreases t.num - i
  {
    if i >= t.num || t.At(i) + SHDR > |d| then []
    else [SectionAt(d, t.At(i), order)] + Sections(d, t, i + 1, order)
  }

  datatype Object = Object(machine: nat, header: seq<nat>, sections: seq<Section>)

  function Parse(d: seq<byte>, order: Order): Object
    requires |d| >= EHDR
  {
    Object(Read(d, MACHINE, order), ReadAll(d, HEADER, order), Sections(d, SectionTable(d, order), 0, order))
  }

  // ------------------------------------------------------------- which fields

  function SectionFields(d: seq<byte>, t: Table, i: nat): (fs: seq<Field>)
    ensures AllFit(fs, |d|)
    decreases t.num - i
  {
    if i >= t.num || t.At(i) + SHDR > |d| then []
    else SectionRecord(t.At(i)) + EntryFields(|d|, HeadAt(d, t.At(i), Big), 0) + SectionFields(d, t, i + 1)
  }

  /** All the multi-byte fields of a big-endian object but e_machine. */
  function Fields(d: seq<byte>): (fs: seq<Field>)
    requires |d| >= EHDR
    ensures AllFit(fs, |d|)
  {
    HEADER + SectionFields(d, SectionTable(d, Big), 0)
  }

  predicate PairwiseApart(fs: seq<Field>)
  {
    forall i, j :: 0 <= i < j < |fs| ==> fs[i].Apart(fs[j])
  }

  predicate AllApart(f: Field, fs: seq<Field>) { forall i :: 0 <= i < |fs| ==> f.Apart(fs[i]) }

  /** No field overlaps another, and none outside the ELF header overlaps it. */
  predicate FieldsApart(d: seq<byte>)
    requires |d| >= EHDR
  {
    && PairwiseApart(Fields(d))
    && AllApart(Field(0, EHDR), SectionFields(d, SectionTable(d, Big), 0))
  }

  // ------------------------------------------------- reading the same fields

  /** The fields FS read from A and from B alike. */
  predicate SameRead(a: seq<byte>, oa: Order, b: seq<byte>, ob: Order, fs: seq<Field>)
    requires AllFit(fs, |a|) && |a| == |b|
  {
    forall i :: 0 <= i < |fs| ==> Read(a, fs[i], oa) == Read(b, fs[i], ob)
  }

  lemma SameReadParts(a: seq<byte>, oa: Order, b: seq<byte>, ob: Order, fs: seq<Field>, gs: seq<Field>)
    requires |a| == |b| && AllFit(fs, |a|) && AllFit(gs, |a|) && AllFit(fs + gs, |a|)
    requires SameRead(a, oa, b, ob, fs + gs)
    ensures SameRead(a, oa, b, ob, fs) && SameRead(a, oa, b, ob, gs)
  {
    hide Read;
    forall i | 0 <= i < |fs|
      ensures Read(a, fs[i], oa) == Read(b, fs[i], ob)
    {
      assert (fs + gs)[i] == fs[i];
    }
    forall i | 0 <= i < |gs|
      ensures Read(a, gs[i], oa) == Read(b, gs[i], ob)
    {
      assert (fs + gs)[|fs| + i] == gs[i];
    }
  }

  lemma SameHead(a: seq<byte>, oa: Order, b: seq<byte>, ob: Order, lo: nat)
    requires |a| == |b| && lo + SHDR <= |a|
    requires AllFit(SectionRecord(lo), |a|) && SameRead(a, oa, b, ob, SectionRecord(lo))
    ensures HeadAt(a, lo, oa) == HeadAt(b, lo, ob)
  {
    hide Read;
    var fs := SectionRecord(lo);
    assert Read(a, fs[1], oa) == Read(b, fs[1], ob) && Read(a, fs[4], oa) == Read(b, fs[4], ob);
    assert Read(a, fs[5], oa) == Read(b, fs[5], ob) && Read(a, fs[6], oa) == Read(b, fs[6], ob);
    assert Read(a, fs[9], oa) == Read(b, fs[9], ob);
  }

  lemma SameSections(a: seq<byte>, oa: Order, b: seq<byte>, t: Table, i: nat)
    requires |a| == |b| && AllFit(SectionFields(b, t, i), |a|)
    requires SameRead(a, oa, b, Big, SectionFields(b, t, i))
    ensures Sections(a, t, i, oa) == Sections(b, t, i, Big)
    decreases t.num - i
  {
    hide Read, HeadAt, SectionRecord, EntryFields, SameRead;
    if i < t.num && t.At(i) + SHDR <= |b| {
      var lo := t.At(i);
      var rec, ent, rest := SectionRecord(lo), EntryFields(|b|, HeadAt(b, lo, Big), 0), SectionFields(b, t, i + 1);
      RecordFits(lo, |b|);
      SameReadParts(a, oa, b, Big, rec + ent, rest);
      SameReadParts(a, oa, b, Big, rec, ent);
      SameHead(a, oa, b, Big, lo);
      SameValues(a, oa, b, Big, rec);
      SameValues(a, oa, b, Big, ent);
      SameSections(a, oa, b, t, i + 1);
    }
  }

  lemma RecordFits(lo: nat, n: nat)
    requires lo + SHDR <= n
    ensures AllFit(SectionRecord(lo), n)
  {
  }

  lemma SameValues(a: seq<byte>, oa: Order, b: seq<byte>, ob: Order, fs: seq<Field>)
    requires |a| == |b| && AllFit(fs, |a|) && SameRead(a, oa, b, ob, fs)
    ensures ReadAll(a, fs, oa) == ReadAll(b, fs, ob)
  {
    hide Read;
  }

  /** Two files that read alike are the same object. */
  lemma SameObject(a: seq<byte>, oa: Order, b: seq<byte>)
    requires |a| == |b| >= EHDR && SameRead(a, oa, b, Big, Fields(b))
    ensures Parse(a, oa) == Parse(b, Big).(machine := Read(a, MACHINE, oa))
    ensures SectionTable(a, oa) == SectionTable(b, Big)
  {
    hide Read, SameRead, Sections, SectionFields;
    HeaderFits(|b|);
    var t := SectionTable(b, Big);
    SameReadParts(a, oa, b, Big, HEADER, SectionFields(b, t, 0));
    SameValues(a, oa, b, Big, HEADER);
    SameTable(a, oa, b);
    SameSections(a, oa, b, t, 0);
  }

  lemma HeaderFits(n: nat)
    requires n >= EHDR
    ensures AllFit(HEADER, n)
  {
  }

  lemma HeaderFieldsApart()
    ensures PairwiseApart(HEADER)
  {
  }

  lemma SameTable(a: seq<byte>, oa: Order, b: seq<byte>)
    requires |a| == |b| >= EHDR && AllFit(HEADER, |b|) && SameRead(a, oa, b, Big, HEADER)
    ensures SectionTable(a, oa) == SectionTable(b, Big)
  {
    hide Read;
    assert Read(a, HEADER[4], oa) == Read(b, HEADER[4], Big);
    assert Read(a, HEADER[9], oa) == Read(b, HEADER[9], Big);
    assert Read(a, HEADER[10], oa) == Read(b, HEADER[10], Big);
  }

  /** And name the same fields. */
  lemma {:induction false} SameSectionFields(a: seq<byte>, b: seq<byte>, t: Table, i: nat)
    requires |a| == |b| && AllFit(SectionFields(b, t, i), |a|)
    requires SameRead(a, Big, b, Big, SectionFields(b, t, i))
    ensures SectionFields(a, t, i) == SectionFields(b, t, i)
    decreases t.num - i
  {
    hide Read, HeadAt, SectionRecord, EntryFields, SameRead;
    if i < t.num && t.At(i) + SHDR <= |b| {
      var lo := t.At(i);
      var rec, ent, rest := SectionRecord(lo), EntryFields(|b|, HeadAt(b, lo, Big), 0), SectionFields(b, t, i + 1);
      RecordFits(lo, |b|);
      SameReadParts(a, Big, b, Big, rec + ent, rest);
      SameReadParts(a, Big, b, Big, rec, ent);
      SameHead(a, Big, b, Big, lo);
      SameSectionFields(a, b, t, i + 1);
    }
  }

  lemma SameFields(a: seq<byte>, b: seq<byte>)
    requires |a| == |b| >= EHDR && SameRead(a, Big, b, Big, Fields(b))
    ensures Fields(a) == Fields(b) && SectionTable(a, Big) == SectionTable(b, Big)
  {
    hide Read, SameRead, SectionFields;
    HeaderFits(|b|);
    var t := SectionTable(b, Big);
    SameReadParts(a, Big, b, Big, HEADER, SectionFields(b, t, 0));
    SameTable(a, Big, b);
    SameSectionFields(a, b, t, 0);
  }

  /** Every section header in the file is among the fields. */
  lemma {:induction false} HeadsAlike(a: seq<byte>, oa: Order, b: seq<byte>, t: Table, i: nat, k: nat)
    requires |a| == |b| && AllFit(SectionFields(b, t, i), |a|)
    requires SameRead(a, oa, b, Big, SectionFields(b, t, i))
    requires i <= k < t.num && forall j :: i <= j <= k ==> t.At(j) + SHDR <= |b|
    ensures HeadAt(a, t.At(k), oa) == HeadAt(b, t.At(k), Big)
    decreases k - i
  {
    hide Read, HeadAt, SectionRecord, EntryFields, SameRead;
    var lo := t.At(i);
    var rec, ent, rest := SectionRecord(lo), EntryFields(|b|, HeadAt(b, lo, Big), 0), SectionFields(b, t, i + 1);
    RecordFits(lo, |b|);
    SameReadParts(a, oa, b, Big, rec + ent, rest);
    SameReadParts(a, oa, b, Big, rec, ent);
    SameHead(a, oa, b, Big, lo);
    if i < k { HeadsAlike(a, oa, b, t, i + 1, k); }
  }
}
