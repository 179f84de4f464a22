/** The records of an object against the structures of the System V ABI, chapter
    4, given by the sizes of their members in order; which records of a file are
    the fields that are turned around; and which files are read at all. */
module ElfAbi {
  import opened Bits
  import opened Elf
  import opened ElfConvert
  import opened ElfUpper
  import opened Wrappers

  /** The members of the structures, with e_ident as one. */
  const EHDR_SIZES: seq<nat> := [16, 2, 2, 4, 4, 4, 4, 4, 2, 2, 2, 2, 2, 2]
  const SHDR_SIZES: seq<nat> := [4, 4, 4, 4, 4, 4, 4, 4, 4, 4]
  const SYM_SIZES: seq<nat> := [4, 4, 4, 1, 1, 2]
  const RELA_SIZES: seq<nat> := [4, 4, 4]

  const EHDR_NAMES: seq<string> :=
    ["e_ident", "e_type", "e_machine", "e_version", "e_entry", "e_phoff", "e_shoff", "e_flags", "e_ehsize",
     "e_phentsize", "e_phnum", "e_shentsize", "e_shnum", "e_shstrndx"]
  const SHDR_NAMES: seq<string> :=
    ["sh_name", "sh_type", "sh_flags", "sh_addr", "sh_offset", "sh_size", "sh_link", "sh_info", "sh_addralign",
     "sh_entsize"]

  const SHT_RELA: nat := 4

  /** FS are members of these sizes one behind the other from LO to END. */
  predicate Laid(fs: seq<Field>, sizes: seq<nat>, lo: nat, end: nat)
  {
    && |fs| == |sizes| > 0 && fs[0].lo == lo
    && (forall k :: 0 <= k < |fs| ==> fs[k].len == sizes[k])
    && (forall k :: 0 < k < |fs| ==> fs[k].lo == fs[k - 1].lo + fs[k - 1].len)
    && fs[|fs| - 1].lo + fs[|fs| - 1].len == end
  }

  function HeaderMembers(): seq<Field> { [Field(0, 16), HEADER[0], MACHINE] + HEADER[1..] }

  function SymbolMembers(lo: nat): seq<Field>
  {
    SymbolRecord(lo)[..3] + [Field(lo + 12, 1), Field(lo + 13, 1)] + SymbolRecord(lo)[3..]
  }

  /** Every record is its structure, less the members of single bytes and
      e_machine. */
  lemma RecordsAreStructures(lo: nat)
    ensures Laid(HeaderMembers(), EHDR_SIZES, 0, EHDR)
    ensures Laid(SectionRecord(lo), SHDR_SIZES, lo, lo + SHDR)
    ensures Laid(SymbolMembers(lo), SYM_SIZES, lo, lo + SYM)
    ensures Laid(RelaRecord(lo), RELA_SIZES, lo, lo + RELA)
  {
    hide Laid;
    HeaderIsStructure();
    EntriesAreStructures(lo);
  }

  lemma HeaderIsStructure()
    ensures Laid(HeaderMembers(), EHDR_SIZES, 0, EHDR)
  {
  }

  lemma EntriesAreStructures(lo: nat)
    ensures Laid(SectionRecord(lo), SHDR_SIZES, lo, lo + SHDR)
    ensures Laid(SymbolMembers(lo), SYM_SIZES, lo, lo + SYM)
    ensures Laid(RelaRecord(lo), RELA_SIZES, lo, lo + RELA)
  {
  }

  /** The values that steer the reading are the members of these names. */
  lemma HeadReadsMembers(d: seq<byte>, lo: nat, order: Order, k: nat)
    requires lo + SHDR <= |d| && k < 10
    ensures SectionRecord(lo)[k].Fits(|d|)
    ensures var v, h := Read(d, SectionRecord(lo)[k], order), HeadAt(d, lo, order);
            && (SHDR_NAMES[k] == "sh_type" ==> h.stype == v) && (SHDR_NAMES[k] == "sh_offset" ==> h.offset == v)
            && (SHDR_NAMES[k] == "sh_size" ==> h.size == v) && (SHDR_NAMES[k] == "sh_link" ==> h.link == v)
            && (SHDR_NAMES[k] == "sh_entsize" ==> h.entsize == v)
  {
    hide Read;
  }

  lemma TableReadsMembers(d: seq<byte>, order: Order, k: nat)
    requires EHDR <= |d| && k < 14
    ensures HeaderMembers()[k].Fits(|d|)
    ensures var v, t := Read(d, HeaderMembers()[k], order), SectionTable(d, order);
            && (EHDR_NAMES[k] == "e_shoff" ==> t.off == v) && (EHDR_NAMES[k] == "e_shnum" ==> t.num == v)
            && (EHDR_NAMES[k] == "e_shentsize" ==> t.entsize == v)
  {
    hide Read;
  }

  // ------------------------------------------------------------ which records

  /** F is a member of the J-th entry of a table of N bytes. */
  predicate InEntry(n: nat, h: Head, j: nat, f: Field)
  {
    && j < h.Count() && h.offset + j * h.entsize + h.Kind().Size() <= n
    && f in h.Kind().Record(h.offset + j * h.entsize)
  }

  /** The fields of a table are those of all its entries inside the file. */
  lemma {:induction false} EntriesOfTable(n: nat, h: Head, i: nat, f: Field)
    requires h.Kind() != Neither
    ensures f in EntryFields(n, h, i) <==> exists j: nat :: i <= j < h.Count() && InEntry(n, h, j, f)
    decreases h.Count() - i
  {
    hide Kind.Record, Head.Kind, Head.Count, Kind.Size;
    var lo := h.offset + i * h.entsize;
    if i < h.Count() && lo + h.Kind().Size() <= n {
      EntriesOfTable(n, h, i + 1, f);
      if f in h.Kind().Record(lo) { assert InEntry(n, h, i, f); }
    } else {
      forall j: nat | i <= j < h.Count()
        ensures !InEntry(n, h, j, f)
      {
        MulMore(i, j, h.entsize);
      }
    }
  }

  /** F is a member of section I: of its header or of an entry of its table. */
  ghost predicate InSection(d: seq<byte>, t: Table, i: nat, f: Field)
  {
    && i < t.num && t.At(i) + SHDR <= |d|
    && var h := HeadAt(d, t.At(i), Big);
       || f in SectionRecord(t.At(i))
       || (h.stype in {SHT_SYMTAB, SHT_RELA} && exists j: nat :: j < h.Count() && InEntry(|d|, h, j, f))
  }

  lemma {:induction false} FieldsOfSections(d: seq<byte>, t: Table, i: nat, f: Field)
    ensures f in SectionFields(d, t, i) <==> exists k: nat :: i <= k < t.num && InSection(d, t, k, f)
    decreases t.num - i
  {
    hide HeadAt, SectionRecord, EntryFields, InSection;
    if i < t.num && t.At(i) + SHDR <= |d| {
      FieldsOfSections(d, t, i + 1, f);
      FieldsOfOne(d, t, i, f);
    } else {
      forall k: nat | i <= k < t.num
        ensures !InSection(d, t, k, f)
      {
        Beyond(d, t, i, k, f);
      }
    }
  }

  lemma Beyond(d: seq<byte>, t: Table, i: nat, k: nat, f: Field)
    requires i <= k < t.num && t.At(i) + SHDR > |d|
    ensures !InSection(d, t, k, f)
  {
    MulMore(i, k, t.entsize);
  }

  lemma FieldsOfOne(d: seq<byte>, t: Table, i: nat, f: Field)
    requires i < t.num && t.At(i) + SHDR <= |d|
    ensures InSection(d, t, i, f)
       <==> f in SectionRecord(t.At(i)) + EntryFields(|d|, HeadAt(d, t.At(i), Big), 0)
  {
    hide HeadAt, InEntry;
    var h := HeadAt(d, t.At(i), Big);
    if h.Kind() != Neither { EntriesOfTable(|d|, h, 0, f); }
  }

  /** The fields of a file: those of the ELF header, of every section header in it
      and of every entry of a symbol or relocation table in it. */
  lemma FieldsOfObject(d: seq<byte>, f: Field)
    requires |d| >= EHDR
    ensures f in Fields(d)
       <==> f in HEADER || exists k: nat :: k < SectionTable(d, Big).num && InSection(d, SectionTable(d, Big), k, f)
  {
    hide SectionTable, InSection;
    var t := SectionTable(d, Big);
    FieldsOfSections(d, t, 0, f);
  }

  // -------------------------------------------------------- which files are read

  /** e_ident of a 32-bit object. */
  predicate IsIdent(d: seq<byte>)
  {
    && |d| >= EHDR && d[0] == 0x7F && d[1] == 'E' as int && d[2] == 'L' as int && d[3] == 'F' as int
    && d[4] == ELFCLASS32
  }

  const ELFCLASS32: nat := 1
  const ELFDATA2LSB: nat := 1
  const ELFDATA2MSB: nat := 2

  /** What the converter goes on with, whatever its byte order. */
  lemma ConvertsObjects(d: seq<byte>)
    ensures Accepts(d).Written? <==> IsIdent(d)
    ensures Accepts(d).Raised? <==> |d| < EHDR && |d| >= 4 && d[..4] == [0x7F, 'E' as int, 'L' as int, 'F' as int]
                                    && (|d| > 4 ==> d[4] == ELFCLASS32)
  {
    if |d| >= 4 { assert d[..4] == [d[0], d[1], d[2], d[3]]; }
  }

  /** What the upper-casing reads, and in which order: an object whose section
      headers, if there are any, are long enough and end in the file. */
  lemma UppercasesObjects(d: seq<byte>, order: Order)
    ensures OrderOf(d) == Some(order)
       <==> IsIdent(d) && d[5] == (if order == Little then ELFDATA2LSB else ELFDATA2MSB)
            && var t := SectionTable(d, order);
               (t.num == 0 || t.entsize >= SHDR) && t.off + t.num * t.entsize <= |d|
  {
    hide SectionTable;
    if |d| >= 4 { assert d[..4] == [d[0], d[1], d[2], d[3]]; }
  }
}
