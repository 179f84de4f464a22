/** Where the tables of an object may be so that no field overlaps another. */
module ElfTables {
  import opened Bits
  import opened Elf

  predicate Present(d: seq<byte>, t: Table, i: nat) { i < t.num && t.At(i) + SHDR <= |d| }

  function HeaderRange(t: Table, i: nat): Field { Field(t.At(i), SHDR) }

  /** The entries of section I; none if it is no symbol or relocation table or an
      empty one. */
  function EntryRange(d: seq<byte>, t: Table, i: nat): Field
    requires Present(d, t, i)
  {
    var h := HeadAt(d, t.At(i), Big);
    if h.Kind() == Neither || h.Count() == 0 then Field(0, 0) else Field(h.offset, h.Count() * h.entsize)
  }

  /** The entries are as long as the ABI's records and behind the ELF header. */
  predicate Regular(h: Head)
  {
    h.Kind() == Neither || h.Count() == 0 || (h.entsize >= h.Kind().Size() && h.offset >= EHDR)
  }

  /** Section headers as long as the ABI's, and tables that do not overlap. */
  predicate Separate(d: seq<byte>, t: Table)
  {
    && t.entsize >= SHDR && t.off >= EHDR
    && (forall i: nat :: i < t.num && Present(d, t, i) ==> Regular(HeadAt(d, t.At(i), Big)))
    && (forall i: nat, j: nat :: i < t.num && j < t.num && Present(d, t, i) && Present(d, t, j) ==>
          EntryRange(d, t, i).Apart(HeaderRange(t, j)))
    && (forall i: nat, j: nat :: i < j < t.num && Present(d, t, i) && Present(d, t, j) ==>
          EntryRange(d, t, i).Apart(EntryRange(d, t, j)))
  }

  predicate Within(f: Field, r: Field) { r.lo <= f.lo && f.lo + f.len <= r.lo + r.len }

  predicate AllWithin(fs: seq<Field>, r: Field) { forall i :: 0 <= i < |fs| ==> Within(fs[i], r) }

  lemma JoinApart(a: seq<Field>, b: seq<Field>)
    requires PairwiseApart(a) && PairwiseApart(b) && forall i :: 0 <= i < |a| ==> AllApart(a[i], b)
    ensures PairwiseApart(a + b)
  {
    var fs := a + b;
    forall i, j | 0 <= i < j < |fs|
      ensures fs[i].Apart(fs[j])
    {
      if j < |a| { assert a[i].Apart(a[j]); }
      else if i < |a| { assert AllApart(a[i], b) && a[i].Apart(b[j - |a|]); }
      else { assert b[i - |a|].Apart(b[j - |a|]); }
    }
  }

  /** A record's fields lie in it and apart. */
  lemma RecordOf(k: Kind, lo: nat)
    ensures AllWithin(k.Record(lo), Field(lo, k.Size())) && PairwiseApart(k.Record(lo))
  {
  }

  /** Entries that are long enough lie behind each other. */
  lemma {:induction false} EntriesApart(n: nat, h: Head, j: nat)
    requires h.Kind() != Neither && (h.Count() == 0 || h.entsize >= h.Kind().Size()) && j <= h.Count()
    ensures AllWithin(EntryFields(n, h, j), Field(h.offset + j * h.entsize, (h.Count() - j) * h.entsize))
    ensures PairwiseApart(EntryFields(n, h, j))
    decreases h.Count() - j
  {
    hide PairwiseApart, Kind.Record, Kind.Size, Head.Kind, Head.Count;
    var lo := h.offset + j * h.entsize;
    if j < h.Count() && lo + h.Kind().Size() <= n {
      var rec, rest := h.Kind().Record(lo), EntryFields(n, h, j + 1);
      RecordOf(h.Kind(), lo);
      EntriesApart(n, h, j + 1);
      MulStep(j, h.Count(), h.entsize);
      assert (h.Count() - j) * h.entsize == (h.Count() - (j + 1)) * h.entsize + h.entsize;
      JoinApart(rec, rest);
    } else {
      NoneApart(Field(0, 0));
    }
  }

  /** R keeps clear of all sections from the I-th on. */
  predicate Clear(r: Field, d: seq<byte>, t: Table, i: nat)
  {
    && (forall k: nat :: i <= k < t.num && Present(d, t, k) ==> r.Apart(HeaderRange(t, k)))
    && (forall k: nat :: i <= k < t.num && Present(d, t, k) ==> r.Apart(EntryRange(d, t, k)))
  }

  lemma HeaderRecordOf(lo: nat)
    ensures AllWithin(SectionRecord(lo), Field(lo, SHDR)) && PairwiseApart(SectionRecord(lo))
  {
  }

  lemma WithinApart(f: Field, r: Field, fs: seq<Field>)
    requires r.Apart(f) && AllWithin(fs, f)
    ensures AllApart(r, fs)
  {
  }

  /** The entries of a section lie in its range and apart. */
  lemma EntriesOf(d: seq<byte>, t: Table, i: nat)
    requires Present(d, t, i) && Regular(HeadAt(d, t.At(i), Big))
    ensures AllWithin(EntryFields(|d|, HeadAt(d, t.At(i), Big), 0), EntryRange(d, t, i))
    ensures PairwiseApart(EntryFields(|d|, HeadAt(d, t.At(i), Big), 0))
  {
    hide PairwiseApart, HeadAt;
    var h := HeadAt(d, t.At(i), Big);
    if h.Kind() == Neither || h.Count() == 0 { NoneApart(Field(0, 0)); } else { EntriesApart(|d|, h, 0); }
  }

  lemma ApartFromAll(r: Field, a: seq<Field>, b: seq<Field>)
    requires AllApart(r, a) && AllApart(r, b)
    ensures AllApart(r, a + b)
  {
  }

  /** What keeps clear of the sections is apart from their fields. */
  lemma {:induction false} ClearOfFields(r: Field, d: seq<byte>, t: Table, i: nat)
    requires Separate(d, t) && Clear(r, d, t, i)
    ensures AllApart(r, SectionFields(d, t, i))
    decreases t.num - i
  {
    hide AllApart, AllWithin, PairwiseApart, SectionRecord, EntryFields, HeadAt, EntryRange, HeaderRange, Field.Apart;
    if Present(d, t, i) {
      var lo := t.At(i);
      HeaderRecordOf(lo);
      EntriesOf(d, t, i);
      assert HeaderRange(t, i) == Field(lo, SHDR) by { HeaderRangeIs(t, i); }
      WithinApart(HeaderRange(t, i), r, SectionRecord(lo));
      WithinApart(EntryRange(d, t, i), r, EntryFields(|d|, HeadAt(d, lo, Big), 0));
      ClearOfFields(r, d, t, i + 1);
      ApartFromAll(r, SectionRecord(lo), EntryFields(|d|, HeadAt(d, lo, Big), 0));
      ApartFromAll(r, SectionRecord(lo) + EntryFields(|d|, HeadAt(d, lo, Big), 0), SectionFields(d, t, i + 1));
    } else {
      NoneApart(r);
    }
  }

  lemma HeaderRangeIs(t: Table, i: nat)
    ensures HeaderRange(t, i) == Field(t.At(i), SHDR)
  {
  }

  lemma NoneApart(r: Field)
    ensures AllApart(r, []) && PairwiseApart([])
  {
  }

  /** Section I keeps clear of the later ones. */
  lemma ClearOfLater(d: seq<byte>, t: Table, i: nat)
    requires Separate(d, t) && Present(d, t, i)
    ensures Clear(HeaderRange(t, i), d, t, i + 1) && Clear(EntryRange(d, t, i), d, t, i + 1)
  {
    hide HeadAt, EntryRange;
    forall k: nat | i < k < t.num && Present(d, t, k)
      ensures HeaderRange(t, i).Apart(HeaderRange(t, k))
      ensures HeaderRange(t, i).Apart(EntryRange(d, t, k))
      ensures EntryRange(d, t, i).Apart(HeaderRange(t, k))
      ensures EntryRange(d, t, i).Apart(EntryRange(d, t, k))
    {
      MulStep(i, k, t.entsize);
      assert EntryRange(d, t, k).Apart(HeaderRange(t, i));
    }
  }

  /** A part of a range is apart from what the range is apart from. */
  lemma PartApart(f: Field, r: Field, fs: seq<Field>)
    requires Within(f, r) && AllApart(r, fs)
    ensures AllApart(f, fs)
  {
  }

  lemma {:induction false} SectionsApart(d: seq<byte>, t: Table, i: nat)
    requires Separate(d, t)
    ensures PairwiseApart(SectionFields(d, t, i))
    decreases t.num - i
  {
    hide AllApart, AllWithin, PairwiseApart, SectionRecord, EntryFields, HeadAt, EntryRange, Field.Apart;
    if Present(d, t, i) {
      var lo := t.At(i);
      var rec, ent, rest := SectionRecord(lo), EntryFields(|d|, HeadAt(d, lo, Big), 0), SectionFields(d, t, i + 1);
      HeaderRecordOf(lo);
      EntriesOf(d, t, i);
      SectionsApart(d, t, i + 1);
      ClearOfLater(d, t, i);
      ClearOfFields(HeaderRange(t, i), d, t, i + 1);
      ClearOfFields(EntryRange(d, t, i), d, t, i + 1);
      assert EntryRange(d, t, i).Apart(HeaderRange(t, i));
      AcrossApart(rec, HeaderRange(t, i), ent, EntryRange(d, t, i));
      PartsOfApart(rec, HeaderRange(t, i), rest);
      PartsOfApart(ent, EntryRange(d, t, i), rest);
      JoinApart(rec, ent);
      BothApart(rec, ent, rest);
      JoinApart(rec + ent, rest);
    } else {
      NoneApart(Field(0, 0));
    }
  }

  lemma AcrossApart(a: seq<Field>, ra: Field, b: seq<Field>, rb: Field)
    requires AllWithin(a, ra) && AllWithin(b, rb) && rb.Apart(ra)
    ensures forall i :: 0 <= i < |a| ==> AllApart(a[i], b)
  {
  }

  lemma PartsOfApart(a: seq<Field>, r: Field, fs: seq<Field>)
    requires AllWithin(a, r) && AllApart(r, fs)
    ensures forall i :: 0 <= i < |a| ==> AllApart(a[i], fs)
  {
    forall i | 0 <= i < |a|
      ensures AllApart(a[i], fs)
    {
      PartApart(a[i], r, fs);
    }
  }

  lemma BothApart(a: seq<Field>, b: seq<Field>, fs: seq<Field>)
    requires forall i :: 0 <= i < |a| ==> AllApart(a[i], fs)
    requires forall i :: 0 <= i < |b| ==> AllApart(b[i], fs)
    ensures forall i :: 0 <= i < |a + b| ==> AllApart((a + b)[i], fs)
  {
    hide AllApart;
  }

  lemma HeaderFieldsIn()
    ensures AllWithin(HEADER, Field(0, EHDR))
  {
  }

  /** Tables that do not overlap have fields that do not. */
  lemma SeparateTablesApart(d: seq<byte>)
    requires |d| >= EHDR && Separate(d, SectionTable(d, Big))
    ensures FieldsApart(d)
  {
    hide AllApart, AllWithin, PairwiseApart, SectionFields, SectionTable, HeadAt, EntryRange;
    var t := SectionTable(d, Big);
    HeaderFieldsIn();
    assert PairwiseApart(HEADER) by { HeaderFieldsApart(); }
    SectionsApart(d, t, 0);
    assert Clear(Field(0, EHDR), d, t, 0) by { BehindHeader(d, t); }
    ClearOfFields(Field(0, EHDR), d, t, 0);
    PartsOfApart(HEADER, Field(0, EHDR), SectionFields(d, t, 0));
    JoinApart(HEADER, SectionFields(d, t, 0));
  }

  lemma BehindHeader(d: seq<byte>, t: Table)
    requires Separate(d, t)
    ensures Clear(Field(0, EHDR), d, t, 0)
  {
    hide HeadAt;
    forall k: nat | k < t.num && Present(d, t, k)
      ensures Field(0, EHDR).Apart(EntryRange(d, t, k))
    {
      assert Regular(HeadAt(d, t.At(k), Big));
    }
  }
}
