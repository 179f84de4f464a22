/** Upper-casing and re-encoding an object, in either order. */
module ElfCommute {
  import opened Bits
  import opened Elf
  import opened ElfConvert
  import opened ElfUpper
  import opened Wrappers

  /** The string tables overlap neither the ELF header nor a field. */
  predicate StringsApart(d: seq<byte>, fs: seq<Field>)
    requires |d| >= EHDR
  {
    forall i :: 0 <= i < |fs| ==> fs[i].lo >= EHDR && AllApart(fs[i], Fields(d))
  }

  /** A file both scripts take: 32-bit, big-endian, no overlaps. */
  predicate Convertible(d: seq<byte>)
  {
    && Accepts(d) == Written && OrderOf(d) == Some(Big) && FieldsApart(d)
    && (StringsOf(d).Some? ==> StringsApart(d, StringsOf(d).value))
  }

  lemma StringsMissFields(d: seq<byte>, fs: seq<Field>, i: nat, k: int)
    requires |d| >= EHDR && StringsApart(d, fs) && i < |Fields(d)| && Fields(d)[i].Has(k)
    ensures !InSome(fs, k)
  {
    hide Fields;
    forall j | 0 <= j < |fs|
      ensures !fs[j].Has(k)
    {
      assert AllApart(fs[j], Fields(d)) && fs[j].Apart(Fields(d)[i]);
    }
  }

  lemma StringsMissHeader(fs: seq<Field>, k: int, d: seq<byte>)
    requires |d| >= EHDR && StringsApart(d, fs) && k < EHDR
    ensures !InSome(fs, k)
  {
    hide Fields;
  }

  // ---------------------------------------------- what the re-encoding leaves

  /** The re-encoded file has the same tables in the other byte order. */
  lemma ConvertedReads(d: seq<byte>)
    requires |d| >= EHDR && FieldsApart(d)
    ensures SameRead(Converted(d), Little, d, Big, Fields(d))
    ensures SectionTable(Converted(d), Little) == SectionTable(d, Big)
  {
    hide Read, Fields, Converted, SwapAll, Prepared, PairwiseApart, Parse, SectionTable;
    ConvertedTurnsFields(d);
    NoFieldThere(d);
    forall i | 0 <= i < |Fields(d)|
      ensures Read(Converted(d), Fields(d)[i], Little) == Read(d, Fields(d)[i], Big)
    {
      TurnedField(Prepared(d), Fields(d), i);
      PreparedSame(d, i);
    }
    SameObject(Converted(d), Little, d);
  }

  lemma ConvertedHeads(d: seq<byte>, k: nat)
    requires |d| >= EHDR && FieldsApart(d) && InFile(d, SectionTable(d, Big)) && k < SectionTable(d, Big).num
    ensures HeadAt(Converted(d), SectionTable(d, Big).At(k), Little) == HeadAt(d, SectionTable(d, Big).At(k), Big)
  {
    hide Read, SectionFields, Converted, SectionTable, HeadAt, SameRead;
    var t := SectionTable(d, Big);
    ConvertedReads(d);
    HeaderFits(|d|);
    SameReadParts(Converted(d), Little, d, Big, HEADER, SectionFields(d, t, 0));
    HeadsAlike(Converted(d), Little, d, t, 0, k);
  }

  /** Its identification bytes are those of a little-endian object. */
  lemma ConvertedOrder(d: seq<byte>)
    requires Accepts(d) == Written && OrderOf(d) == Some(Big) && FieldsApart(d)
    ensures OrderOf(Converted(d)) == Some(Little)
  {
    hide Fields, Converted, SectionTable, FieldsApart, InField;
    ConvertedBytes(d);
    ConvertedReads(d);
    var c := Converted(d);
    forall k | 0 <= k < 5
      ensures c[k] == d[k]
    {
      NoFieldBefore(d, k);
    }
    assert c[..4] == d[..4];
  }

  lemma NoFieldBefore(d: seq<byte>, k: int)
    requires |d| >= EHDR && FieldsApart(d) && 0 <= k < 16
    ensures !InField(Fields(d), k)
  {
    hide SectionFields, PairwiseApart;
    var fs, rest := Fields(d), SectionFields(d, SectionTable(d, Big), 0);
    forall i | 0 <= i < |fs|
      ensures !fs[i].Has(k)
    {
      if i >= |HEADER| {
        assert fs[i] == rest[i - |HEADER|];
        assert Field(0, EHDR).Apart(rest[i - |HEADER|]);
      } else {
        assert fs[i] == HEADER[i];
      }
    }
  }

  // --------------------------------------------------- the same string tables

  /** Files whose section headers say the same have the same string tables. */
  predicate HeadsSame(a: seq<byte>, oa: Order, b: seq<byte>, ob: Order, t: Table)
    requires |a| == |b| && InFile(b, t)
  {
    forall k: nat :: k < t.num ==> HeadAt(a, t.At(k), oa) == HeadAt(b, t.At(k), ob)
  }

  lemma {:induction false} SameLinks(a: seq<byte>, oa: Order, b: seq<byte>, ob: Order, t: Table, n: nat)
    requires |a| == |b| && InFile(a, t) && InFile(b, t) && HeadsSame(a, oa, b, ob, t) && n <= t.num
    ensures Links(a, t, oa, n) == Links(b, t, ob, n)
  {
    hide HeadAt;
    if n > 0 { SameLinks(a, oa, b, ob, t, n - 1); }
  }

  lemma {:induction false} SameStrings(a: seq<byte>, oa: Order, b: seq<byte>, ob: Order, t: Table, links: seq<nat>)
    requires |a| == |b| && InFile(a, t) && InFile(b, t) && HeadsSame(a, oa, b, ob, t)
    ensures Strings(a, t, oa, links) == Strings(b, t, ob, links)
  {
    hide HeadAt;
    if links != [] { SameStrings(a, oa, b, ob, t, links[..|links| - 1]); }
  }

  lemma ConvertedStrings(d: seq<byte>)
    requires Accepts(d) == Written && OrderOf(d) == Some(Big) && FieldsApart(d)
    ensures StringsOf(Converted(d)) == StringsOf(d)
  {
    hide Converted, SectionTable, FieldsApart, HeadAt, Links, Strings, OrderOf, Accepts, Fields, SameRead;
    var c, t := Converted(d), SectionTable(d, Big);
    ConvertedOrder(d);
    ConvertedReads(d);
    HeadersInFile(d);
    HeadersInFile(c);
    forall k: nat | k < t.num
      ensures HeadAt(c, t.At(k), Little) == HeadAt(d, t.At(k), Big)
    {
      ConvertedHeads(d, k);
    }
    SameLinks(c, Little, d, Big, t, t.num);
    SameStrings(c, Little, d, Big, t, Links(d, t, Big, t.num));
  }

  // ------------------------------------------------- what upper-casing leaves

  /** Upper-casing changes no field. */
  lemma UppercasedReads(d: seq<byte>, fs: seq<Field>)
    requires |d| >= EHDR && AllFit(fs, |d|) && StringsApart(d, fs)
    ensures SameRead(UpAll(d, fs), Big, d, Big, Fields(d))
  {
    hide Fields, UpAll, BigValue;
    var u := UpAll(d, fs);
    forall i | 0 <= i < |Fields(d)|
      ensures Read(u, Fields(d)[i], Big) == Read(d, Fields(d)[i], Big)
    {
      var f := Fields(d)[i];
      forall k | f.lo <= k < f.lo + f.len
        ensures u[k] == d[k]
      {
        UppercasedBytes(d, fs, k);
        StringsMissFields(d, fs, i, k);
      }
      assert u[f.lo..f.lo + f.len] == d[f.lo..f.lo + f.len];
    }
  }

  /** The object is the same but for its names. */
  lemma UpperKeepsObject(d: seq<byte>)
    requires Convertible(d) && StringsOf(d).Some?
    ensures Parse(Uppercased(d).value, Big) == Parse(d, Big)
    ensures Fields(Uppercased(d).value) == Fields(d) && FieldsApart(Uppercased(d).value)
  {
    hide Fields, UpAll, Read, SectionFields, PairwiseApart, AllApart, OrderOf, Accepts, Sections, ReadAll;
    var fs := StringsOf(d).value;
    var u := UpAll(d, fs);
    UppercasedReads(d, fs);
    SameObject(u, Big, d);
    SameFields(u, d);
    assert Read(u, MACHINE, Big) == Read(d, MACHINE, Big) by { MachineKept(d, fs); }
    assert FieldsApart(u) by { SameSectionsApart(u, d); }
  }

  lemma MachineKept(d: seq<byte>, fs: seq<Field>)
    requires |d| >= EHDR && AllFit(fs, |d|) && StringsApart(d, fs)
    ensures Read(UpAll(d, fs), MACHINE, Big) == Read(d, MACHINE, Big)
  {
    hide Fields, UpAll;
    forall k | 18 <= k < 20
      ensures UpAll(d, fs)[k] == d[k]
    {
      UppercasedBytes(d, fs, k);
      StringsMissHeader(fs, k, d);
    }
    assert UpAll(d, fs)[18..20] == d[18..20];
  }

  lemma SameSectionsApart(u: seq<byte>, d: seq<byte>)
    requires |u| == |d| >= EHDR && Fields(u) == Fields(d) && FieldsApart(d)
    ensures FieldsApart(u)
  {
    hide SectionFields, PairwiseApart;
    var a, b := SectionFields(u, SectionTable(u, Big), 0), SectionFields(d, SectionTable(d, Big), 0);
    assert HEADER + a == HEADER + b;
    assert a == (HEADER + a)[|HEADER|..] == (HEADER + b)[|HEADER|..] == b;
  }

  // ------------------------------------------------------------- commutation

  /** A file the one script takes, the other takes afterwards, and the order
      makes no difference to a byte. */
  lemma ConvertAndUpperCommute(d: seq<byte>)
    ensures Convertible(d) ==> (Uppercased(d).Some? <==> Uppercased(Converted(d)).Some?)
    ensures Convertible(d) && Uppercased(d).Some? ==>
              Accepts(Uppercased(d).value) == Written
              && Uppercased(Converted(d)).value == Converted(Uppercased(d).value)
  {
    hide Converted, FieldsApart, OrderOf, UpAll, Fields;
    if Convertible(d) {
      ConvertedStrings(d);
      if StringsOf(d).Some? { CommuteBytes(d, StringsOf(d).value); }
    }
  }

  lemma CommuteBytes(d: seq<byte>, fs: seq<Field>)
    requires Convertible(d) && StringsOf(d) == Some(fs)
    ensures Accepts(UpAll(d, fs)) == Written
    ensures UpAll(Converted(d), fs) == Converted(UpAll(d, fs))
  {
    hide Converted, FieldsApart, OrderOf, UpAll, Fields;
    var u, c := UpAll(d, fs), Converted(d);
    UpperKeepsObject(d);
    Identified(d, fs);
    forall k | 0 <= k < |d|
      ensures UpAll(c, fs)[k] == Converted(u)[k]
    {
      SameByte(d, fs, k);
    }
    assert UpAll(c, fs) == Converted(u);
  }

  lemma Identified(d: seq<byte>, fs: seq<Field>)
    requires Accepts(d) == Written && AllFit(fs, |d|) && StringsApart(d, fs)
    ensures Accepts(UpAll(d, fs)) == Written
  {
    hide Fields, UpAll;
    var u := UpAll(d, fs);
    forall k | 0 <= k < 5
      ensures u[k] == d[k]
    {
      UppercasedBytes(d, fs, k);
      StringsMissHeader(fs, k, d);
    }
    assert u[..4] == d[..4];
  }

  lemma SameByte(d: seq<byte>, fs: seq<Field>, k: nat)
    requires |d| >= EHDR && FieldsApart(d) && AllFit(fs, |d|) && StringsApart(d, fs) && k < |d|
    requires Fields(UpAll(d, fs)) == Fields(d) && FieldsApart(UpAll(d, fs))
    ensures UpAll(Converted(d), fs)[k] == Converted(UpAll(d, fs))[k]
  {
    hide Converted, FieldsApart, Fields, UpAll;
    var u, c, gs := UpAll(d, fs), Converted(d), Fields(d);
    ConvertedBytes(d);
    ConvertedBytes(u);
    UppercasedBytes(c, fs, k);
    UppercasedBytes(d, fs, k);
    if InField(gs, k) {
      var i :| 0 <= i < |gs| && gs[i].Has(k);
      assert Turns(d, c, gs[i], k) && Turns(u, Converted(u), gs[i], k);
      StringsMissFields(d, fs, i, k);
      StringsMissFields(d, fs, i, gs[i].Mirror(k));
      UppercasedBytes(d, fs, gs[i].Mirror(k));
    } else if k < EHDR {
      StringsMissHeader(fs, k, d);
    }
  }
}
