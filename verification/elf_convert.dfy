/** Re-encoding a big-endian i51 object as a little-endian one, in place. */
module ElfConvert {
  import opened Bits
  import opened Elf

  // --------------------------------------------------------- turning fields

  function Swap(d: seq<byte>, f: Field): (r: seq<byte>)
    requires f.Fits(|d|)
    ensures |r| == |d|
    ensures forall k :: 0 <= k < |d| ==> r[k] == if f.Has(k) then d[f.Mirror(k)] else d[k]
  {
    seq(|d|, k requires 0 <= k < |d| => if f.Has(k) then d[f.Mirror(k)] else d[k])
  }

  function SwapAll(d: seq<byte>, fs: seq<Field>): (r: seq<byte>)
    requires AllFit(fs, |d|)
    ensures |r| == |d|
  {
    if fs == [] then d else Swap(SwapAll(d, fs[..|fs| - 1]), fs[|fs| - 1])
  }

  lemma {:induction false} SwapAllTogether(d: seq<byte>, a: seq<Field>, b: seq<Field>)
    requires AllFit(a, |d|) && AllFit(b, |d|)
    ensures AllFit(a + b, |d|) && SwapAll(SwapAll(d, a), b) == SwapAll(d, a + b)
  {
    if b == [] {
      assert a + b == a;
    } else {
      var front, f := b[..|b| - 1], b[|b| - 1];
      SwapAllTogether(d, a, front);
      assert (a + b)[..|a + b| - 1] == a + front;
    }
  }

  /** A byte of no field stays. */
  lemma {:induction false} Outside(d: seq<byte>, fs: seq<Field>, k: nat)
    requires AllFit(fs, |d|) && k < |d| && forall i :: 0 <= i < |fs| ==> !fs[i].Has(k)
    ensures SwapAll(d, fs)[k] == d[k]
  {
    if fs != [] { Outside(d, fs[..|fs| - 1], k); }
  }

  /** A byte of a field goes to its mirror place, whatever other fields do. */
  lemma {:induction false} Inside(d: seq<byte>, fs: seq<Field>, i: nat, k: nat)
    requires AllFit(fs, |d|) && PairwiseApart(fs) && i < |fs| && k < |d| && fs[i].Has(k)
    ensures SwapAll(d, fs)[k] == d[fs[i].Mirror(k)]
  {
    var n := |fs| - 1;
    if i < n {
      assert fs[i].Apart(fs[n]);
      Inside(d, fs[..n], i, k);
    } else {
      var m := fs[n].Mirror(k);
      forall j | 0 <= j < n
        ensures !fs[..n][j].Has(m)
      {
        assert fs[j].Apart(fs[n]);
      }
      Outside(d, fs[..n], m);
    }
  }

  predicate Reversed(s: seq<byte>, t: seq<byte>)
  {
    |t| == |s| && forall k :: 0 <= k < |s| ==> t[k] == s[|s| - 1 - k]
  }

  lemma {:induction false} LittleOfTurned(s: seq<byte>, t: seq<byte>)
    requires Reversed(s, t)
    ensures LittleValue(t) == BigValue(s)
  {
    if s != [] {
      LittleOfTurned(s[..|s| - 1], t[1..]);
      assert t[0] == s[|s| - 1];
    }
  }

  /** A field turned around says little-endian what it said big-endian. */
  lemma TurnedField(d: seq<byte>, fs: seq<Field>, i: nat)
    requires AllFit(fs, |d|) && PairwiseApart(fs) && i < |fs|
    ensures Read(SwapAll(d, fs), fs[i], Little) == Read(d, fs[i], Big)
  {
    hide SwapAll, PairwiseApart, LittleValue, BigValue;
    var f, r := fs[i], SwapAll(d, fs);
    var s, t := d[f.lo..f.lo + f.len], r[f.lo..f.lo + f.len];
    TurnedBytes(d, fs, i);
    LittleOfTurned(s, t);
  }

  lemma TurnedBytes(d: seq<byte>, fs: seq<Field>, i: nat)
    requires AllFit(fs, |d|) && PairwiseApart(fs) && i < |fs|
    ensures var f := fs[i];
            Reversed(d[f.lo..f.lo + f.len], SwapAll(d, fs)[f.lo..f.lo + f.len])
  {
    hide SwapAll, PairwiseApart;
    var f, r := fs[i], SwapAll(d, fs);
    forall k | f.lo <= k < f.lo + f.len
      ensures r[k] == d[f.Mirror(k)]
    {
      Inside(d, fs, i, k);
    }
    var s, t := d[f.lo..f.lo + f.len], r[f.lo..f.lo + f.len];
    forall k | 0 <= k < |s|
      ensures t[k] == s[|s| - 1 - k]
    {
      assert r[f.lo + k] == d[f.Mirror(f.lo + k)];
    }
  }

  /** A field apart from those turned around is read as before. */
  lemma UntouchedField(d: seq<byte>, fs: seq<Field>, f: Field, order: Order)
    requires AllFit(fs, |d|) && f.Fits(|d|) && AllApart(f, fs)
    ensures Read(SwapAll(d, fs), f, order) == Read(d, f, order)
  {
    var r := SwapAll(d, fs);
    forall k | f.lo <= k < f.lo + f.len
      ensures r[k] == d[k]
    {
      Outside(d, fs, k);
    }
    assert r[f.lo..f.lo + f.len] == d[f.lo..f.lo + f.len];
  }

  // ------------------------------------------------------------ what is written

  datatype Outcome = Written | Rejected | Raised

  /** What the checks and the first reads make of a file. */
  function Accepts(d: seq<byte>): Outcome
  {
    if |d| < 4 || d[..4] != [0x7F, 0x45, 0x4C, 0x46] then Rejected
    else if |d| == 4 then Raised
    else if d[4] != 1 then Rejected
    else if |d| < EHDR then Raised
    else Written
  }

  /** EI_DATA and e_machine, which are not re-encoded but written anew. */
  function Prepared(d: seq<byte>): (r: seq<byte>)
    requires |d| >= EHDR
    ensures |r| == |d|
  {
    d[5 := 1][18 := 165][19 := 0]
  }

  /** The sections from the I-th on, in the bytes as the earlier ones left them. */
  function ConvertSections(d: seq<byte>, t: Table, i: nat): (r: seq<byte>)
    ensures |r| == |d|
    decreases t.num - i
  {
    if i >= t.num || t.At(i) + SHDR > |d| then d
    else
      var h := HeadAt(d, t.At(i), Big);
      RecordFits(t.At(i), |d|);
      var e := SwapAll(SwapAll(d, SectionRecord(t.At(i))), EntryFields(|d|, h, 0));
      ConvertSections(e, t, i + 1)
  }

  function Converted(d: seq<byte>): (r: seq<byte>)
    requires |d| >= EHDR
    ensures |r| == |d|
  {
    ConvertSections(SwapAll(Prepared(d), HEADER), SectionTable(d, Big), 0)
  }

  // ------------------------------------------------------------- the rewrite

  /** struct.unpack ('>H') and struct.pack ('<H') in place. */
  method Swap16(data: array<byte>, off: nat) returns (v: nat)
    requires off + 2 <= data.Length
    modifies data
    ensures data[..] == Swap(old(data[..]), Field(off, 2))
    ensures v == Read(old(data[..]), Field(off, 2), Big)
  {
    ghost var d := data[..];
    TwoBytes(d[off], d[off + 1]);
    assert d[off..off + 2] == [d[off], d[off + 1]];
    var b0: int, b1: int := data[off], data[off + 1];
    v := b0 * 0x100 + b1;
    data[off], data[off + 1] := v % 0x100, v / 0x100;
  }

  lemma BigSnoc(s: seq<byte>, b: byte)
    ensures BigValue(s + [b]) == BigValue(s) * 0x100 + b
  {
    assert (s + [b])[..|s|] == s;
  }

  lemma TwoBytes(a: byte, b: byte)
    ensures BigValue([a, b]) == (a as int) * 0x100 + b
  {
    BigSnoc([], a);
    BigSnoc([a], b);
    assert [] + [a] == [a] && [a] + [b] == [a, b];
  }

  lemma FourBytes(a: byte, b: byte, c: byte, e: byte)
    ensures BigValue([a, b, c, e]) == (((a as int) * 0x100 + b) * 0x100 + c) * 0x100 + e
  {
    TwoBytes(a, b);
    BigSnoc([a, b], c);
    BigSnoc([a, b, c], e);
    assert [a, b] + [c] == [a, b, c] && [a, b, c] + [e] == [a, b, c, e];
  }

  /** The bytes of a word are found again by division. */
  lemma WordBytes(b0: int, b1: int, b2: int, b3: int)
    requires 0 <= b0 < 0x100 && 0 <= b1 < 0x100 && 0 <= b2 < 0x100 && 0 <= b3 < 0x100
    ensures var v := ((b0 * 0x100 + b1) * 0x100 + b2) * 0x100 + b3;
            v % 0x100 == b3 && v / 0x100 % 0x100 == b2 && v / 0x10000 % 0x100 == b1 && v / 0x1000000 == b0
  {
  }

  /** struct.unpack ('>I') and struct.pack ('<I') in place. */
  method Swap32(data: array<byte>, off: nat) returns (v: nat)
    requires off + 4 <= data.Length
    modifies data
    ensures data[..] == Swap(old(data[..]), Field(off, 4))
    ensures v == Read(old(data[..]), Field(off, 4), Big)
  {
    ghost var d := data[..];
    FourBytes(d[off], d[off + 1], d[off + 2], d[off + 3]);
    assert d[off..off + 4] == [d[off], d[off + 1], d[off + 2], d[off + 3]];
    var b0: int, b1: int, b2: int, b3: int := data[off], data[off + 1], data[off + 2], data[off + 3];
    v := ((b0 * 0x100 + b1) * 0x100 + b2) * 0x100 + b3;
    WordBytes(b0, b1, b2, b3);
    data[off], data[off + 1], data[off + 2], data[off + 3] :=
      v % 0x100, v / 0x100 % 0x100, v / 0x10000 % 0x100, v / 0x1000000;
  }

  /** The fields of a record are turned around one after the other: the K-th one
      is still as it was. */
  lemma NextField(d: seq<byte>, fs: seq<Field>, k: nat)
    requires AllFit(fs, |d|) && PairwiseApart(fs) && k < |fs|
    ensures AllFit(fs[..k], |d|) && AllFit(fs[..k + 1], |d|)
    ensures SwapAll(d, fs[..k + 1]) == Swap(SwapAll(d, fs[..k]), fs[k])
    ensures Read(SwapAll(d, fs[..k]), fs[k], Big) == Read(d, fs[k], Big)
  {
    hide Read, SwapAll, Swap;
    NextSwap(d, fs, k);
    forall i | 0 <= i < k
      ensures fs[k].Apart(fs[..k][i])
    {
      assert fs[i].Apart(fs[k]);
    }
    UntouchedField(d, fs[..k], fs[k], Big);
  }

  lemma NextSwap(d: seq<byte>, fs: seq<Field>, k: nat)
    requires AllFit(fs, |d|) && k < |fs|
    ensures SwapAll(d, fs[..k + 1]) == Swap(SwapAll(d, fs[..k]), fs[k])
  {
    hide Swap;
    assert fs[..k + 1][..k] == fs[..k];
  }

  /** The first K fields of a record of D have been turned around. */
  ghost predicate Turned(data: array<byte>, d: seq<byte>, fs: seq<Field>, k: nat)
    reads data
  {
    k <= |fs| && AllFit(fs, |d|) && PairwiseApart(fs) && AllFit(fs[..k], |d|) && data[..] == SwapAll(d, fs[..k])
  }

  method Next32(data: array<byte>, off: nat, ghost d: seq<byte>, ghost fs: seq<Field>, ghost k: nat) returns (v: nat)
    requires Turned(data, d, fs, k) && k < |fs| && fs[k] == Field(off, 4)
    modifies data
    ensures Turned(data, d, fs, k + 1) && v == Read(d, fs[k], Big)
  {
    hide SwapAll, PairwiseApart, Read;
    NextField(d, fs, k);
    v := Swap32(data, off);
  }

  method Next16(data: array<byte>, off: nat, ghost d: seq<byte>, ghost fs: seq<Field>, ghost k: nat) returns (v: nat)
    requires Turned(data, d, fs, k) && k < |fs| && fs[k] == Field(off, 2)
    modifies data
    ensures Turned(data, d, fs, k + 1) && v == Read(d, fs[k], Big)
  {
    hide SwapAll, PairwiseApart, Read;
    NextField(d, fs, k);
    v := Swap16(data, off);
  }

  lemma StartRecord(data: array<byte>, fs: seq<Field>)
    requires AllFit(fs, data.Length) && PairwiseApart(fs)
    ensures Turned(data, data[..], fs, 0)
  {
  }

  lemma EndRecord(data: array<byte>, d: seq<byte>, fs: seq<Field>)
    requires Turned(data, d, fs, |fs|)
    ensures data[..] == SwapAll(d, fs)
  {
    assert fs[..|fs|] == fs;
  }

  lemma RecordsApart(lo: nat)
    ensures PairwiseApart(SectionRecord(lo)) && PairwiseApart(SymbolRecord(lo)) && PairwiseApart(RelaRecord(lo))
  {
  }

  method ConvertSection(data: array<byte>, off: nat) returns (h: Head)
    requires off + SHDR <= data.Length
    modifies data
    ensures AllFit(SectionRecord(off), data.Length) && data[..] == SwapAll(old(data[..]), SectionRecord(off))
    ensures h == HeadAt(old(data[..]), off, Big)
  {
    hide Turned, SwapAll, Read, PairwiseApart;
    ghost var d, fs := data[..], SectionRecord(off);
    RecordsApart(off);
    RecordFits(off, data.Length);
    StartRecord(data, fs);
    var name := Next32(data, off, d, fs, 0);
    var stype := Next32(data, off + 4, d, fs, 1);
    var flags := Next32(data, off + 8, d, fs, 2);
    var addr := Next32(data, off + 12, d, fs, 3);
    var offset := Next32(data, off + 16, d, fs, 4);
    var size := Next32(data, off + 20, d, fs, 5);
    var link := Next32(data, off + 24, d, fs, 6);
    var info := Next32(data, off + 28, d, fs, 7);
    var align := Next32(data, off + 32, d, fs, 8);
    var entsize := Next32(data, off + 36, d, fs, 9);
    EndRecord(data, d, fs);
    h := Head(stype, offset, size, link, entsize);
  }

  method ConvertSymbol(data: array<byte>, off: nat)
    requires off + SYM <= data.Length
    modifies data
    ensures AllFit(SymbolRecord(off), data.Length) && data[..] == SwapAll(old(data[..]), SymbolRecord(off))
  {
    hide Turned, SwapAll, Read, PairwiseApart;
    ghost var d, fs := data[..], SymbolRecord(off);
    RecordsApart(off);
    StartRecord(data, fs);
    var name := Next32(data, off, d, fs, 0);
    var value := Next32(data, off + 4, d, fs, 1);
    var size := Next32(data, off + 8, d, fs, 2);
    var shndx := Next16(data, off + 14, d, fs, 3);
    EndRecord(data, d, fs);
  }

  method ConvertRela(data: array<byte>, off: nat)
    requires off + RELA <= data.Length
    modifies data
    ensures AllFit(RelaRecord(off), data.Length) && data[..] == SwapAll(old(data[..]), RelaRecord(off))
  {
    hide Turned, SwapAll, Read, PairwiseApart;
    ghost var d, fs := data[..], RelaRecord(off);
    RecordsApart(off);
    StartRecord(data, fs);
    var offset := Next32(data, off, d, fs, 0);
    var info := Next32(data, off + 4, d, fs, 1);
    var addend := Next32(data, off + 8, d, fs, 2);
    EndRecord(data, d, fs);
  }

  /** The entries of a symbol or relocation table, up to the end of the file. */
  method ConvertEntries(data: array<byte>, h: Head)
    requires h.Kind() != Neither
    modifies data
    ensures data[..] == SwapAll(old(data[..]), EntryFields(data.Length, h, 0))
  {
    hide SwapAll, Read, PairwiseApart, SymbolRecord, RelaRecord;
    var count := if h.entsize > 0 then h.size / h.entsize else 0;
    var j := 0;
    ghost var d := data[..];
    ghost var done: seq<Field> := [];
    assert d == SwapAll(d, done) by { Nothing(d); }
    assert done + EntryFields(data.Length, h, 0) == EntryFields(data.Length, h, 0);
    while j < count
      invariant j <= count && AllFit(done, |d|) && data[..] == SwapAll(d, done)
      invariant done + EntryFields(data.Length, h, j) == EntryFields(data.Length, h, 0)
    {
      var off := h.offset + j * h.entsize;
      if off + h.Kind().Size() > data.Length { break; }
      ghost var now := data[..];
      if h.stype == 2 { ConvertSymbol(data, off); } else { ConvertRela(data, off); }
      SwapAllTogether(d, done, h.Kind().Record(off));
      ghost var more := EntryFields(data.Length, h, j + 1);
      assert done + (h.Kind().Record(off) + more) == (done + h.Kind().Record(off)) + more;
      done := done + h.Kind().Record(off);
      j := j + 1;
    }
    assert done + [] == done;
  }

  lemma Nothing(d: seq<byte>)
    ensures SwapAll(d, []) == d
  {
  }

  method ConvertHeader(data: array<byte>) returns (t: Table)
    requires data.Length >= EHDR
    modifies data
    ensures data[..] == SwapAll(Prepared(old(data[..])), HEADER)
    ensures t == SectionTable(old(data[..]), Big)
  {
    hide Turned, SwapAll, Read, PairwiseApart;
    ghost var d, fs := Prepared(data[..]), HEADER;
    data[5] := 1;
    var etype := Swap16(data, 16);
    var machine: int := data[18];
    machine := machine * 0x100 + data[19];
    data[18], data[19] := 165, 0;
    HeaderStarted(data, old(data[..]));
    var version := Next32(data, 20, d, fs, 1);
    var entry := Next32(data, 24, d, fs, 2);
    var phoff := Next32(data, 28, d, fs, 3);
    var shoff := Next32(data, 32, d, fs, 4);
    var flags := Next32(data, 36, d, fs, 5);
    var ehsize := Next16(data, 40, d, fs, 6);
    var phentsize := Next16(data, 42, d, fs, 7);
    var phnum := Next16(data, 44, d, fs, 8);
    var shentsize := Next16(data, 46, d, fs, 9);
    var shnum := Next16(data, 48, d, fs, 10);
    var shstrndx := Next16(data, 50, d, fs, 11);
    EndRecord(data, d, fs);
    t := Table(shoff, shentsize, shnum);
    PreparedKeeps(old(data[..]), SHOFF);
    PreparedKeeps(old(data[..]), SHENTSIZE);
    PreparedKeeps(old(data[..]), SHNUM);
  }

  /** Preparing touches EI_DATA and e_machine only. */
  lemma PreparedKeeps(d: seq<byte>, f: Field)
    requires |d| >= EHDR && f.Fits(|d|) && (f.lo >= 20 || f.len == 0)
    ensures Read(Prepared(d), f, Big) == Read(d, f, Big)
  {
    assert Prepared(d)[f.lo..f.lo + f.len] == d[f.lo..f.lo + f.len];
  }

  lemma HeaderStarted(data: array<byte>, d: seq<byte>)
    requires |d| == data.Length >= EHDR
    requires data[..] == Swap(d[5 := 1], Field(16, 2))[18 := 165][19 := 0]
    ensures Turned(data, Prepared(d), HEADER, 1)
  {
    hide HEADER, PairwiseApart;
    HeaderFieldsApart();
    HeaderFits(|d|);
    var r := Prepared(d);
    FirstField();
    assert SwapAll(r, [Field(16, 2)]) == Swap(r, Field(16, 2)) by { Nothing(r); assert [Field(16, 2)][..0] == []; }
    assert data[..] == Swap(r, Field(16, 2));
  }

  lemma FirstField()
    ensures |HEADER| == 12 && HEADER[..1] == [Field(16, 2)]
  {
  }

  /** convert_elf (): a file is written only if nothing was raised. */
  method ConvertElf(data: array<byte>) returns (outcome: Outcome)
    modifies data
    ensures outcome == Accepts(old(data[..]))
    ensures outcome == Written ==> data[..] == Converted(old(data[..]))
  {
    hide SwapAll, HeadAt, SectionTable, EntryFields, SectionRecord;
    if data.Length < 4 || data[..4] != [0x7F, 0x45, 0x4C, 0x46] { return Rejected; }
    if data.Length == 4 { return Raised; }
    if data[4] != 1 { return Rejected; }
    if data.Length < EHDR { return Raised; }
    var t := ConvertHeader(data);
    ghost var d := data[..];
    var i := 0;
    while i < t.num
      invariant ConvertSections(data[..], t, i) == ConvertSections(d, t, 0)
      decreases t.num - i
    {
      var off := t.off + i * t.entsize;
      if off + SHDR > data.Length { break; }
      var h := ConvertSection(data, off);
      if h.stype == 2 {
        ConvertEntries(data, h);
      }
      if h.stype == 4 {
        ConvertEntries(data, h);
      }
      NoEntries(data[..], h);
      i := i + 1;
    }
    return Written;
  }

  lemma NoEntries(d: seq<byte>, h: Head)
    ensures h.Kind() == Neither ==> SwapAll(d, EntryFields(|d|, h, 0)) == d
  {
  }

  // ----------------------------------------------------------------- meaning

  lemma LaterApart(done: seq<Field>, rest: seq<Field>, i: nat)
    requires PairwiseApart(done + rest) && i < |rest|
    ensures AllApart(rest[i], done)
  {
    var fs := done + rest;
    forall j | 0 <= j < |done|
      ensures rest[i].Apart(done[j])
    {
      assert fs[j].Apart(fs[|done| + i]);
    }
  }

  /** A field of a record behind what has been turned reads as in the original. */
  lemma StillBig(d: seq<byte>, done: seq<Field>, rest: seq<Field>, i: nat)
    requires |d| >= EHDR && AllFit(done, |d|) && AllFit(rest, |d|) && PairwiseApart(done + rest)
    requires i < |rest| && AllApart(Field(0, EHDR), rest)
    ensures Read(SwapAll(Prepared(d), done), rest[i], Big) == Read(d, rest[i], Big)
  {
    hide Read, SwapAll, Prepared, PairwiseApart;
    LaterApart(done, rest, i);
    UntouchedField(Prepared(d), done, rest[i], Big);
    assert Field(0, EHDR).Apart(rest[i]);
    PreparedKeeps(d, rest[i]);
  }

  /** The walk over the sections turns around exactly the fields the original
      bytes name. */
  lemma {:induction false} SectionsTogether(d: seq<byte>, t: Table, i: nat, done: seq<Field>)
    requires |d| >= EHDR && AllFit(done, |d|) && PairwiseApart(done + SectionFields(d, t, i))
    requires AllApart(Field(0, EHDR), SectionFields(d, t, i))
    ensures AllFit(done + SectionFields(d, t, i), |d|)
    ensures ConvertSections(SwapAll(Prepared(d), done), t, i) == SwapAll(Prepared(d), done + SectionFields(d, t, i))
    decreases t.num - i
  {
    hide Read, SwapAll, Prepared, PairwiseApart, AllApart, SectionRecord, EntryFields, HeadAt;
    var p, lo := Prepared(d), t.At(i);
    if i < t.num && lo + SHDR <= |d| {
      var rec, ent, rest := SectionRecord(lo), EntryFields(|d|, HeadAt(d, lo, Big), 0), SectionFields(d, t, i + 1);
      RecordFits(lo, |d|);
      assert SectionFields(d, t, i) == rec + ent + rest;
      assert done + (rec + ent + rest) == (done + (rec + ent)) + rest;
      assert rec + (ent + rest) == rec + ent + rest;
      PartsApart(rec + ent, rest);
      HeadStays(d, lo, done, rec, ent + rest);
      SwapAllTogether(p, done, rec);
      SwapAllTogether(p, done + rec, ent);
      assert done + rec + ent == done + (rec + ent);
      SectionsTogether(d, t, i + 1, done + (rec + ent));
    } else {
      assert done + [] == done;
    }
  }

  lemma PartsApart(a: seq<Field>, b: seq<Field>)
    requires AllApart(Field(0, EHDR), a + b)
    ensures AllApart(Field(0, EHDR), a) && AllApart(Field(0, EHDR), b)
  {
    forall i | 0 <= i < |a|
      ensures Field(0, EHDR).Apart(a[i])
    {
      assert (a + b)[i] == a[i];
    }
    forall i | 0 <= i < |b|
      ensures Field(0, EHDR).Apart(b[i])
    {
      assert (a + b)[|a| + i] == b[i];
    }
  }

  lemma HeadStays(d: seq<byte>, lo: nat, done: seq<Field>, rec: seq<Field>, rest: seq<Field>)
    requires |d| >= EHDR && lo + SHDR <= |d| && rec == SectionRecord(lo)
    requires AllFit(done, |d|) && AllFit(rec, |d|) && AllFit(rest, |d|)
    requires PairwiseApart(done + (rec + rest)) && AllApart(Field(0, EHDR), rec + rest)
    ensures HeadAt(SwapAll(Prepared(d), done), lo, Big) == HeadAt(d, lo, Big)
  {
    hide Read, SwapAll, Prepared, PairwiseApart, AllApart, SectionRecord, HeadAt;
    var now := SwapAll(Prepared(d), done);
    forall k | 0 <= k < |rec|
      ensures Read(now, rec[k], Big) == Read(d, rec[k], Big)
    {
      assert (rec + rest)[k] == rec[k];
      StillBig(d, done, rec + rest, k);
    }
    SameHead(now, Big, d, Big, lo);
  }

  lemma ConvertedTurnsFields(d: seq<byte>)
    requires |d| >= EHDR && FieldsApart(d)
    ensures Converted(d) == SwapAll(Prepared(d), Fields(d))
  {
    hide SwapAll, Prepared, PairwiseApart, AllApart, SectionFields, SectionTable;
    HeaderFits(|d|);
    SectionsTogether(d, SectionTable(d, Big), 0, HEADER);
  }

  predicate InField(fs: seq<Field>, k: int) { exists i :: 0 <= i < |fs| && fs[i].Has(k) }

  /** Byte K of field F comes from its mirror place, and is none of those that
      are written anew. */
  predicate Turns(d: seq<byte>, c: seq<byte>, f: Field, k: int)
    requires |c| == |d| && f.Fits(|d|)
  {
    f.Has(k) ==> !(k in {5, 18, 19}) && c[k] == d[f.Mirror(k)]
  }

  /** Where each byte of the output comes from: a byte of a field from the mirror
      place in it, EI_DATA and e_machine are new, and every other byte stays. */
  lemma ConvertedBytes(d: seq<byte>)
    requires |d| >= EHDR && FieldsApart(d)
    ensures var c := Converted(d);
            && |c| == |d| && c[5] == 1 && c[18] == 165 && c[19] == 0
            && (forall i, k :: 0 <= i < |Fields(d)| ==> Turns(d, c, Fields(d)[i], k))
            && (forall k :: 0 <= k < |d| && !InField(Fields(d), k) ==> k in {5, 18, 19} || c[k] == d[k])
  {
    hide SwapAll, PairwiseApart, Fields, Converted;
    ConvertedTurnsFields(d);
    var p, fs := Prepared(d), Fields(d);
    NoFieldThere(d);
    forall k | 0 <= k < |d| && !InField(fs, k)
      ensures SwapAll(p, fs)[k] == p[k]
    {
      Outside(p, fs, k);
    }
    forall i, k | 0 <= i < |fs|
      ensures Turns(d, Converted(d), fs[i], k)
    {
      if fs[i].Has(k) {
        Inside(p, fs, i, k);
        assert fs[i].Has(fs[i].Mirror(k));
      }
    }
  }

  /** EI_DATA and e_machine are in no field. */
  lemma NoFieldThere(d: seq<byte>)
    requires |d| >= EHDR && FieldsApart(d)
    ensures !InField(Fields(d), 5) && !InField(Fields(d), 18) && !InField(Fields(d), 19)
  {
    hide SectionFields, PairwiseApart;
    var fs, rest := Fields(d), SectionFields(d, SectionTable(d, Big), 0);
    forall i, k | 0 <= i < |fs| && k in {5, 18, 19}
      ensures !fs[i].Has(k)
    {
      if i >= |HEADER| {
        assert fs[i] == rest[i - |HEADER|];
        assert Field(0, EHDR).Apart(rest[i - |HEADER|]);
      } else {
        assert fs[i] == HEADER[i];
        HeaderMisses(i, k);
      }
    }
  }

  lemma HeaderMisses(i: nat, k: int)
    requires i < |HEADER| && k in {5, 18, 19}
    ensures !HEADER[i].Has(k)
  {
  }

  /** Read little-endian, the output is the object the input is read big-endian,
      with the machine EM_8051. */
  lemma ConvertKeepsMeaning(d: seq<byte>)
    requires |d| >= EHDR && FieldsApart(d)
    ensures Parse(Converted(d), Little) == Parse(d, Big).(machine := 165)
  {
    hide Read, SwapAll, PairwiseApart, Fields, Converted, Prepared, Parse;
    ConvertedTurnsFields(d);
    ConvertedBytes(d);
    NoFieldThere(d);
    var p, c, fs := Prepared(d), Converted(d), Fields(d);
    forall i | 0 <= i < |fs|
      ensures Read(c, fs[i], Little) == Read(d, fs[i], Big)
    {
      TurnedField(p, fs, i);
      PreparedSame(d, i);
    }
    SameObject(c, Little, d);
    assert Read(c, MACHINE, Little) == 165 by { MachineRead(c); }
  }

  lemma PreparedSame(d: seq<byte>, i: nat)
    requires |d| >= EHDR && i < |Fields(d)|
    requires !InField(Fields(d), 5) && !InField(Fields(d), 18) && !InField(Fields(d), 19)
    ensures Read(Prepared(d), Fields(d)[i], Big) == Read(d, Fields(d)[i], Big)
  {
    hide Fields;
    var f := Fields(d)[i];
    assert Prepared(d)[f.lo..f.lo + f.len] == d[f.lo..f.lo + f.len];
  }

  lemma MachineRead(c: seq<byte>)
    requires |c| >= EHDR && c[18] == 165 && c[19] == 0
    ensures Read(c, MACHINE, Little) == 165
  {
    assert c[18..20] == [165, 0];
    assert [165, 0][1..] == [0] && [0][1..] == [];
  }
}
