/** Upper-casing the symbol names of an object, in place. */
module ElfUpper {
  import opened Bits
  import opened Elf
  import opened Splitting
  import opened Wrappers

  const SHT_SYMTAB: nat := 2
  const SHT_STRTAB: nat := 3

  // ------------------------------------------------------------------ letters

  /** bytes.upper () on one byte. */
  function Up(b: byte): byte { if 0x61 <= b <= 0x7A then b - 0x20 else b }

  const LOWER: string := "abcdefghijklmnopqrstuvwxyz"
  const UPPER: string := "ABCDEFGHIJKLMNOPQRSTUVWXYZ"

  /** The codes of the letters a to z become those of A to Z, no other changes. */
  lemma UpIsAlphabet(b: byte, k: nat)
    requires k < 26
    ensures LOWER[k] as int == b ==> Up(b) == UPPER[k] as int
    ensures (forall i :: 0 <= i < 26 ==> LOWER[i] as int != b) ==> Up(b) == b
    ensures UPPER[k] as int == b ==> Up(b) == b
  {
    LettersFollow(k);
    if 0x61 <= b <= 0x7A { LettersFollow(b - 0x61); }
  }

  lemma LettersFollow(k: nat)
    requires k < 26
    ensures LOWER[k] as int == 0x61 + k && UPPER[k] as int == 0x41 + k
  {
    assert forall i | 0 <= i < 26 :: LOWER[i] as int == 0x61 + i && UPPER[i] as int == 0x41 + i;
  }

  function Upped(s: seq<byte>): (r: seq<byte>)
    ensures |r| == |s| && forall k :: 0 <= k < |s| ==> r[k] == Up(s[k])
  {
    seq(|s|, k requires 0 <= k < |s| => Up(s[k]))
  }

  /** The strings of a table one by one, each with its null byte, cut to size. */
  method UppercaseStrtab(strtab: seq<byte>) returns (out: seq<byte>)
    ensures out == Upped(strtab)
  {
    hide Split, Join;
    var parts := Split(strtab, 0);
    JoinAfterSplit(strtab, 0);
    out := [];
    var i := 0;
    while i < |parts|
      invariant i <= |parts|
      invariant out == if i == 0 then [] else Upped(Join(parts[..i], 0)) + [0]
    {
      JoinSnoc(parts[..i], parts[i], 0);
      assert parts[..i + 1] == parts[..i] + [parts[i]];
      out := out + (Upped(parts[i]) + [0]);
      i := i + 1;
    }
    assert parts[..i] == parts;
    out := out[..|strtab|];
  }

  // ------------------------------------------------------- which string tables

  /** The byte order of an object that can be read. */
  function OrderOf(d: seq<byte>): (order: Option<Order>)
    ensures order.Some? ==> |d| >= EHDR
  {
    if |d| < 4 || d[..4] != [0x7F, 0x45, 0x4C, 0x46] || |d| < EHDR || d[4] != 1 then None
    else if d[5] != 1 && d[5] != 2 then None
    else
      var order := if d[5] == 1 then Little else Big;
      var t := SectionTable(d, order);
      if (t.num != 0 && t.entsize < SHDR) || t.off + t.num * t.entsize > |d| then None else Some(order)
  }

  /** All section headers are in the file. */
  predicate InFile(d: seq<byte>, t: Table) { forall i: nat :: i < t.num ==> t.At(i) + SHDR <= |d| }

  lemma HeadersInFile(d: seq<byte>)
    requires OrderOf(d).Some?
    ensures InFile(d, SectionTable(d, OrderOf(d).value))
  {
    hide SectionTable;
    var t := SectionTable(d, OrderOf(d).value);
    forall i: nat | i < t.num
      ensures t.At(i) + SHDR <= |d|
    {
      MulStep(i, t.num, t.entsize);
    }
  }

  /** The links of the symbol tables among the first N sections. */
  function Links(d: seq<byte>, t: Table, order: Order, n: nat): seq<nat>
    requires InFile(d, t) && n <= t.num
  {
    if n == 0 then []
    else
      var h := HeadAt(d, t.At(n - 1), order);
      Links(d, t, order, n - 1) + if h.stype == 2 then [h.link] else []
  }

  /** The string table that section LINK is. */
  function StringTable(d: seq<byte>, t: Table, order: Order, link: nat): Option<Field>
    requires InFile(d, t)
  {
    if link < t.num && HeadAt(d, t.At(link), order).stype == 3
    then Some(Field(HeadAt(d, t.At(link), order).offset, HeadAt(d, t.At(link), order).size))
    else None
  }

  /** The string tables of the symbol tables; none if a link names none or one
      that runs past the end. */
  function Strings(d: seq<byte>, t: Table, order: Order, links: seq<nat>): (fs: Option<seq<Field>>)
    requires InFile(d, t)
    ensures fs.Some? ==> AllFit(fs.value, |d|)
  {
    if links == [] then Some([])
    else
      match Strings(d, t, order, links[..|links| - 1])
      case None => None
      case Some(fs) =>
        match StringTable(d, t, order, links[|links| - 1])
        case None => None
        case Some(f) => if f.Fits(|d|) then Some(fs + [f]) else None
  }

  /** The string tables a file's symbol tables link to. */
  function StringsOf(d: seq<byte>): (fs: Option<seq<Field>>)
    ensures fs.Some? ==> AllFit(fs.value, |d|)
  {
    match OrderOf(d)
    case None => None
    case Some(order) =>
      HeadersInFile(d);
      var t := SectionTable(d, order);
      Strings(d, t, order, Links(d, t, order, t.num))
  }

  /** F is the string table that symbol table I links to. */
  predicate NamesOf(d: seq<byte>, t: Table, order: Order, i: nat, f: Field)
    requires InFile(d, t)
  {
    && i < t.num && HeadAt(d, t.At(i), order).stype == SHT_SYMTAB
    && var link := HeadAt(d, t.At(i), order).link;
       && link < t.num && HeadAt(d, t.At(link), order).stype == SHT_STRTAB
       && f == Field(HeadAt(d, t.At(link), order).offset, HeadAt(d, t.At(link), order).size)
       && f.Fits(|d|)
  }

  ghost predicate HasNames(d: seq<byte>, t: Table, order: Order, i: nat)
    requires InFile(d, t)
  {
    exists f :: NamesOf(d, t, order, i, f)
  }

  predicate IsSymtab(d: seq<byte>, t: Table, order: Order, i: nat)
    requires InFile(d, t)
  {
    i < t.num && HeadAt(d, t.At(i), order).stype == SHT_SYMTAB
  }

  /** What the I-th section adds to the string tables: the one it links to, if it is
      a symbol table. */
  function Linked(d: seq<byte>, t: Table, order: Order, i: nat): Option<Field>
    requires InFile(d, t) && i < t.num
  {
    match StringTable(d, t, order, HeadAt(d, t.At(i), order).link)
    case None => None
    case Some(f) => if f.Fits(|d|) then Some(f) else None
  }

  lemma NamesAreLinked(d: seq<byte>, t: Table, order: Order, i: nat)
    requires InFile(d, t) && IsSymtab(d, t, order, i)
    ensures HasNames(d, t, order, i) <==> Linked(d, t, order, i).Some?
    ensures forall f :: NamesOf(d, t, order, i, f) <==> Linked(d, t, order, i) == Some(f)
  {
    hide HeadAt, InFile;
    var l := Linked(d, t, order, i);
    if l.Some? { assert NamesOf(d, t, order, i, l.value); }
  }

  lemma NoNames(d: seq<byte>, t: Table, order: Order, i: nat)
    requires InFile(d, t) && !IsSymtab(d, t, order, i)
    ensures forall f :: !NamesOf(d, t, order, i, f)
  {
    hide HeadAt, InFile;
  }

  lemma StringsStep(d: seq<byte>, t: Table, order: Order, n: nat)
    requires InFile(d, t) && 0 < n <= t.num
    ensures var was := Strings(d, t, order, Links(d, t, order, n - 1));
            var now := Strings(d, t, order, Links(d, t, order, n));
            if !IsSymtab(d, t, order, n - 1) then now == was
            else if was.None? || Linked(d, t, order, n - 1).None? then now.None?
            else now == Some(was.value + [Linked(d, t, order, n - 1).value])
  {
    hide HeadAt, StringTable, InFile;
    var links, front := Links(d, t, order, n), Links(d, t, order, n - 1);
    if IsSymtab(d, t, order, n - 1) {
      assert links[..|links| - 1] == front;
    } else {
      assert links == front;
    }
  }

  /** Every symbol table among the first N sections has its names in the file. */
  ghost predicate AllNamed(d: seq<byte>, t: Table, order: Order, n: nat)
    requires InFile(d, t)
  {
    forall i: nat :: i < n && IsSymtab(d, t, order, i) ==> HasNames(d, t, order, i)
  }

  ghost predicate SomeNames(d: seq<byte>, t: Table, order: Order, n: nat, f: Field)
    requires InFile(d, t)
  {
    exists i: nat :: i < n && NamesOf(d, t, order, i, f)
  }

  lemma {:induction false} StringsIfNamed(d: seq<byte>, t: Table, order: Order, n: nat)
    requires InFile(d, t) && n <= t.num
    ensures Strings(d, t, order, Links(d, t, order, n)).Some? <==> AllNamed(d, t, order, n)
  {
    hide InFile, Strings, Links, HasNames, IsSymtab, Linked;
    if n == 0 {
      NoStrings(d, t, order);
    } else {
      StringsIfNamed(d, t, order, n - 1);
      StringsStep(d, t, order, n);
      if IsSymtab(d, t, order, n - 1) { NamesAreLinked(d, t, order, n - 1); }
    }
  }

  lemma {:induction false} StringsHave(d: seq<byte>, t: Table, order: Order, n: nat, f: Field)
    requires InFile(d, t) && n <= t.num && Strings(d, t, order, Links(d, t, order, n)).Some?
    ensures f in Strings(d, t, order, Links(d, t, order, n)).value <==> SomeNames(d, t, order, n, f)
  {
    hide InFile, Strings, Links, HasNames, IsSymtab, Linked, NamesOf;
    if n == 0 {
      NoStrings(d, t, order);
    } else {
      StringsStep(d, t, order, n);
      StringsHave(d, t, order, n - 1, f);
      if IsSymtab(d, t, order, n - 1) { NamesAreLinked(d, t, order, n - 1); } else { NoNames(d, t, order, n - 1); }
    }
  }

  lemma NoStrings(d: seq<byte>, t: Table, order: Order)
    requires InFile(d, t)
    ensures Strings(d, t, order, Links(d, t, order, 0)) == Some([])
  {
  }

  /** The string tables: those the symbol tables link to, if every one links to a
      string table inside the file. */
  lemma StringsAreLinked(d: seq<byte>)
    requires OrderOf(d).Some?
    ensures var order := OrderOf(d).value;
            var t := SectionTable(d, order);
            && InFile(d, t)
            && (StringsOf(d).Some? <==> AllNamed(d, t, order, t.num))
            && (StringsOf(d).Some? ==> forall f :: f in StringsOf(d).value <==> SomeNames(d, t, order, t.num, f))
  {
    hide SectionTable, Strings, AllNamed, SomeNames, InFile;
    HeadersInFile(d);
    var order := OrderOf(d).value;
    var t := SectionTable(d, order);
    StringsIfNamed(d, t, order, t.num);
    if StringsOf(d).Some? {
      forall f
        ensures f in StringsOf(d).value <==> SomeNames(d, t, order, t.num, f)
      {
        StringsHave(d, t, order, t.num, f);
      }
    }
  }

  // ------------------------------------------------------------ what is written

  function UpField(d: seq<byte>, f: Field): (r: seq<byte>)
    requires f.Fits(|d|)
    ensures |r| == |d| && forall k :: 0 <= k < |d| ==> r[k] == if f.Has(k) then Up(d[k]) else d[k]
  {
    seq(|d|, k requires 0 <= k < |d| => if f.Has(k) then Up(d[k]) else d[k])
  }

  function UpAll(d: seq<byte>, fs: seq<Field>): (r: seq<byte>)
    requires AllFit(fs, |d|)
    ensures |r| == |d|
  {
    if fs == [] then d else UpField(UpAll(d, fs[..|fs| - 1]), fs[|fs| - 1])
  }

  function Uppercased(d: seq<byte>): Option<seq<byte>>
  {
    match StringsOf(d) case None => None case Some(fs) => Some(UpAll(d, fs))
  }

  // ------------------------------------------------------------- the rewrite

  /** What the first pass keeps: the string tables and the symbol tables' links. */
  ghost predicate Listed(d: seq<byte>, t: Table, order: Order, strtabs: map<nat, Field>, links: seq<nat>, n: nat)
  {
    && InFile(d, t) && n <= t.num && links == Links(d, t, order, n)
    && (forall i: nat :: i < n ==>
          StringTable(d, t, order, i) == if i in strtabs then Some(strtabs[i]) else None)
    && (forall i: nat :: i in strtabs ==> i < n)
  }

  method ListTables(data: array<byte>, t: Table, order: Order) returns (strtabs: map<nat, Field>, links: seq<nat>)
    requires InFile(data[..], t)
    ensures Listed(data[..], t, order, strtabs, links, t.num)
  {
    hide HeadAt;
    strtabs, links := map[], [];
    var i := 0;
    while i < t.num
      invariant i <= t.num && Listed(data[..], t, order, strtabs, links, i)
    {
      var h := HeadAt(data[..], t.At(i), order);
      if h.stype == 3 {
        strtabs := strtabs[i := Field(h.offset, h.size)];
      } else if h.stype == 2 {
        links := links + [h.link];
      }
      i := i + 1;
    }
  }

  /** uppercase_symbols (): the file is written only on success. */
  method UppercaseSymbols(data: array<byte>) returns (ok: bool)
    modifies data
    ensures ok <==> Uppercased(old(data[..])).Some?
    ensures ok ==> data[..] == Uppercased(old(data[..])).value
  {
    hide SectionTable, Links, HeadAt;
    ghost var d := data[..];
    var order := OrderOf(data[..]);
    if order.None? { return false; }
    HeadersInFile(d);
    var t := SectionTable(data[..], order.value);
    var strtabs, links := ListTables(data, t, order.value);
    var s := 0;
    ghost var fs: seq<Field> := [];
    while s < |links|
      invariant s <= |links| && AllFit(fs, |d|)
      invariant Strings(d, t, order.value, links[..s]) == Some(fs)
      invariant data[..] == UpAll(d, fs)
    {
      var link := links[s];
      assert links[..s + 1][..s] == links[..s];
      if link !in strtabs || strtabs[link].lo + strtabs[link].len > data.Length {
        Refused(d, t, order.value, links, s);
        return false;
      }
      var f := strtabs[link];
      ghost var now := data[..];
      var upper := UppercaseStrtab(data[f.lo..f.lo + f.len]);
      forall k | f.lo <= k < f.lo + f.len {
        data[k] := upper[k - f.lo];
      }
      assert data[..] == UpField(now, f);
      assert (fs + [f])[..|fs|] == fs;
      fs := fs + [f];
      s := s + 1;
    }
    assert links[..s] == links;
    return true;
  }

  /** A link that names no string table in the file spoils the whole file. */
  lemma {:induction false} Refused(d: seq<byte>, t: Table, order: Order, links: seq<nat>, s: nat)
    requires InFile(d, t) && s < |links| && Strings(d, t, order, links[..s + 1]).None?
    ensures Strings(d, t, order, links).None?
    decreases |links|
  {
    if s + 1 == |links| {
      assert links[..s + 1] == links;
    } else {
      var front := links[..|links| - 1];
      assert front[..s + 1] == links[..s + 1];
      Refused(d, t, order, front, s);
    }
  }

  // ------------------------------------------------------------------- effect

  predicate InSome(fs: seq<Field>, k: int) { exists i :: 0 <= i < |fs| && fs[i].Has(k) }

  /** Exactly the bytes of the string tables are upper-cased, once or more. */
  lemma {:induction false} UppercasedBytes(d: seq<byte>, fs: seq<Field>, k: nat)
    requires AllFit(fs, |d|) && k < |d|
    ensures UpAll(d, fs)[k] == if InSome(fs, k) then Up(d[k]) else d[k]
  {
    if fs != [] {
      var n := |fs| - 1;
      UppercasedBytes(d, fs[..n], k);
      assert forall i :: 0 <= i < n ==> fs[..n][i] == fs[i];
      assert forall i :: 0 <= i < |fs| ==> i < n || fs[i] == fs[n];
    }
  }

  /** The null-terminated name at LO, read up to HI. */
  function NameAt(d: seq<byte>, lo: nat, hi: nat): seq<byte>
    requires hi <= |d|
    decreases hi - lo
  {
    if lo >= hi || d[lo] == 0 then [] else [d[lo]] + NameAt(d, lo + 1, hi)
  }

  /** Every name keeps its offset: at it is the same name in upper case. */
  lemma {:induction false} NamesKeepOffsets(d: seq<byte>, fs: seq<Field>, i: nat, lo: nat)
    requires AllFit(fs, |d|) && i < |fs| && fs[i].lo <= lo
    ensures var hi := fs[i].lo + fs[i].len;
            NameAt(UpAll(d, fs), lo, hi) == Upped(NameAt(d, lo, hi))
    decreases fs[i].lo + fs[i].len - lo
  {
    hide UpAll;
    var hi := fs[i].lo + fs[i].len;
    if lo < hi {
      assert fs[i].Has(lo);
      UppercasedBytes(d, fs, lo);
      NamesKeepOffsets(d, fs, i, lo + 1);
      if d[lo] != 0 {
        assert Upped([d[lo]] + NameAt(d, lo + 1, hi)) == [Up(d[lo])] + Upped(NameAt(d, lo + 1, hi));
      }
    }
  }
}
