/** What the relocation loop leaves in a section, spoken of by the value S + A
    of a relocation, the address P of its field and what the field held: which
    relocations are accepted, and what each field then says. */
module RelocatedFields {
  import opened Bits
  import opened Wrappers
  import opened Relocation
  import opened RelocateSection

  /** S + A: a symbol without a value counts as 0. */
  function Target(r: Rela): int { (match r.symbol case Defined(s) => s case _ => 0) + r.addend }

  /** P */
  function Place(r: Rela, base: int): int { base + r.offset }

  /** A relocation the linker takes over the contents BYTES. */
  predicate Accepts(bytes: seq<byte>, r: Rela, base: int)
  {
    var t, p := Target(r), Place(r, base);
    && r.offset + Width(r.kind) <= |bytes| && !r.symbol.Undefined?
    && match r.kind
       case None_ | Word16 | Bit8 | Byte8 | Low | High => true
       case R1 | R3 => t % 0x10000 <= 0xFF || t % 0x10000 >= 0xFF00
       case Pcrel7 => -128 <= t - p <= 127
       case Abs11 => t / 0x800 % 32 == (p + 2) / 0x800 % 32
       case Dir8 => t % 0x10000 + bytes[r.offset] <= 0xFF
       case Imm8 => -128 <= t <= 255
       case B2b => t == 0 || BitAddress(t, bytes[r.offset]).Some?
       case Pcode13 => t == 0 || 0x100 <= t <= 0x1FFF
  }

  /** What the field of R in OUT says, BYTES being the contents before. */
  predicate Says(bytes: seq<byte>, out: seq<byte>, r: Rela, base: int)
    requires r.offset + Width(r.kind) <= |bytes| == |out|
  {
    var t, p, at := Target(r), Place(r, base), r.offset;
    match r.kind
    case None_ => true
    case R1 | R3 => out[at] == bytes[at]
    // the displacement, counted from its own address
    case Pcrel7 => p + SignExtend(out[at]) == t
    // eleven bits of the target beside five of the opcode, in the page of the next instruction
    case Abs11 =>
      && (p + 2) / 0x800 % 32 * 0x800 + Word(out[at] / 32, out[at + 1]) == t % 0x10000
      && out[at] % 32 == bytes[at] % 32
    case Word16 => Word(out[at], out[at + 1]) == t % 0x10000
    case Bit8 | Byte8 | Low | Dir8 | Imm8 => out[at] == (bytes[at] + t) % 0x100
    case High => out[at] == (bytes[at] + t / 0x100) % 0x100
    case B2b => if t == 0 then out[at] == bytes[at] else BitAddress(t, bytes[at]) == Some(out[at])
    case Pcode13 =>
      if t == 0 then out[at] == bytes[at] && out[at + 1] == bytes[at + 1]
      else Word(out[at] % 32, out[at + 1]) == t && out[at] / 32 == bytes[at] / 32
  }

  lemma SucceedsWhen(bytes: seq<byte>, r: Rela, base: int)
    ensures Succeeds(bytes, r, base) <==> Accepts(bytes, r, base)
  {
  }

  /** The field holds what the relocation writes exactly when it says so. */
  lemma WritesWhatItSays(bytes: seq<byte>, out: seq<byte>, r: Rela, base: int)
    requires Accepts(bytes, r, base) && |out| == |bytes|
    ensures WritesAlone(bytes, out, r, base) <==> Says(bytes, out, r, base)
  {
    SaysAlone(bytes, out, r, base);
    hide LinkPatch, Accepts, Says;
    assert r.offset + Width(r.kind) <= |bytes| by { InContents(bytes, r, base); }
    var at, w := r.offset, Width(r.kind);
    var held := bytes[at..at + w];
    var l := LinkPatch(r.kind, Target(r), Place(r, base), held);
    assert Turn(bytes, r, base) == Placed(bytes, at, l);
    assert FieldOf(Turn(bytes, r, base).bytes, r) == l.bytes;
    FieldSays(r, Place(r, base), held, out[at..at + w]);
  }

  /** What a field says depends on the field, what it held and its address. */
  lemma SaysAlone(bytes: seq<byte>, out: seq<byte>, r: Rela, base: int)
    requires Accepts(bytes, r, base) && |out| == |bytes|
    ensures r.offset + Width(r.kind) <= |bytes|
    ensures var at, w := r.offset, Width(r.kind);
            && Accepts(bytes[at..at + w], r.(offset := 0), Place(r, base))
            && (Says(bytes, out, r, base)
                <==> Says(bytes[at..at + w], out[at..at + w], r.(offset := 0), Place(r, base)))
  {
    hide BitAddress, SignExtend, Word;
  }

  /** The same of the field alone. */
  lemma FieldSays(r: Rela, p: int, held: seq<byte>, field: seq<byte>)
    requires |held| == |field| == Width(r.kind) && Accepts(held, r.(offset := 0), p)
    ensures LinkPatch(r.kind, Target(r), p, held).bytes == field <==> Says(held, field, r.(offset := 0), p)
  {
    var t := Target(r);
    match r.kind {
      case Pcrel7 => DisplacementByte(t - p, field[0]);
      case Abs11 => InpageBytes(t, p + 2, held[0], field[0], field[1]);
      case Word16 => WordBytes(t, field[0], field[1]);
      case Pcode13 => if t != 0 { PcodeBytes(t, held[0], field[0], field[1]); }
      case _ =>
    }
  }

  lemma DisplacementByte(d: int, b: byte)
    requires -128 <= d <= 127
    ensures Low8(d) == b <==> SignExtend(b) == d
  {
  }

  lemma InpageBytes(t: int, next: int, opcode: byte, hi: byte, lo: byte)
    requires Page(t) == Page(next)
    ensures InpageHigh(t, opcode) == hi && Low8(t) == lo
       <==> Page(next) * 0x800 + Word(hi / 32, lo) == t % 0x10000 && hi % 32 == opcode % 32
  {
    var q := t / 0x100;
    assert t / 0x800 == q / 8;
    assert t % 0x10000 == Page(t) * 0x800 + q % 8 * 0x100 + t % 0x100;
  }

  lemma WordBytes(t: int, hi: byte, lo: byte)
    ensures High8(t) == hi && Low8(t) == lo <==> Word(hi, lo) == t % 0x10000
  {
    WordBack(t);
  }

  lemma PcodeBytes(t: int, held: byte, hi: byte, lo: byte)
    requires 0x100 <= t <= 0x1FFF
    ensures held / 32 * 32 + t / 0x100 == hi && Low8(t) == lo <==> Word(hi % 32, lo) == t && hi / 32 == held / 32
  {
  }

  /** Relocations of disjoint fields: the link is clean exactly when each is
      accepted, and then the contents are the only ones of that length in which
      every field says what it should and every other byte is as it was. */
  lemma CleanRunSays(bytes: seq<byte>, rels: seq<Rela>, base: int)
    requires Disjoint(rels)
    ensures var run := RunAll(Run(bytes, false, false), rels, base);
            && (run.Clean() <==> forall r :: r in rels ==> Accepts(bytes, r, base))
            && (run.Clean() ==> AllSay(bytes, run.bytes, rels, base))
  {
    hide Accepts, Says, Succeeds, WritesAlone;
    var run := RunAll(Run(bytes, false, false), rels, base);
    CleanRun(bytes, rels, base);
    forall r | r in rels
      ensures Succeeds(bytes, r, base) <==> Accepts(bytes, r, base)
    {
      SucceedsWhen(bytes, r, base);
    }
    if run.Clean() {
      forall r | r in rels
        ensures SaysIn(bytes, run.bytes, r, base)
      {
        assert Accepts(bytes, r, base);
        WritesWhatItSays(bytes, run.bytes, r, base);
        InContents(bytes, r, base);
      }
      forall i | 0 <= i < |bytes| && (forall r :: r in rels ==> !Inside(i, r))
        ensures run.bytes[i] == bytes[i]
      {
        BytesOutsideKept(Run(bytes, false, false), rels, base, i);
      }
    }
  }

  lemma InContents(bytes: seq<byte>, r: Rela, base: int)
    requires Accepts(bytes, r, base)
    ensures r.offset + Width(r.kind) <= |bytes|
  {
  }

  predicate SaysIn(bytes: seq<byte>, out: seq<byte>, r: Rela, base: int)
  {
    r.offset + Width(r.kind) <= |bytes| == |out| && Says(bytes, out, r, base)
  }

  ghost predicate AllSay(bytes: seq<byte>, out: seq<byte>, rels: seq<Rela>, base: int)
  {
    && |out| == |bytes| && (forall r :: r in rels ==> SaysIn(bytes, out, r, base))
    && (forall i :: 0 <= i < |bytes| && (forall r :: r in rels ==> !Inside(i, r)) ==> out[i] == bytes[i])
  }

  /** What the fields say leaves one choice for the contents. */
  lemma OneContents(bytes: seq<byte>, a: seq<byte>, b: seq<byte>, rels: seq<Rela>, base: int)
    requires forall r :: r in rels ==> Accepts(bytes, r, base)
    requires AllSay(bytes, a, rels, base) && AllSay(bytes, b, rels, base)
    ensures a == b
  {
    hide Accepts, Says;
    forall i | 0 <= i < |bytes|
      ensures a[i] == b[i]
    {
      if r :| r in rels && Inside(i, r) {
        assert SaysIn(bytes, a, r, base) && SaysIn(bytes, b, r, base);
        WritesWhatItSays(bytes, a, r, base);
        WritesWhatItSays(bytes, b, r, base);
        SameByte(bytes, a, b, r, base, i);
      }
    }
  }
}
