/** The relocation arithmetic of the port, in its two places: the fixups the
    assembler resolves itself and the relocations the linker applies.  Each is
    a method on the section bytes proved against a function of them; the
    module closes with where the two agree and exactly where they do not. */
module Relocation {
  import opened Bits
  import opened Wrappers

  datatype Kind =
    | None_ | R1 | R3 | Pcrel7 | Abs11 | Bit8 | Byte8 | Low | High
    | Word16 | B2b | Pcode13 | Dir8 | Imm8

  /** Bytes the field occupies, the size of the howto. */
  function Width(kind: Kind): nat
  {
    match kind
    case None_ => 0
    case Abs11 | Word16 | Pcode13 => 2
    case _ => 1
  }

  /** BYTES written over S at position AT. */
  function Splice(s: seq<byte>, at: nat, bytes: seq<byte>): (r: seq<byte>)
    requires at + |bytes| <= |s|
    ensures |r| == |s|
    ensures r[at..at + |bytes|] == bytes
    ensures forall i :: 0 <= i < |s| && !(at <= i < at + |bytes|) ==> r[i] == s[i]
  {
    s[..at] + bytes + s[at + |bytes|..]
  }

  /** bfd_put_8 () */
  method Put8(buf: array<byte>, at: nat, b: byte)
    requires at < buf.Length
    modifies buf
    ensures buf[..] == Splice(old(buf[..]), at, [b])
  {
    ghost var before := buf[..];
    buf[at] := b;
    assert buf[..] == before[..at] + [b] + before[at + 1..];
  }

  /** bfd_putb16 () on the two bytes of a big-endian halfword. */
  method PutB16(buf: array<byte>, at: nat, hi: byte, lo: byte)
    requires at + 2 <= buf.Length
    modifies buf
    ensures buf[..] == Splice(old(buf[..]), at, [hi, lo])
  {
    ghost var before := buf[..];
    buf[at], buf[at + 1] := hi, lo;
    assert buf[..] == before[..at] + [hi, lo] + before[at + 2..];
  }

  /** Writing back what is there changes nothing. */
  lemma SpliceSame(s: seq<byte>, at: nat, n: nat)
    requires at + n <= |s|
    ensures Splice(s, at, s[at..at + n]) == s
  {
  }

  /** The bit address of bit OFF of the byte at A: RAM 0x20..0x2F, or an SFR
      whose address is a multiple of eight. */
  function BitAddress(a: int, off: int): Option<byte>
  {
    if !(0 <= off <= 7) then None
    else if 0x20 <= a < 0x30 then Some((a - 0x20) * 8 + off)
    else if 0x80 <= a <= 0xF8 && a % 8 == 0 then Some(a + off)
    else None
  }

  // ------------------------------------------------------ the assembler

  datatype Patch = Patch(ok: bool, bytes: seq<byte>)

  /** The first byte of an ACALL/AJMP whose low five bits are OPCODE's. */
  function InpageHigh(value: int, opcode: byte): byte
  {
    value / 0x100 % 8 * 32 + opcode % 32
  }

  /** What md_apply_fix () leaves in the field OLD of a fixup it resolves.
      PLACE is the address of the field; VALUE is the finished displacement
      for Pcrel7 and the operand for the others.  A diagnostic (ok false)
      does not always stop the write. */
  function GasPatch(kind: Kind, value: int, place: int, held: seq<byte>): (p: Patch)
    requires |held| == Width(kind)
    ensures |p.bytes| == Width(kind)
  {
    match kind
    case Low => Patch(true, [Low8(value)])
    case High =>
      Patch(-65536 <= value <= 65535 && -256 <= value / 0x100 <= 255, [Low8(value / 0x100)])
    case Byte8 | Dir8 | Imm8 | Bit8 => Patch(-256 <= value <= 255, [Low8(value)])
    case Pcrel7 => Patch(-128 <= value <= 127, [Low8(value)])
    case Word16 => Patch(true, [High8(value), Low8(value)])
    case Abs11 => Patch(Page(value) == Page(place + 2), [InpageHigh(value, held[0]), Low8(value)])
    case B2b =>
      (match BitAddress(value, held[0])
       case Some(bit) => Patch(true, [bit])
       case None => Patch(false, held))
    case Pcode13 =>
      Patch(value >= 0x0100, [held[0] / 32 * 32 + value / 0x100 % 32, Low8(value)])
    case None_ | R1 | R3 => Patch(false, held)
  }

  /** The BFD_RELOC_I51_8_B2B case. */
  method FixB2b(buf: array<byte>, at: nat, value: int, ghost place: int) returns (ok: bool)
    requires at < buf.Length
    modifies buf
    ensures var p := GasPatch(B2b, value, place, old(buf[at..at + 1]));
            ok == p.ok && buf[..] == Splice(old(buf[..]), at, p.bytes)
  {
    ok := true;
    SpliceSame(buf[..], at, 1);
    var off := buf[at];
    if off > 7 {
      ok := false;
    } else if value >= 0x20 && value < 0x30 {
      Put8(buf, at, (value - 0x20) * 8 + off);
    } else if value >= 0x80 && value <= 0xF8 && value % 8 == 0 {
      Put8(buf, at, value + off);
    } else {
      ok := false;
    }
  }

  /** The range checks of the one-byte fixups, before the write. */
  method FixRange(kind: Kind, value: int, ghost place: int, ghost held: seq<byte>) returns (ok: bool, v: int)
    requires kind in {High, Byte8, Dir8, Imm8, Bit8} && |held| == 1
    ensures Patch(ok, [Low8(v)]) == GasPatch(kind, value, place, held)
  {
    ok, v := true, value;
    if kind == High {
      if value < -65536 || value > 65535 { ok := false; }
      v := value / 0x100;
    }
    if v < -256 || v > 255 { ok := false; }
  }

  /** md_apply_fix () on a fixup that is done, field by field. */
  method ApplyFix(buf: array<byte>, at: nat, kind: Kind, value: int, place: int) returns (ok: bool)
    requires at + Width(kind) <= buf.Length
    modifies buf
    ensures var p := GasPatch(kind, value, place, old(buf[at..at + Width(kind)]));
            ok == p.ok && buf[..] == Splice(old(buf[..]), at, p.bytes)
  {
    ok := true;
    match kind {
      case Low =>
        Put8(buf, at, Low8(value));
      case High | Byte8 | Dir8 | Imm8 | Bit8 =>
        var v;
        ok, v := FixRange(kind, value, place, buf[at..at + 1]);
        Put8(buf, at, Low8(v));
      case Pcrel7 =>
        if value < -128 || value > 127 { ok := false; }
        Put8(buf, at, Low8(value));
      case Word16 =>
        PutB16(buf, at, High8(value), Low8(value));
      case Abs11 =>
        var pc := place + 2;
        if Page(value) != Page(pc) { ok := false; }
        PutB16(buf, at, InpageHigh(value, buf[at]), Low8(value));
      case B2b =>
        ok := FixB2b(buf, at, value, place);
      case Pcode13 =>
        if value < 0x0100 { ok := false; }
        PutB16(buf, at, buf[at] / 32 * 32 + value / 0x100 % 32, Low8(value));
      case None_ | R1 | R3 =>
        SpliceSame(buf[..], at, Width(kind));
        ok := false;
    }
  }

  // --------------------------------------------------------- the linker

  datatype Status = Ok | Overflow | OutOfRange

  datatype Link = Link(status: Status, bytes: seq<byte>)

  /** The relocations whose howto has the source mask 0xff: the generic write
      adds the value to what the field holds. */
  predicate Adds(kind: Kind) { kind in {Bit8, Byte8, Low, High, Dir8, Imm8} }

  /** _bfd_final_link_relocate (), taken as given: the overflow rule of the
      howto on the 16 bits of an address, then the shifted value added to the
      field under the masks, made even when the rule complains. */
  function GenericPatch(kind: Kind, target: int, held: seq<byte>): (l: Link)
    requires |held| == Width(kind) && Width(kind) <= 1
    ensures |l.bytes| == Width(kind)
  {
    var a := target % 0x10000;
    match kind
    case None_ => Link(Ok, held)
    case R1 | R3 => Link(if a <= 0xFF || a >= 0xFF00 then Ok else Overflow, held)
    case High => Link(Ok, [Low8(held[0] + target / 0x100)])
    case Dir8 =>
      Link(if a <= 0xFF && a + held[0] <= 0xFF then Ok else Overflow, [Low8(held[0] + target)])
    case _ => Link(Ok, [Low8(held[0] + target)])
  }

  method GenericRelocate(contents: array<byte>, kind: Kind, offset: nat, target: int) returns (status: Status)
    requires Width(kind) <= 1 && offset + Width(kind) <= contents.Length
    modifies contents
    ensures var l := GenericPatch(kind, target, old(contents[offset..offset + Width(kind)]));
            status == l.status && contents[..] == Splice(old(contents[..]), offset, l.bytes)
  {
    SpliceSame(contents[..], offset, Width(kind));
    var l := GenericPatch(kind, target, contents[offset..offset + Width(kind)]);
    if Width(kind) == 1 { Put8(contents, offset, l.bytes[0]); }
    return l.status;
  }

  /** What i51_final_link_relocate () leaves in the field OLD for the value
      TARGET = symbol + addend at the address PLACE. */
  function LinkPatch(kind: Kind, target: int, place: int, held: seq<byte>): (l: Link)
    requires |held| == Width(kind)
    ensures |l.bytes| == Width(kind)
  {
    match kind
    case Pcrel7 =>
      var srel := target - place;
      if -128 <= srel <= 127 then Link(Ok, [Low8(srel)]) else Link(Overflow, held)
    case Abs11 =>
      if Page(target) != Page(place + 2) then Link(Overflow, held)
      else Link(Ok, [InpageHigh(target, held[0]), Low8(target)])
    case B2b =>
      if target == 0 then Link(Ok, held)
      else if target >= 0x100 || target < 0x20
              || (target >= 0x30 && (target < 0x80 || target % 8 != 0)) then Link(OutOfRange, held)
      else if held[0] > 7 then Link(Overflow, held)
      else if target < 0x30 then Link(Ok, [(target - 0x20) * 8 + held[0]])
      else Link(Ok, [target + held[0]])
    case Pcode13 =>
      if target == 0 then Link(Ok, held)
      else if target < 0x0100 then Link(OutOfRange, held)
      else if target > 0x1FFF then Link(Overflow, held)
      else Link(Ok, [held[0] / 32 * 32 + target / 0x100, Low8(target)])
    case Word16 => Link(Ok, [High8(target), Low8(target)])
    case Imm8 =>
      if target < -128 || target > 255 then Link(Overflow, held)
      else GenericPatch(kind, target, held)
    case _ => GenericPatch(kind, target, held)
  }

  /** i51_final_link_relocate () on a whole section: the field is refused
      when it does not lie inside the contents. */
  function Relocated(contents: seq<byte>, kind: Kind, offset: nat, target: int, place: int): (l: Link)
    ensures |l.bytes| == |contents|
  {
    if offset + Width(kind) > |contents| then Link(OutOfRange, contents)
    else
      Placed(contents, offset, LinkPatch(kind, target, place, contents[offset..offset + Width(kind)]))
  }

  /** The field L written into the contents. */
  function Placed(contents: seq<byte>, offset: nat, l: Link): (r: Link)
    requires offset + |l.bytes| <= |contents|
    ensures |r.bytes| == |contents|
  {
    Link(l.status, Splice(contents, offset, l.bytes))
  }

  /** The R_I51_8_B2B case. */
  method RelocateB2b(contents: array<byte>, offset: nat, target: int, ghost place: int) returns (status: Status)
    requires offset < contents.Length
    modifies contents
    ensures var l := LinkPatch(B2b, target, place, old(contents[offset..offset + 1]));
            status == l.status && contents[..] == Splice(old(contents[..]), offset, l.bytes)
  {
    status := Ok;
    SpliceSame(contents[..], offset, 1);
    var x := contents[offset];
    if target == 0 {}
    else if target >= 0x100 { status := OutOfRange; }
    else if target < 0x20 { status := OutOfRange; }
    else if target >= 0x30 && (target < 0x80 || target % 8 != 0) { status := OutOfRange; }
    else if x > 7 { status := Overflow; }
    else if target < 0x30 { Put8(contents, offset, (target - 0x20) * 8 + x); }
    else { Put8(contents, offset, target + x); }
  }

  /** The R_I51_13_PCODE case. */
  method RelocatePcode(contents: array<byte>, offset: nat, target: int, ghost place: int) returns (status: Status)
    requires offset + 2 <= contents.Length
    modifies contents
    ensures var l := LinkPatch(Pcode13, target, place, old(contents[offset..offset + 2]));
            status == l.status && contents[..] == Splice(old(contents[..]), offset, l.bytes)
  {
    status := Ok;
    SpliceSame(contents[..], offset, 2);
    if target == 0 {}
    else if target < 0x0100 { status := OutOfRange; }
    else if target > 0x1FFF { status := Overflow; }
    else { PutB16(contents, offset, contents[offset] / 32 * 32 + target / 0x100, Low8(target)); }
  }

  method FinalLinkRelocate(contents: array<byte>, kind: Kind, offset: nat, target: int, place: int)
    returns (status: Status)
    modifies contents
    ensures var l := Relocated(old(contents[..]), kind, offset, target, place);
            status == l.status && contents[..] == l.bytes
  {
    if offset + Width(kind) > contents.Length {
      return OutOfRange;
    }
    status := Ok;
    SpliceSame(contents[..], offset, Width(kind));
    match kind {
      case Pcrel7 =>
        var srel := target - place;
        if srel > 127 || srel < -128 { status := Overflow; }
        else { Put8(contents, offset, Low8(srel)); }
      case Abs11 =>
        if Page(target) != Page(place + 2) { status := Overflow; }
        else { PutB16(contents, offset, InpageHigh(target, contents[offset]), Low8(target)); }
      case B2b =>
        status := RelocateB2b(contents, offset, target, place);
      case Pcode13 =>
        status := RelocatePcode(contents, offset, target, place);
      case Word16 =>
        PutB16(contents, offset, High8(target), Low8(target));
      case Imm8 =>
        if target < -128 || target > 255 { status := Overflow; }
        else { status := GenericRelocate(contents, kind, offset, target); }
      case None_ | R1 | R3 | Bit8 | Byte8 | Low | High | Dir8 =>
        status := GenericRelocate(contents, kind, offset, target);
    }
  }
}
