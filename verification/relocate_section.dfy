/** elf32_i51_relocate_section () on a final link: the loop over a section's
    relocations, its frame, and its independence of their order. */
module RelocateSection {
  import opened Bits
  import opened Relocation

  /** What the linker knows of the symbol a relocation names, indirections
      followed. */
  datatype Symbol = Defined(value: int) | Common | UndefWeak | Undefined

  datatype Rela = Rela(kind: Kind, offset: nat, symbol: Symbol, addend: int)

  /** The section contents so far; whether a diagnostic was printed, and whether
      the loop returned 0.  Either fails the link. */
  datatype Run = Run(bytes: seq<byte>, complained: bool, stopped: bool)
  {
    predicate Clean() { !complained && !stopped }
  }

  function SymbolValue(s: Symbol): int { if s.Defined? then s.value else 0 }

  function FieldEnd(r: Rela): nat { r.offset + Width(r.kind) }

  /** One turn of the loop, for a section whose contents start at BASE. */
  function Turn(bytes: seq<byte>, r: Rela, base: int): (l: Link)
    ensures |l.bytes| == |bytes|
  {
    Relocated(bytes, r.kind, r.offset, SymbolValue(r.symbol) + r.addend, base + r.offset)
  }

  function Next(run: Run, r: Rela, base: int): (out: Run)
    ensures |out.bytes| == |run.bytes|
    ensures out.Clean() ==> run.Clean() || run.stopped
  {
    var l := Turn(run.bytes, r, base);
    Run(l.bytes, run.complained || r.symbol.Undefined? || l.status == Overflow, l.status == OutOfRange)
  }

  function RunAll(run: Run, rels: seq<Rela>, base: int): (out: Run)
    ensures |out.bytes| == |run.bytes|
    ensures out.Clean() ==> run.Clean()
    decreases |rels|
  {
    if rels == [] || run.stopped then run
    else RunAll(Next(run, rels[0], base), rels[1..], base)
  }

  method RelocateSection(contents: array<byte>, rels: seq<Rela>, base: int) returns (ok: bool)
    modifies contents
    ensures var run := RunAll(Run(old(contents[..]), false, false), rels, base);
            contents[..] == run.bytes && ok == run.Clean()
  {
    var complained := false;
    ghost var start := Run(contents[..], false, false);
    ghost var run := start;
    var n := 0;
    while n < |rels|
      invariant 0 <= n <= |rels|
      invariant run.bytes == contents[..] && !run.stopped && run.complained == complained
      invariant RunAll(start, rels, base) == RunAll(run, rels[n..], base)
    {
      Unroll(run, rels, n, base);
      var stop;
      complained, stop := DoTurn(contents, rels[n], base, complained);
      run := Next(run, rels[n], base);
      if stop { return false; }
      n := n + 1;
    }
    ok := !complained;
  }

  lemma Unroll(run: Run, rels: seq<Rela>, n: nat, base: int)
    requires n < |rels| && !run.stopped
    ensures RunAll(run, rels[n..], base) == RunAll(Next(run, rels[n], base), rels[n + 1..], base)
  {
    assert rels[n..][0] == rels[n] && rels[n..][1..] == rels[n + 1..];
  }

  /** The body of the loop. */
  method DoTurn(contents: array<byte>, r: Rela, base: int, complained: bool) returns (now: bool, stop: bool)
    modifies contents
    ensures Next(Run(old(contents[..]), complained, false), r, base) == Run(contents[..], now, stop)
  {
    var found, value := Lookup(r.symbol);
    var status := FinalLinkRelocate(contents, r.kind, r.offset, value + r.addend, base + r.offset);
    return complained || !found || status == Overflow, status == OutOfRange;
  }

  /** The value of a symbol; an undefined one is reported and taken as 0, and so
      are a common not yet allocated and an undefined weak symbol, silently. */
  method Lookup(s: Symbol) returns (found: bool, value: int)
    ensures found == !s.Undefined? && value == SymbolValue(s)
  {
    match s {
      case Defined(v) => return true, v;
      case Common | UndefWeak => return true, 0;
      case Undefined => return false, 0;
    }
  }

  // -------------------------------------------------------------- frame

  predicate Inside(i: int, r: Rela) { r.offset <= i < FieldEnd(r) }

  /** A byte in no field is left alone, whatever becomes of the relocations. */
  lemma {:induction false} BytesOutsideKept(run: Run, rels: seq<Rela>, base: int, i: nat)
    requires i < |run.bytes|
    requires forall r :: r in rels ==> !Inside(i, r)
    ensures RunAll(run, rels, base).bytes[i] == run.bytes[i]
    decreases |rels|
  {
    if rels == [] || run.stopped {
    } else {
      assert rels[0] in rels;
      BytesOutsideKept(Next(run, rels[0], base), rels[1..], base, i);
    }
  }

  // --------------------------------------------------------- confluence

  predicate Apart(a: Rela, b: Rela) { FieldEnd(a) <= b.offset || FieldEnd(b) <= a.offset }

  /** No two relocations share a byte. */
  ghost predicate Disjoint(rels: seq<Rela>)
  {
    && (forall a, b :: a in rels && b in rels && a != b ==> Apart(a, b))
    && (forall a :: a in rels && multiset(rels)[a] > 1 ==> Width(a.kind) == 0)
  }

  /** R succeeds on its own in BYTES. */
  predicate Succeeds(bytes: seq<byte>, r: Rela, base: int)
  {
    !r.symbol.Undefined? && Turn(bytes, r, base).status.Ok?
  }

  function FieldOf(bytes: seq<byte>, r: Rela): seq<byte>
    requires FieldEnd(r) <= |bytes|
  {
    bytes[r.offset..FieldEnd(r)]
  }

  /** The field of R holds in OUT what R writes there on BYTES alone. */
  predicate WritesAlone(bytes: seq<byte>, out: seq<byte>, r: Rela, base: int)
  {
    |out| == |bytes| && FieldEnd(r) <= |bytes| && FieldOf(out, r) == FieldOf(Turn(bytes, r, base).bytes, r)
  }

  /** A turn reads and writes its own field only. */
  lemma TurnIsLocal(b1: seq<byte>, b2: seq<byte>, r: Rela, base: int)
    requires |b1| == |b2|
    requires FieldEnd(r) <= |b1| ==> FieldOf(b1, r) == FieldOf(b2, r)
    ensures Turn(b1, r, base).status == Turn(b2, r, base).status
    ensures FieldEnd(r) <= |b1| ==> FieldOf(Turn(b1, r, base).bytes, r) == FieldOf(Turn(b2, r, base).bytes, r)
  {
  }

  lemma TurnKeepsApart(bytes: seq<byte>, r: Rela, o: Rela, base: int)
    requires Apart(r, o) && FieldEnd(o) <= |bytes|
    ensures FieldOf(Turn(bytes, r, base).bytes, o) == FieldOf(bytes, o)
  {
  }

  /** What a clean run over disjoint fields is: each relocation succeeds on the
      original bytes, and its field holds what it would write there alone. */
  lemma {:induction false} CleanRun(bytes: seq<byte>, rels: seq<Rela>, base: int)
    requires Disjoint(rels)
    ensures var out := RunAll(Run(bytes, false, false), rels, base);
            && (out.Clean() <==> forall r :: r in rels ==> Succeeds(bytes, r, base))
            && (out.Clean() ==> forall r :: r in rels ==> WritesAlone(bytes, out.bytes, r, base))
    decreases |rels|
  {
    if rels == [] {
    } else {
      var r, rest := rels[0], rels[1..];
      var l := Turn(bytes, r, base);
      assert rels == [r] + rest;
      assert multiset(rels) == multiset{r} + multiset(rest);
      assert forall o :: o in rest ==> o in rels;
      if Succeeds(bytes, r, base) {
        assert Disjoint(rest);
        forall o | o in rest
          ensures Apart(r, o) || (o == r && Width(r.kind) == 0)
        {
          if o == r { assert multiset(rels)[r] > 1; }
        }
        CleanRun(l.bytes, rest, base);
        HeadRun(bytes, r, rest, base);
      } else {
        NotClean(bytes, rels, base);
      }
    }
  }

  lemma NotClean(bytes: seq<byte>, rels: seq<Rela>, base: int)
    requires rels != [] && !Succeeds(bytes, rels[0], base)
    ensures !RunAll(Run(bytes, false, false), rels, base).Clean()
  {
    assert !Next(Run(bytes, false, false), rels[0], base).Clean();
  }

  /** The step of CleanRun: a first relocation that succeeds, before REST. */
  lemma HeadRun(bytes: seq<byte>, r: Rela, rest: seq<Rela>, base: int)
    requires Succeeds(bytes, r, base)
    requires forall o :: o in rest ==> Apart(r, o) || (o == r && Width(r.kind) == 0)
    requires var l := Turn(bytes, r, base);
             var out := RunAll(Run(l.bytes, false, false), rest, base);
             && (out.Clean() <==> forall o :: o in rest ==> Succeeds(l.bytes, o, base))
             && (out.Clean() ==> forall o :: o in rest ==> WritesAlone(l.bytes, out.bytes, o, base))
    ensures var rels := [r] + rest;
            var out := RunAll(Run(bytes, false, false), rels, base);
            && (out.Clean() <==> forall o :: o in rels ==> Succeeds(bytes, o, base))
            && (out.Clean() ==> forall o :: o in rels ==> WritesAlone(bytes, out.bytes, o, base))
  {
    var rels := [r] + rest;
    var l := Turn(bytes, r, base);
    var out := RunAll(Run(l.bytes, false, false), rest, base);
    assert rels[1..] == rest;
    assert Next(Run(bytes, false, false), r, base) == Run(l.bytes, false, false);
    forall o | o in rest
      ensures Succeeds(l.bytes, o, base) <==> Succeeds(bytes, o, base)
      ensures FieldEnd(o) <= |bytes| ==>
                FieldOf(Turn(l.bytes, o, base).bytes, o) == FieldOf(Turn(bytes, o, base).bytes, o)
    {
      if FieldEnd(o) <= |bytes| {
        if Apart(r, o) { TurnKeepsApart(bytes, r, o, base); }
      }
      TurnIsLocal(l.bytes, bytes, o, base);
    }
    HeadFieldKept(bytes, r, rest, base);
  }

  /** The later relocations leave the first one's field as it wrote it. */
  lemma HeadFieldKept(bytes: seq<byte>, r: Rela, rest: seq<Rela>, base: int)
    requires FieldEnd(r) <= |bytes|
    requires forall o :: o in rest ==> Apart(r, o) || (o == r && Width(r.kind) == 0)
    ensures var l := Turn(bytes, r, base);
            FieldOf(RunAll(Run(l.bytes, false, false), rest, base).bytes, r) == FieldOf(l.bytes, r)
  {
    var l := Turn(bytes, r, base);
    forall i | r.offset <= i < FieldEnd(r)
      ensures RunAll(Run(l.bytes, false, false), rest, base).bytes[i] == l.bytes[i]
    {
      BytesOutsideKept(Run(l.bytes, false, false), rest, base, i);
    }
  }

  /** The final contents and the verdict do not depend on the order of the
      relocations when their fields are disjoint. */
  lemma OrderIrrelevant(bytes: seq<byte>, rels: seq<Rela>, perm: seq<Rela>, base: int)
    requires Disjoint(rels) && multiset(rels) == multiset(perm)
    ensures var a := RunAll(Run(bytes, false, false), rels, base);
            var b := RunAll(Run(bytes, false, false), perm, base);
            (a.Clean() <==> b.Clean()) && (a.Clean() ==> a.bytes == b.bytes)
  {
    assert forall r :: r in rels <==> r in multiset(rels);
    assert forall r :: r in perm <==> r in multiset(perm);
    assert Disjoint(perm);
    CleanRun(bytes, rels, base);
    CleanRun(bytes, perm, base);
    var a := RunAll(Run(bytes, false, false), rels, base);
    var b := RunAll(Run(bytes, false, false), perm, base);
    if a.Clean() {
      forall i | 0 <= i < |bytes|
        ensures a.bytes[i] == b.bytes[i]
      {
        if forall r :: r in rels ==> !Inside(i, r) {
          BytesOutsideKept(Run(bytes, false, false), rels, base, i);
          BytesOutsideKept(Run(bytes, false, false), perm, base, i);
        } else {
          var r :| r in rels && Inside(i, r);
          SameByte(bytes, a.bytes, b.bytes, r, base, i);
        }
      }
    }
  }

  lemma SameByte(bytes: seq<byte>, a: seq<byte>, b: seq<byte>, r: Rela, base: int, i: nat)
    requires WritesAlone(bytes, a, r, base) && WritesAlone(bytes, b, r, base) && Inside(i, r)
    ensures a[i] == b[i]
  {
    assert FieldOf(a, r) == FieldOf(b, r);
    assert a[i] == FieldOf(a, r)[i - r.offset] && b[i] == FieldOf(b, r)[i - r.offset];
  }
}
