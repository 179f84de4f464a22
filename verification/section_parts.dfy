/** An output section made of parts: relocating each part where it lands is
    relocating the whole section at once, and so no grouping of the parts
    shows in the result.

    The turn of the relocation loop is a parameter here: all that is used of it
    is that it works alike on a part and on the part inside a longer section. */
module SectionParts {
  import opened Bits
  import opened Relocation
  import opened RelocateSection

  type Turner = (seq<byte>, Rela, int) -> Link

  /** One input section: its contents and its relocations. */
  datatype Part = Part(bytes: seq<byte>, rels: seq<Rela>)

  /** Every relocation lies in its own part. */
  predicate InPart(p: Part) { forall r :: r in p.rels ==> FieldEnd(r) <= |p.bytes| }

  predicate AllInPart(ps: seq<Part>) { forall p :: p in ps ==> InPart(p) }

  function NextBy(turn: Turner, run: Run, r: Rela, base: int): Run
  {
    var l := turn(run.bytes, r, base);
    Run(l.bytes, run.complained || r.symbol.Undefined? || l.status == Overflow, l.status == OutOfRange)
  }

  function RunBy(turn: Turner, run: Run, rels: seq<Rela>, base: int): Run
    decreases |rels|
  {
    if rels == [] || run.stopped then run
    else RunBy(turn, NextBy(turn, run, rels[0], base), rels[1..], base)
  }

  function Once(turn: Turner, bytes: seq<byte>, rels: seq<Rela>, base: int): Run
  {
    RunBy(turn, Run(bytes, false, false), rels, base)
  }

  function Both(head: Run, tail: Run): Run
  {
    Run(head.bytes + tail.bytes, head.complained || tail.complained, head.stopped || tail.stopped)
  }

  /** The parts one after another from BASE, each relocated on its own. */
  function FinalParts(turn: Turner, ps: seq<Part>, base: int): Run
  {
    if ps == [] then Run([], false, false)
    else Both(Once(turn, ps[0].bytes, ps[0].rels, base), FinalParts(turn, ps[1..], base + |ps[0].bytes|))
  }

  function Moved(r: Rela, n: nat): Rela { r.(offset := r.offset + n) }

  function MoveAll(rels: seq<Rela>, n: nat): (out: seq<Rela>)
    ensures |out| == |rels|
    ensures forall i :: 0 <= i < |rels| ==> out[i] == Moved(rels[i], n)
  {
    seq(|rels|, i requires 0 <= i < |rels| => Moved(rels[i], n))
  }

  function Bytes(ps: seq<Part>): seq<byte>
  {
    if ps == [] then [] else ps[0].bytes + Bytes(ps[1..])
  }

  /** All relocations, at their offsets in the section when the parts start at OFF. */
  function Relas(ps: seq<Part>, off: nat): seq<Rela>
  {
    if ps == [] then [] else MoveAll(ps[0].rels, off) + Relas(ps[1..], off + |ps[0].bytes|)
  }

  /** The same verdict and, when it is to link, the same bytes. */
  predicate SameLink(a: Run, b: Run)
  {
    (a.Clean() <==> b.Clean()) && (a.Clean() ==> a.bytes == b.bytes)
  }

  /** TURN on a part is TURN on the section around it, and keeps the length. */
  ghost predicate Local(turn: Turner)
  {
    && (forall b, r, base :: |turn(b, r, base).bytes| == |b|)
    && (forall pre: seq<byte>, c: seq<byte>, post: seq<byte>, r: Rela, base: int
          {:trigger turn(pre + c + post, Moved(r, |pre|), base)} ::
          FieldEnd(r) <= |c| ==>
            var part := turn(c, r, base + |pre|);
            turn(pre + c + post, Moved(r, |pre|), base) == Link(part.status, pre + part.bytes + post))
  }

  lemma {:induction false} RunByAppend(turn: Turner, run: Run, a: seq<Rela>, b: seq<Rela>, base: int)
    ensures RunBy(turn, run, a + b, base) == RunBy(turn, RunBy(turn, run, a, base), b, base)
    decreases |a|
  {
    if a == [] {
      assert a + b == b;
    } else if !run.stopped {
      assert (a + b)[1..] == a[1..] + b;
      RunByAppend(turn, NextBy(turn, run, a[0], base), a[1..], b, base);
    }
  }

  lemma {:induction false} RunByKeeps(turn: Turner, run: Run, rels: seq<Rela>, base: int)
    requires Local(turn)
    ensures |RunBy(turn, run, rels, base).bytes| == |run.bytes|
    ensures RunBy(turn, run, rels, base).Clean() ==> run.Clean()
    decreases |rels|
  {
    if rels != [] && !run.stopped {
      RunByKeeps(turn, NextBy(turn, run, rels[0], base), rels[1..], base);
    }
  }

  /** A run over one part is the run over the whole section. */
  lemma {:induction false} RunInside(turn: Turner, pre: seq<byte>, run: Run, post: seq<byte>, rels: seq<Rela>,
                                     base: int)
    requires Local(turn)
    requires forall r :: r in rels ==> FieldEnd(r) <= |run.bytes|
    ensures var part := RunBy(turn, run, rels, base + |pre|);
            RunBy(turn, run.(bytes := pre + run.bytes + post), MoveAll(rels, |pre|), base)
            == part.(bytes := pre + part.bytes + post)
    decreases |rels|
  {
    if rels != [] && !run.stopped {
      assert rels[0] in rels;
      var next := NextBy(turn, run, rels[0], base + |pre|);
      assert NextBy(turn, run.(bytes := pre + run.bytes + post), Moved(rels[0], |pre|), base)
          == next.(bytes := pre + next.bytes + post);
      RunInside(turn, pre, next, post, rels[1..], base);
      assert MoveAll(rels, |pre|)[1..] == MoveAll(rels[1..], |pre|);
    }
  }

  function Prefixed(pre: seq<byte>, run: Run): Run { run.(bytes := pre + run.bytes) }

  /** One part before the others: where the others are right, the whole is. */
  lemma PartsStep(turn: Turner, pre: seq<byte>, p: Part, rest: seq<byte>, others: seq<Rela>, base: int, tail: Run)
    requires Local(turn) && InPart(p)
    requires var head := Once(turn, p.bytes, p.rels, base + |pre|);
             head.Clean() ==>
               SameLink(Once(turn, (pre + head.bytes) + rest, others, base), Prefixed(pre + head.bytes, tail))
    ensures SameLink(Once(turn, pre + (p.bytes + rest), MoveAll(p.rels, |pre|) + others, base),
                     Prefixed(pre, Both(Once(turn, p.bytes, p.rels, base + |pre|), tail)))
  {
    var head := Once(turn, p.bytes, p.rels, base + |pre|);
    assert pre + (p.bytes + rest) == pre + p.bytes + rest;
    RunInside(turn, pre, Run(p.bytes, false, false), rest, p.rels, base);
    RunByAppend(turn, Run(pre + p.bytes + rest, false, false), MoveAll(p.rels, |pre|), others, base);
    RunByKeeps(turn, head.(bytes := pre + head.bytes + rest), others, base);
    assert pre + (head.bytes + tail.bytes) == (pre + head.bytes) + tail.bytes;
  }

  /** Part by part or all at once. */
  lemma {:induction false} PartsAreOneRun(turn: Turner, pre: seq<byte>, off: nat, ps: seq<Part>, base: int)
    requires Local(turn) && AllInPart(ps) && off == |pre|
    ensures SameLink(Once(turn, pre + Bytes(ps), Relas(ps, off), base), Prefixed(pre, FinalParts(turn, ps, base + off)))
    decreases |ps|
  {
    if ps == [] {
      assert pre + [] == pre;
    } else {
      var p, rest := ps[0], ps[1..];
      assert p in ps && forall q :: q in rest ==> q in ps;
      var off' := off + |p.bytes|;
      var head := Once(turn, p.bytes, p.rels, base + off);
      RunByKeeps(turn, Run(p.bytes, false, false), p.rels, base + off);
      if head.Clean() {
        PartsAreOneRun(turn, pre + head.bytes, off', rest, base);
      }
      assert base + off + |p.bytes| == base + off';
      PartsStep(turn, pre, p, Bytes(rest), Relas(rest, off'), base, FinalParts(turn, rest, base + off'));
    }
  }

  // --------------------------------------------- the turn of the linker

  lemma PlacedInside(pre: seq<byte>, c: seq<byte>, post: seq<byte>, at: nat, l: Link)
    requires at + |l.bytes| <= |c|
    ensures Placed(pre + c + post, |pre| + at, l) == Link(l.status, pre + Placed(c, at, l).bytes + post)
  {
  }

  lemma SliceInside(pre: seq<byte>, c: seq<byte>, post: seq<byte>, at: nat, end: nat)
    requires at <= end <= |c|
    ensures (pre + c + post)[|pre| + at..|pre| + end] == c[at..end]
  {
  }

  lemma TurnInside(pre: seq<byte>, c: seq<byte>, post: seq<byte>, r: Rela, base: int)
    requires FieldEnd(r) <= |c|
    ensures var part := Turn(c, r, base + |pre|);
            Turn(pre + c + post, Moved(r, |pre|), base) == Link(part.status, pre + part.bytes + post)
  {
    hide LinkPatch;
    SliceInside(pre, c, post, r.offset, FieldEnd(r));
    var target, place := SymbolValue(r.symbol) + r.addend, base + |pre| + r.offset;
    var l := LinkPatch(r.kind, target, place, c[r.offset..FieldEnd(r)]);
    assert base + (r.offset + |pre|) == place;
    assert Turn(c, r, base + |pre|) == Placed(c, r.offset, l);
    assert Turn(pre + c + post, Moved(r, |pre|), base) == Placed(pre + c + post, |pre| + r.offset, l);
    PlacedInside(pre, c, post, r.offset, l);
  }

  lemma TurnIsLocalToParts()
    ensures Local(Turn)
  {
    hide LinkPatch, Relocated;
    var turn: Turner := Turn;
    forall pre: seq<byte>, c: seq<byte>, post: seq<byte>, r: Rela, base: int | FieldEnd(r) <= |c|
      ensures turn(pre + c + post, Moved(r, |pre|), base)
           == Link(turn(c, r, base + |pre|).status, pre + turn(c, r, base + |pre|).bytes + post)
    {
      TurnInside(pre, c, post, r, base);
    }
  }

  lemma {:induction false} RunByTurn(run: Run, rels: seq<Rela>, base: int)
    ensures RunBy(Turn, run, rels, base) == RunAll(run, rels, base)
    decreases |rels|
  {
    if rels != [] && !run.stopped {
      RunByTurn(Next(run, rels[0], base), rels[1..], base);
    }
  }

  /** A part relocated on its own is the loop over its relocations. */
  lemma OnceIsLoop(bytes: seq<byte>, rels: seq<Rela>, base: int)
    ensures Once(Turn, bytes, rels, base) == RunAll(Run(bytes, false, false), rels, base)
  {
    RunByTurn(Run(bytes, false, false), rels, base);
  }

  /** A relocation that reaches out of the section is refused, whatever the
      others do. */
  lemma {:induction false} StrayFails(run: Run, rels: seq<Rela>, base: int, r: Rela)
    requires r in rels && FieldEnd(r) > |run.bytes|
    ensures !RunAll(run, rels, base).Clean()
    decreases |rels|
  {
    hide LinkPatch;
    if !run.stopped && rels[0] != r {
      StrayFails(Next(run, rels[0], base), rels[1..], base, r);
    }
  }

  lemma {:induction false} StrayPartFails(ps: seq<Part>, base: int)
    ensures FinalParts(Turn, ps, base).Clean() ==> AllInPart(ps)
    decreases |ps|
  {
    hide Turn, RunBy;
    if ps != [] {
      var p := ps[0];
      StrayPartFails(ps[1..], base + |p.bytes|);
      OnceIsLoop(p.bytes, p.rels, base);
      if !InPart(p) {
        var r :| r in p.rels && FieldEnd(r) > |p.bytes|;
        StrayFails(Run(p.bytes, false, false), p.rels, base, r);
      }
      assert forall q :: q in ps ==> q == p || q in ps[1..];
    }
  }
}
