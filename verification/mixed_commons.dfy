/** Memory-space commons and ordinary ones under one name.  `.comm' names no
    space and is not compared, so it can hide a clash of spaces; this module
    says exactly when the order of the objects decides the link. */
module MixedCommons {
  import opened Wrappers
  import opened Commons
  import opened CommonLink

  predicate AllCommons(ds: seq<Decl>) { forall d :: d in ds ==> IsCommon(d) }

  predicate Clash(a: Decl, b: Decl)
  {
    a.shndx.ShnSpace? && b.shndx.ShnSpace? && a.shndx.space != b.shndx.space
  }

  /** All declarations that name a space name the same one. */
  ghost predicate Agree(ds: seq<Decl>) { forall a, b :: a in ds && b in ds ==> !Clash(a, b) }

  /** D is larger than every ordinary common of DS. */
  predicate AboveOrdinary(d: Decl, ds: seq<Decl>)
  {
    forall o :: o in ds && o.shndx.ShnCommon? ==> o.size < d.size
  }

  /** Two declarations clash and no ordinary common is as large as either. */
  ghost predicate ClashInTheOpen(ds: seq<Decl>)
  {
    exists a, b :: a in ds && b in ds && Clash(a, b) && AboveOrdinary(a, ds) && AboveOrdinary(b, ds)
  }

  predicate Accepts(ds: seq<Decl>) { Run(Empty, ds) != Refused }

  ghost predicate SameDecls(ds: seq<Decl>, perm: seq<Decl>) { multiset(ds) == multiset(perm) }

  lemma SameMembers(ds: seq<Decl>, perm: seq<Decl>)
    requires SameDecls(ds, perm)
    ensures forall d :: d in ds <==> d in perm
  {
    assert forall d :: d in ds <==> d in multiset(ds);
    assert forall d :: d in perm <==> d in multiset(perm);
  }

  // ------------------------------------------------- no clash: always accepted

  /** The holder clashes with nothing still to come. */
  predicate Harmless(h: State, ds: seq<Decl>)
  {
    && h != Refused
    && (h.Held? && h.sec != ORDINARY ==> h.sec.name.Of? && h.sec == Section(h.sec.name, true, 0))
    && (h.Held? && h.sec.name.Of? ==>
          forall d :: d in ds && d.shndx.ShnSpace? ==> d.shndx.space == h.sec.name.space)
  }

  lemma {:induction false} AgreeingRun(h: State, ds: seq<Decl>)
    requires AllCommons(ds) && Agree(ds) && Harmless(h, ds)
    ensures Run(h, ds) != Refused
    decreases |ds|
  {
    if ds != [] {
      var d := ds[0];
      assert d in ds && forall e :: e in ds[1..] ==> e in ds;
      forall e | e in ds[1..] && e.shndx.ShnSpace? && d.shndx.ShnSpace?
        ensures e.shndx.space == d.shndx.space
      {
        assert !Clash(d, e);
      }
      AgreeingRun(Step(h, d), ds[1..]);
    }
  }

  // --------------------------------- a clash in the open: never accepted

  /** Once a name is held in a space above every ordinary common to come, another
      space to come is refused. */
  lemma {:induction false} HeldInTheOpen(space: Space, size: nat, ds: seq<Decl>, b: Decl)
    requires AllCommons(ds) && b in ds && b.shndx.ShnSpace? && b.shndx.space != space
    requires forall o :: o in ds && o.shndx.ShnCommon? ==> o.size < size
    ensures Run(Held(Section(Of(space), true, 0), size), ds) == Refused
    decreases |ds|
  {
    var d := ds[0];
    assert d in ds && forall e :: e in ds[1..] ==> e in ds;
    if d.shndx.ShnSpace? && d.shndx.space != space {
      RefusedStays(ds[1..]);
    } else {
      assert b in ds[1..];
      var size' := if d.size > size then d.size else size;
      HeldInTheOpen(space, size', ds[1..], b);
    }
  }

  lemma {:induction false} OpenClashRun(h: State, ds: seq<Decl>, a: Decl, b: Decl)
    requires AllCommons(ds) && a in ds && b in ds && Clash(a, b)
    requires AboveOrdinary(a, ds) && AboveOrdinary(b, ds)
    requires h.Empty? || (h.Held? && h.sec == ORDINARY && h.size < a.size && h.size < b.size)
             || (h.Held? && h.sec.name.Of? && h.sec == Section(h.sec.name, true, 0))
    ensures Run(h, ds) == Refused
    decreases |ds|
  {
    var d := ds[0];
    assert d in ds && forall e :: e in ds[1..] ==> e in ds;
    if Conflicts(h, d.shndx) {
      RefusedStays(ds[1..]);
    } else if d == a || d == b {
      var other := if d == a then b else a;
      assert other in ds[1..];
      var h' := Step(h, d);
      assert h' == Held(Section(Of(d.shndx.space), true, 0), h'.size) && h'.size >= d.size;
      HeldInTheOpen(d.shndx.space, h'.size, ds[1..], other);
    } else {
      OpenClashRun(Step(h, d), ds[1..], a, b);
    }
  }

  // ------------------------------------ a hidden clash: the order decides

  function NoLarger(ds: seq<Decl>, m: nat): (out: seq<Decl>)
    ensures forall d :: d in out <==> d in ds && d.size <= m
  {
    if ds == [] then [] else (if ds[0].size <= m then [ds[0]] else []) + NoLarger(ds[1..], m)
  }

  function Larger(ds: seq<Decl>, m: nat): (out: seq<Decl>)
    ensures forall d :: d in out <==> d in ds && d.size > m
  {
    if ds == [] then [] else (if ds[0].size > m then [ds[0]] else []) + Larger(ds[1..], m)
  }

  lemma {:induction false} SplitKeeps(ds: seq<Decl>, m: nat)
    ensures multiset(NoLarger(ds, m) + Larger(ds, m)) == multiset(ds)
  {
    if ds != [] {
      SplitKeeps(ds[1..], m);
      assert ds == [ds[0]] + ds[1..];
    }
  }

  /** A holder as large as all that comes stays. */
  lemma {:induction false} OrdinaryCovers(m: nat, ds: seq<Decl>)
    requires forall d :: d in ds ==> d.size <= m
    ensures Run(Held(ORDINARY, m), ds) == Held(ORDINARY, m)
    decreases |ds|
  {
    if ds != [] {
      assert ds[0] in ds && forall e :: e in ds[1..] ==> e in ds;
      OrdinaryCovers(m, ds[1..]);
    }
  }

  function Without(ds: seq<Decl>, d: Decl): (out: seq<Decl>)
    requires d in ds
    ensures multiset(out) == multiset(ds) - multiset{d}
  {
    if ds[0] == d then
      assert ds == [d] + ds[1..];
      ds[1..]
    else
      assert ds == [ds[0]] + ds[1..];
      [ds[0]] + Without(ds[1..], d)
  }

  lemma {:induction false} LargestOrdinary(ds: seq<Decl>) returns (o: Decl)
    requires exists d :: d in ds && d.shndx.ShnCommon?
    ensures o in ds && o.shndx.ShnCommon?
    ensures forall d :: d in ds && d.shndx.ShnCommon? ==> d.size <= o.size
    decreases |ds|
  {
    o :| o in ds && o.shndx.ShnCommon?;
    if d :| d in ds && d.shndx.ShnCommon? && d.size > o.size {
      var rest := NoSmaller(ds, d.size);
      assert d in rest && o !in rest;
      ShorterWithout(ds, d.size, o);
      o := LargestOrdinary(rest);
    }
  }

  function NoSmaller(ds: seq<Decl>, m: nat): (out: seq<Decl>)
    ensures forall d :: d in out <==> d in ds && d.size >= m
    ensures |out| <= |ds|
  {
    if ds == [] then [] else (if ds[0].size >= m then [ds[0]] else []) + NoSmaller(ds[1..], m)
  }

  lemma {:induction false} ShorterWithout(ds: seq<Decl>, m: nat, o: Decl)
    requires o in ds && o.size < m
    ensures |NoSmaller(ds, m)| < |ds|
  {
    if ds[0] != o { ShorterWithout(ds[1..], m, o); }
  }

  /** Ordinary common O first, then what it covers, then the rest. */
  function CoverFirst(ds: seq<Decl>, o: Decl): (perm: seq<Decl>)
    requires o in ds
    ensures SameDecls(ds, perm)
  {
    var rest := Without(ds, o);
    var tail := NoLarger(rest, o.size) + Larger(rest, o.size);
    SplitKeeps(rest, o.size);
    assert multiset([o] + tail) == multiset{o} + multiset(tail);
    [o] + tail
  }

  lemma CoverFirstRuns(ds: seq<Decl>, o: Decl)
    requires AllCommons(ds) && o in ds && o.shndx.ShnCommon? && !ClashInTheOpen(ds)
    requires forall d :: d in ds && d.shndx.ShnCommon? ==> d.size <= o.size
    ensures Accepts(CoverFirst(ds, o))
  {
    hide SameDecls;
    var rest := Without(ds, o);
    var small, large := NoLarger(rest, o.size), Larger(rest, o.size);
    RestMembers(ds, o);
    forall a, b | a in large && b in large
      ensures !Clash(a, b)
    {
      assert AboveOrdinary(a, ds) && AboveOrdinary(b, ds);
    }
    assert CoverFirst(ds, o)[1..] == small + large;
    assert Run(Empty, CoverFirst(ds, o)) == Run(Held(ORDINARY, o.size), small + large);
    RunAppend(Held(ORDINARY, o.size), small, large);
    OrdinaryCovers(o.size, small);
    AgreeingRun(Held(ORDINARY, o.size), large);
  }

  lemma AcceptingOrder(ds: seq<Decl>) returns (perm: seq<Decl>)
    requires AllCommons(ds) && !ClashInTheOpen(ds)
    ensures SameDecls(ds, perm) && Accepts(perm)
  {
    if Agree(ds) {
      AgreeingRun(Empty, ds);
      return ds;
    }
    assert exists d :: d in ds && d.shndx.ShnCommon? by {
      var a, b :| a in ds && b in ds && Clash(a, b);
      assert !(AboveOrdinary(a, ds) && AboveOrdinary(b, ds));
    }
    var o := LargestOrdinary(ds);
    CoverFirstRuns(ds, o);
    perm := CoverFirst(ds, o);
  }

  lemma RestMembers(ds: seq<Decl>, o: Decl)
    requires o in ds
    ensures forall d :: d in Without(ds, o) ==> d in ds
  {
    forall d | d in Without(ds, o)
      ensures d in ds
    {
      assert d in multiset(Without(ds, o));
    }
  }

  /** A and B first. */
  function BothFirst(ds: seq<Decl>, a: Decl, b: Decl): (perm: seq<Decl>)
    requires a in ds && b in ds && a != b
    ensures SameDecls(ds, perm)
    ensures b in Without(ds, a) && perm == [a] + ([b] + Without(Without(ds, a), b))
  {
    var one := Without(ds, a);
    assert b in multiset(ds) && b in multiset(one);
    var rest := Without(one, b);
    assert multiset([a] + ([b] + rest)) == multiset{a} + (multiset{b} + multiset(rest));
    [a] + ([b] + rest)
  }

  /** Two clashing declarations first. */
  lemma RefusingOrder(ds: seq<Decl>) returns (perm: seq<Decl>)
    requires AllCommons(ds) && !Agree(ds)
    ensures SameDecls(ds, perm) && !Accepts(perm)
  {
    var a, b :| a in ds && b in ds && Clash(a, b);
    perm := BothFirst(ds, a, b);
    TwoThenRest(a, b, Without(Without(ds, a), b));
  }

  lemma TwoThenRest(a: Decl, b: Decl, rest: seq<Decl>)
    requires Clash(a, b)
    ensures !Accepts([a] + ([b] + rest))
  {
    RunAppend(Empty, [a], [b] + rest);
    RunAppend(Step(Empty, a), [b], rest);
    assert Run(Empty, [a]) == Run(Step(Empty, a), []);
    assert Run(Step(Empty, a), [b]) == Run(Step(Step(Empty, a), b), []);
    assert Step(Step(Empty, a), b) == Refused;
    RefusedStays(rest);
  }

  /** Commons of one name, ordinary ones among them: every order links exactly
      when the spaces agree, no order links exactly when two spaces clash in the
      open, and in the rest the order of the objects decides. */
  lemma WhenOrderDecides(ds: seq<Decl>)
    requires AllCommons(ds)
    ensures Agree(ds) <==> forall perm :: SameDecls(ds, perm) ==> Accepts(perm)
    ensures ClashInTheOpen(ds) <==> forall perm :: SameDecls(ds, perm) ==> !Accepts(perm)
  {
    forall perm | SameDecls(ds, perm)
      ensures Agree(ds) ==> Accepts(perm)
      ensures ClashInTheOpen(ds) ==> !Accepts(perm)
    {
      SameMembers(ds, perm);
      if Agree(ds) { AgreeingRun(Empty, perm); }
      if ClashInTheOpen(ds) {
        var a, b :| a in ds && b in ds && Clash(a, b) && AboveOrdinary(a, ds) && AboveOrdinary(b, ds);
        OpenClashRun(Empty, perm, a, b);
      }
    }
    if !Agree(ds) { var perm := RefusingOrder(ds); }
    if !ClashInTheOpen(ds) { var perm := AcceptingOrder(ds); }
  }
}
