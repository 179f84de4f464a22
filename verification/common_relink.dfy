/** Relocatable links in front of a link: the common an `ld -r' writes for a
    group of declarations of one name, in the place of the group.  Among
    memory-space commons it stands for the group anywhere; with ordinary ones
    among them, exactly when this module says. */
module CommonRelink {
  import opened Wrappers
  import opened Commons
  import opened CommonLink
  import opened MixedCommons

  /** What the table can hold of a name only commons declare. */
  predicate Proper(h: State)
  {
    h != Taken && (h.Held? ==> h.sec == SectionFor(OutputIndex(ShnCommon, h.sec)))
  }

  lemma {:induction false} ProperRun(h: State, ds: seq<Decl>)
    requires Proper(h) && AllCommons(ds)
    ensures Proper(Run(h, ds))
    decreases |ds|
  {
    if ds != [] { ProperRun(Step(h, ds[0]), ds[1..]); }
  }

  /** The common `ld -r' writes for a group that links to H. */
  function Written(name: nat, h: State): Decl
    requires h.Held?
  {
    Emit(name, h.sec, h.size)
  }

  // ------------------------------------------------- memory-space commons only

  /** The verdicts on two groups put together. */
  function Join(a: State, b: State): State
  {
    match (a, b)
    case (Empty, _) => b
    case (_, Empty) => a
    case (Held(s, m), Held(t, n)) => if s == t then Held(s, if n > m then n else m) else Refused
    case _ => Refused
  }

  /** Nothing, a space, or a refusal. */
  predicate SpaceOnly(h: State)
  {
    h == Empty || h == Refused || (h.Held? && h.sec.name.Of? && h.sec == Section(h.sec.name, true, 0))
  }

  lemma {:induction false} RunJoins(h: State, ds: seq<Decl>)
    requires SpaceOnly(h) && AllSpaces(ds)
    ensures SpaceOnly(Run(Empty, ds)) && Run(h, ds) == Join(h, Run(Empty, ds))
    decreases |ds|
  {
    if ds != [] {
      var d, rest := ds[0], ds[1..];
      assert d in ds && forall e :: e in rest ==> e in ds;
      RunJoins(Step(h, d), rest);
      RunJoins(Step(Empty, d), rest);
      var one, more := Step(Empty, d), Run(Empty, rest);
      assert Step(h, d) == Join(h, one);
      assert Join(Join(h, one), more) == Join(h, Join(one, more));
    }
  }

  /** A name's declarations in the objects of a link: one of an object's own, or
      what an `ld -r' writes for those of the objects it links. */
  datatype Origin = Own(d: Decl) | Relink(parts: seq<Origin>)

  predicate OwnSpaces(o: Origin)
  {
    match o
    case Own(d) => d.shndx.ShnSpace?
    case Relink(parts) => forall p :: p in parts ==> OwnSpaces(p)
  }

  function OwnDecls(os: seq<Origin>): seq<Decl>
  {
    if os == [] then []
    else (match os[0] case Own(d) => [d] case Relink(parts) => OwnDecls(parts)) + OwnDecls(os[1..])
  }

  /** What the link of OS holds for the name in the end, each `ld -r' run first;
      one that fails fails the whole. */
  function LinkOf(os: seq<Origin>): State
    decreases os, 0
  {
    if os == [] then Empty else Then(LinkOf(os[..|os| - 1]), os[|os| - 1])
  }

  function Then(h: State, o: Origin): State
    decreases o, 0
  {
    match o
    case Own(d) => Step(h, d)
    case Relink(parts) =>
      match LinkOf(parts)
      case Empty => h
      case Held(sec, size) => Step(h, Written(0, Held(sec, size)))
      case _ => Refused
  }

  lemma {:induction false} OwnDeclsAppend(a: seq<Origin>, b: seq<Origin>)
    ensures OwnDecls(a + b) == OwnDecls(a) + OwnDecls(b)
  {
    if a == [] {
      assert a + b == b;
    } else {
      assert (a + b)[1..] == a[1..] + b;
      OwnDeclsAppend(a[1..], b);
    }
  }

  /** Memory-space commons under one name: any tree of `ld -r' steps gives the
      verdict, the space and the size of one straight link. */
  lemma {:induction false} RelinkTreesAreTransparent(os: seq<Origin>)
    requires forall o :: o in os ==> OwnSpaces(o)
    ensures AllSpaces(OwnDecls(os)) && LinkOf(os) == Run(Empty, OwnDecls(os))
    decreases os, 0
  {
    hide Run, Step, Then;
    if os != [] {
      var front, o := os[..|os| - 1], os[|os| - 1];
      assert os == front + [o] && o in os && forall p :: p in front ==> p in os;
      RelinkTreesAreTransparent(front);
      OwnDeclsAppend(front, [o]);
      RunJoins(Empty, OwnDecls(front));
      OriginIsItsDecls(Run(Empty, OwnDecls(front)), o);
      RunAppend(Empty, OwnDecls(front), OwnDecls([o]));
    } else {
      assert Run(Empty, []) == Empty by { NoDecls(); }
    }
  }

  lemma NoDecls()
    ensures Run(Empty, []) == Empty
  {
  }

  lemma {:induction false} OriginIsItsDecls(h: State, o: Origin)
    requires OwnSpaces(o) && SpaceOnly(h)
    ensures AllSpaces(OwnDecls([o])) && Then(h, o) == Run(h, OwnDecls([o]))
    decreases o, 0
  {
    assert [o][1..] == [];
    match o {
      case Own(d) =>
        assert OwnDecls([o]) == [d] && [d][1..] == [];
        assert Run(h, [d]) == Run(Step(h, d), []);
      case Relink(parts) =>
        RelinkTreesAreTransparent(parts);
        assert OwnDecls([o]) == OwnDecls(parts);
        hide Run, OwnDecls, LinkOf;
        RunJoins(h, OwnDecls(parts));
    }
  }

  /** In whatever tree of links a common is declared, the common written in the
      end is of its space and at least as large. */
  lemma SpaceSurvivesTrees(os: seq<Origin>, d: Decl)
    requires (forall o :: o in os ==> OwnSpaces(o)) && d in OwnDecls(os) && LinkOf(os).Held?
    ensures var w := Written(d.name, LinkOf(os)); w.shndx == d.shndx && w.size >= d.size
  {
    RelinkTreesAreTransparent(os);
    SpacesMustAgree(OwnDecls(os));
    assert d.shndx.ShnSpace?;
  }

  // ------------------------------------------------- ordinary ones among them

  predicate Foreign(d: Decl, space: Space) { d.shndx.ShnSpace? && d.shndx.space != space }

  /** What becomes of a name held in SPACE at size M by the declarations DS: one
      of another space is met, or an ordinary one takes over first, or neither. */
  datatype Fate = Clashed | Covered | Quiet

  function FateOf(space: Space, m: nat, ds: seq<Decl>): Fate
    decreases |ds|
  {
    if ds == [] then Quiet
    else if Foreign(ds[0], space) then Clashed
    else if ds[0].shndx.ShnCommon? && ds[0].size > m then Covered
    else FateOf(space, if ds[0].shndx.ShnSpace? && ds[0].size > m then ds[0].size else m, ds[1..])
  }

  function InSpace(space: Space): Section { Section(Of(space), true, 0) }

  /** The name as held by a link that had it in SPACE at size M before it met the
      declarations that make E on their own, none of which took over. */
  predicate StillHeld(space: Space, m: nat, e: State)
  {
    e == Empty || (e.Held? && (e.sec == InSpace(space) || (e.sec == ORDINARY && e.size <= m)))
  }

  function HeldAfter(space: Space, m: nat, e: State): State
    requires StillHeld(space, m, e)
  {
    Held(InSpace(space), if e.Held? && e.size > m then e.size else m)
  }

  lemma {:induction false} GroupOnSpace(space: Space, m: nat, e: State, ds: seq<Decl>)
    requires AllCommons(ds) && StillHeld(space, m, e) && Run(e, ds) != Refused
    ensures var h := HeldAfter(space, m, e);
            match FateOf(space, h.size, ds)
            case Clashed => Run(h, ds) == Refused
            case Covered => Run(h, ds) == Run(e, ds) && Run(e, ds).Held? && Run(e, ds).size > m
            case Quiet => StillHeld(space, m, Run(e, ds)) && Run(h, ds) == HeldAfter(space, m, Run(e, ds))
    decreases |ds|
  {
    if ds != [] {
      var d, rest := ds[0], ds[1..];
      var h := HeldAfter(space, m, e);
      assert d in ds && IsCommon(d) && forall x :: x in rest ==> x in ds;
      if Foreign(d, space) {
        RefusedStays(rest);
      } else if d.shndx.ShnCommon? && d.size > h.size {
        assert Step(h, d) == Step(e, d) == Held(ORDINARY, d.size);
        SizesGrow(Step(e, d), rest);
      } else {
        assert StillHeld(space, m, Step(e, d)) && Step(h, d) == HeldAfter(space, m, Step(e, d));
        GroupOnSpace(space, m, Step(e, d), rest);
      }
    }
  }

  lemma {:induction false} SizesGrow(h: State, ds: seq<Decl>)
    requires h.Held? && Run(h, ds) != Refused
    ensures Run(h, ds).Held? && Run(h, ds).size >= h.size
    decreases |ds|
  {
    if ds != [] {
      if Step(h, ds[0]) == Refused { RefusedStays(ds[1..]); }
      SizesGrow(Step(h, ds[0]), ds[1..]);
    }
  }

  /** An ordinary holder of size M: what is no larger passes by, and the first
      that is larger takes over as it does in the group. */
  lemma {:induction false} GroupOnOrdinary(m: nat, e: State, ds: seq<Decl>)
    requires AllCommons(ds) && (e == Empty || (e.Held? && e.size <= m)) && Run(e, ds) != Refused
    ensures var out := Run(e, ds);
            Run(Held(ORDINARY, m), ds) == if out.Held? && out.size > m then out else Held(ORDINARY, m)
    ensures Run(e, ds) == Empty || Run(e, ds).Held?
    decreases |ds|
  {
    if ds != [] {
      var d, rest := ds[0], ds[1..];
      assert d in ds && IsCommon(d) && forall x :: x in rest ==> x in ds;
      if Step(e, d) == Refused { RefusedStays(rest); }
      if d.size > m {
        assert Step(e, d) == Step(Held(ORDINARY, m), d);
        SizesGrow(Step(e, d), rest);
      } else {
        GroupOnOrdinary(m, Step(e, d), rest);
      }
    }
  }

  /** On a name held as H, the group DS meets a clash - one of its declarations,
      before an ordinary one takes over - exactly when the common W does. */
  predicate SameClash(h: State, ds: seq<Decl>, w: Decl)
  {
    h.Held? && h.sec.name.Of? ==>
      (FateOf(h.sec.name.space, h.size, ds) == Clashed <==> Foreign(w, h.sec.name.space))
  }

  /** On a name held as H, the common written for a group does what the group
      does exactly when both or neither meet a clash. */
  lemma GroupIsItsCommon(name: nat, h: State, ds: seq<Decl>)
    requires Proper(h) && AllCommons(ds) && Run(Empty, ds).Held?
    ensures var w := Written(name, Run(Empty, ds));
            Run(h, ds) == Step(h, w) <==> SameClash(h, ds, w)
  {
    var out := Run(Empty, ds);
    ProperRun(Empty, ds);
    match h {
      case Empty =>
      case Refused => RefusedStays(ds);
      case Held(sec, m) =>
        if sec.name.Of? {
          GroupOnSpace(sec.name.space, m, Empty, ds);
        } else {
          GroupOnOrdinary(m, Empty, ds);
        }
    }
  }

  // ------------------------------------------------------- in every link

  /** Relinking the group DS in front of the declarations POST and behind PRE
      makes no difference. */
  predicate SameIn(name: nat, pre: seq<Decl>, ds: seq<Decl>, post: seq<Decl>)
    requires Run(Empty, ds).Held?
  {
    Run(Empty, pre + ([Written(name, Run(Empty, ds))] + post)) == Run(Empty, pre + (ds + post))
  }

  ghost predicate SameInEveryLink(name: nat, ds: seq<Decl>)
    requires Run(Empty, ds).Held?
  {
    forall pre, post :: AllCommons(pre) && AllCommons(post) ==> SameIn(name, pre, ds, post)
  }

  /** No declaration before the C-th is an ordinary one of any size. */
  predicate FirstSpace(ds: seq<Decl>, c: nat)
  {
    c < |ds| && ds[c].shndx.ShnSpace? && forall j :: 0 <= j < c && ds[j].shndx.ShnCommon? ==> ds[j].size == 0
  }

  predicate AllOrdinary(ds: seq<Decl>) { forall d :: d in ds ==> d.shndx.ShnCommon? }

  /** A group the common W written for it speaks for: ordinary commons only, or
      commons of the space W names, of which one stands before every ordinary
      one, if there are any. */
  predicate SpokenFor(ds: seq<Decl>, w: Decl)
  {
    match w.shndx
    case ShnSpace(space) =>
      (forall d :: d in ds ==> !Foreign(d, space)) && exists c :: 0 <= c < |ds| && FirstSpace(ds, c)
    case _ => AllOrdinary(ds)
  }

  lemma {:induction false} NoForeignNoClash(space: Space, m: nat, ds: seq<Decl>)
    requires forall d :: d in ds ==> !Foreign(d, space)
    ensures FateOf(space, m, ds) != Clashed
    decreases |ds|
  {
    if ds != [] {
      assert ds[0] in ds && forall d :: d in ds[1..] ==> d in ds;
      NoForeignNoClash(space, if ds[0].shndx.ShnSpace? && ds[0].size > m then ds[0].size else m, ds[1..]);
    }
  }

  /** One of the declarations of another space comes first. */
  lemma {:induction false} FirstClashes(space: Space, m: nat, ds: seq<Decl>, c: nat)
    requires FirstSpace(ds, c) && forall d :: d in ds && d.shndx.ShnSpace? ==> Foreign(d, space)
    ensures FateOf(space, m, ds) == Clashed
    decreases |ds|
  {
    assert ds[0] in ds && ds[c] in ds;
    if c > 0 && !Foreign(ds[0], space) {
      assert forall d :: d in ds[1..] ==> d in ds;
      assert FirstSpace(ds[1..], c - 1) by {
        assert forall j :: 0 <= j < c - 1 ==> ds[1..][j] == ds[j + 1];
      }
      FirstClashes(space, m, ds[1..], c - 1);
    }
  }

  /** Held at 0, a clash shows the first declaration of a space. */
  lemma {:induction false} ClashHasFirst(space: Space, ds: seq<Decl>) returns (c: nat)
    requires AllCommons(ds) && FateOf(space, 0, ds) == Clashed
    requires forall d :: d in ds && d.shndx.ShnSpace? ==> Foreign(d, space)
    ensures FirstSpace(ds, c)
    decreases |ds|
  {
    assert ds[0] in ds && IsCommon(ds[0]);
    if Foreign(ds[0], space) {
      c := 0;
    } else {
      assert forall d :: d in ds[1..] ==> d in ds;
      c := ClashHasFirst(space, ds[1..]);
      assert forall j :: 0 <= j < c ==> ds[1..][j] == ds[j + 1];
      c := c + 1;
    }
  }

  /** Held at the size of the group, nothing takes over: any other space clashes. */
  lemma {:induction false} LargeHolderClashes(space: Space, m: nat, ds: seq<Decl>, d: Decl)
    requires d in ds && Foreign(d, space) && forall x :: x in ds ==> x.size <= m
    ensures FateOf(space, m, ds) == Clashed
    decreases |ds|
  {
    assert ds[0] in ds && forall x :: x in ds[1..] ==> x in ds;
    if !Foreign(ds[0], space) { LargeHolderClashes(space, m, ds[1..], d); }
  }

  lemma {:induction false} GroupSizes(h: State, ds: seq<Decl>, m: nat)
    requires AllCommons(ds) && (h == Empty || h.Held?) && Run(h, ds).Held? && Run(h, ds).size == m
    ensures forall d :: d in ds ==> d.size <= m
    decreases |ds|
  {
    if ds != [] {
      assert ds[0] in ds && IsCommon(ds[0]) && forall x :: x in ds[1..] ==> x in ds;
      if Step(h, ds[0]) == Refused { RefusedStays(ds[1..]); }
      GroupSizes(Step(h, ds[0]), ds[1..], m);
      SizesGrow(Step(h, ds[0]), ds[1..]);
    }
  }

  function Another(space: Space): (other: Space)
    ensures other != space
  {
    if space == Rbss then Bbss else Rbss
  }

  lemma SpokenForIsEnough(name: nat, pre: seq<Decl>, ds: seq<Decl>, post: seq<Decl>)
    requires AllCommons(pre) && AllCommons(ds) && AllCommons(post) && Run(Empty, ds).Held?
    requires SpokenFor(ds, Written(name, Run(Empty, ds)))
    ensures SameIn(name, pre, ds, post)
  {
    var h, w := Run(Empty, pre), Written(name, Run(Empty, ds));
    ProperRun(Empty, pre);
    if h.Held? && h.sec.name.Of? {
      var held := h.sec.name.space;
      if w.shndx.ShnSpace? && w.shndx.space != held {
        var c :| 0 <= c < |ds| && FirstSpace(ds, c);
        FirstClashes(held, h.size, ds, c);
      } else {
        NoForeignNoClash(held, h.size, ds);
      }
    }
    GroupIsItsCommon(name, h, ds);
    GroupInPlace(w, pre, ds, post);
  }

  lemma GroupInPlace(w: Decl, pre: seq<Decl>, ds: seq<Decl>, post: seq<Decl>)
    ensures Run(Empty, pre + ([w] + post)) == Run(Step(Run(Empty, pre), w), post)
    ensures Run(Empty, pre + (ds + post)) == Run(Run(Run(Empty, pre), ds), post)
  {
    RunAppend(Empty, pre, [w] + post);
    assert ([w] + post)[0] == w && ([w] + post)[1..] == post;
    RunAppend(Empty, pre, ds + post);
    RunAppend(Run(Empty, pre), ds, post);
  }

  /** In a link that holds the name in SPACE at size M and ends with the group. */
  lemma BehindSpace(name: nat, space: Space, m: nat, ds: seq<Decl>)
    requires AllCommons(ds) && Run(Empty, ds).Held? && SameInEveryLink(name, ds)
    ensures FateOf(space, m, ds) == Clashed <==> Foreign(Written(name, Run(Empty, ds)), space)
  {
    var pre := [Decl(name, ShnSpace(space), m)];
    assert AllCommons(pre) && SameIn(name, pre, ds, []);
    assert Run(Empty, pre) == Held(InSpace(space), m) by {
      assert pre[1..] == [];
    }
    GroupInPlace(Written(name, Run(Empty, ds)), pre, ds, []);
    GroupIsItsCommon(name, Run(Empty, pre), ds);
  }

  lemma SpokenForIsNeeded(name: nat, ds: seq<Decl>)
    requires AllCommons(ds) && Run(Empty, ds).Held? && SameInEveryLink(name, ds)
    ensures SpokenFor(ds, Written(name, Run(Empty, ds)))
  {
    var out := Run(Empty, ds);
    var w := Written(name, out);
    GroupSizes(Empty, ds, out.size);
    hide SameInEveryLink;
    forall d | d in ds && d.shndx.ShnSpace?
      ensures w.shndx == d.shndx
    {
      var space := if w.shndx.ShnSpace? then w.shndx.space else Another(d.shndx.space);
      BehindSpace(name, space, out.size, ds);
      if Foreign(d, space) { LargeHolderClashes(space, out.size, ds, d); }
    }
    if w.shndx.ShnSpace? {
      var other := Another(w.shndx.space);
      BehindSpace(name, other, 0, ds);
      var c := ClashHasFirst(other, ds);
    } else {
      forall d | d in ds
        ensures d.shndx.ShnCommon?
      {
        assert IsCommon(d);
        ProperRun(Empty, ds);
      }
    }
  }

  /** A group of commons can be linked first in every link, without changing
      what any link holds for the name, exactly when its common speaks for it. */
  lemma WhenRelinkingIsTransparent(name: nat, ds: seq<Decl>)
    requires AllCommons(ds) && Run(Empty, ds).Held?
    ensures SameInEveryLink(name, ds) <==> SpokenFor(ds, Written(name, Run(Empty, ds)))
  {
    if SpokenFor(ds, Written(name, Run(Empty, ds))) {
      forall pre, post | AllCommons(pre) && AllCommons(post)
        ensures SameIn(name, pre, ds, post)
      {
        SpokenForIsEnough(name, pre, ds, post);
      }
    }
    if SameInEveryLink(name, ds) { SpokenForIsNeeded(name, ds); }
  }

  /** `.xcomm x,20', then `.comm x,10' and `.icomm x,5': refused in one link, and
      accepted when the last two have been linked first. */
  lemma RelinkingHidesClash()
    ensures var pre, ds := [Decl(0, ShnSpace(Xbss), 20)], [Decl(0, ShnCommon, 10), Decl(0, ShnSpace(Ibss), 5)];
            && Run(Empty, ds) == Held(ORDINARY, 10) && Run(Empty, pre + ds) == Refused
            && Run(Empty, pre + [Written(0, Run(Empty, ds))]) == Held(InSpace(Xbss), 20)
  {
    var x, c, i := Decl(0, ShnSpace(Xbss), 20), Decl(0, ShnCommon, 10), Decl(0, ShnSpace(Ibss), 5);
    var ds := [c, i];
    assert [x][1..] == [] && ds[1..] == [i] && [i][1..] == [];
    assert Run(Empty, ds) == Run(Step(Empty, c), [i]) == Run(Step(Step(Empty, c), i), []);
    RunAppend(Empty, [x], ds);
    assert Run(Empty, [x]) == Run(Step(Empty, x), []);
    var h := Held(InSpace(Xbss), 20);
    assert Run(h, ds) == Run(Step(h, c), [i]) == Run(Step(Step(h, c), i), []);
    var w := Written(0, Held(ORDINARY, 10));
    RunAppend(Empty, [x], [w]);
    assert [w][1..] == [] && Run(h, [w]) == Run(Step(h, w), []);
  }
}
