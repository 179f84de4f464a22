/** One name declared as a common by several objects: what the link makes of it,
    in which orders, and through how many relocatable links. */
module CommonLink {
  import opened Wrappers
  import opened Commons

  /** A declaration of a common: `.comm' or one of the memory-space directives. */
  datatype Decl = Decl(name: nat, shndx: Shndx, size: nat)

  predicate IsCommon(d: Decl) { !d.shndx.ShnOther? }

  /** What the hash table holds for a name; Taken is any type but a common, and
      Refused marks a link that has failed. */
  datatype State = Empty | Held(sec: Section, size: nat) | Taken | Refused

  /** The section an ordinary common sits in, COMMON, which is no common section
      to the port, and the one fabricated for a space. */
  const ORDINARY: Section := Section(Other(0), false, 0)

  function SectionFor(shndx: Shndx): Section
  {
    match SpaceOf(shndx) case Some(s) => Section(Of(s), true, 0) case None => ORDINARY
  }

  /** elf32_i51_check_common_space (): the declaration names a space and the name
      is held in another. */
  predicate Conflicts(h: State, shndx: Shndx)
  {
    SpaceOf(shndx).Some? && h.Held? && IndexOf(h.sec).Some? && SpaceOf(IndexOf(h.sec).value) != SpaceOf(shndx)
  }

  /** Two commons of one name in the generic linker: the larger is kept and, of
      equals, the first. */
  function Arbitrate(h: State, sec: Section, size: nat): State
  {
    match h
    case Empty => Held(sec, size)
    case Held(_, held) => if size > held then Held(sec, size) else h
    case _ => h
  }

  function Step(h: State, d: Decl): State
  {
    if Conflicts(h, d.shndx) then Refused else Arbitrate(h, SectionFor(d.shndx), d.size)
  }

  function Run(h: State, ds: seq<Decl>): State
    decreases |ds|
  {
    if ds == [] then h else Run(Step(h, ds[0]), ds[1..])
  }

  /** The link's hash table. */
  class Table {
    var entries: map<nat, State>

    ghost function Get(name: nat): State
      reads this
    {
      if name in entries then entries[name] else Empty
    }

    /** elf32_i51_add_symbol_hook () and the generic linker after it, on a common
        of the object OBJ. */
    method AddCommon(obj: Bfd, d: Decl) returns (ok: bool)
      requires IsCommon(d)
      modifies this, obj
      ensures ok == !Conflicts(old(Get(d.name)), d.shndx)
      ensures ok ==> Get(d.name) == Step(old(Get(d.name)), d)
      ensures !ok ==> entries == old(entries) && obj.sections == old(obj.sections)
      ensures forall other :: other != d.name ==> Get(other) == old(Get(other))
      ensures ok && d.shndx.ShnSpace? ==> obj.sections == Collected(old(obj.sections), d.shndx.space)
    {
      var h := if d.name in entries then entries[d.name] else Empty;
      var sec := ORDINARY;
      match SpaceOf(d.shndx) {
        case None =>
        case Some(space) =>
          if h.Held? {
            var index := IndexOf(h.sec);
            if index.Some? {
              var oldspace := SpaceOf(index.value);
              if oldspace != Some(space) {
                return false;
              }
            }
          }
          sec := obj.CommonSection(space);
      }
      entries := entries[d.name := Arbitrate(h, sec, d.size)];
      return true;
    }
  }

  // ------------------------------------------------- memory-space commons only

  predicate AllIn(ds: seq<Decl>, space: Space) { forall d :: d in ds ==> d.shndx == ShnSpace(space) }

  predicate AllSpaces(ds: seq<Decl>) { forall d :: d in ds ==> d.shndx.ShnSpace? }

  /** SIZE is the largest among DS. */
  predicate IsMaximum(ds: seq<Decl>, size: nat)
  {
    (forall d :: d in ds ==> d.size <= size) && (exists d :: d in ds && d.size == size)
  }

  predicate SizesWithin(ds: seq<Decl>, held: nat, size: nat)
  {
    held <= size && (forall d :: d in ds ==> d.size <= size) && (held == size || exists d :: d in ds && d.size == size)
  }

  lemma {:induction false} RefusedStays(ds: seq<Decl>)
    ensures Run(Refused, ds) == Refused
  {
    if ds != [] { RefusedStays(ds[1..]); }
  }

  /** From a holder in SPACE: refused exactly when some declaration is elsewhere,
      and otherwise held in SPACE at the largest size. */
  lemma {:induction false} RunFromSpace(space: Space, held: nat, ds: seq<Decl>)
    requires AllSpaces(ds)
    ensures var out := Run(Held(Section(Of(space), true, 0), held), ds);
            if AllIn(ds, space) then
              out.Held? && out.sec == Section(Of(space), true, 0) && SizesWithin(ds, held, out.size)
            else out == Refused
    decreases |ds|
  {
    if ds == [] {
    } else {
      var d := ds[0];
      assert d in ds;
      assert ds == [d] + ds[1..];
      if d.shndx == ShnSpace(space) {
        var held' := if d.size > held then d.size else held;
        RunFromSpace(space, held', ds[1..]);
        if AllIn(ds[1..], space) {
          assert AllIn(ds, space);
          var out := Run(Held(Section(Of(space), true, 0), held'), ds[1..]);
          WidenSizes(d, ds[1..], held, held', out.size);
        } else {
          assert !AllIn(ds, space);
        }
      } else {
        RefusedStays(ds[1..]);
      }
    }
  }

  lemma WidenSizes(d: Decl, rest: seq<Decl>, held: nat, held': nat, size: nat)
    requires held' == (if d.size > held then d.size else held)
    requires SizesWithin(rest, held', size)
    ensures SizesWithin([d] + rest, held, size)
  {
    var ds := [d] + rest;
    assert d in ds;
    if held' != size {
      var e :| e in rest && e.size == size;
      assert e in ds;
    }
  }

  /** Memory-space commons of one name link exactly when all of them name one
      space, and are then held in it at the largest size. */
  lemma SpacesMustAgree(ds: seq<Decl>)
    requires ds != [] && AllSpaces(ds)
    ensures var out := Run(Empty, ds);
            var space := ds[0].shndx.space;
            if AllIn(ds, space) then out.Held? && out.sec == Section(Of(space), true, 0) && IsMaximum(ds, out.size)
            else out == Refused
  {
    var d := ds[0];
    assert ds == [d] + ds[1..] && d in ds;
    RunFromSpace(d.shndx.space, d.size, ds[1..]);
    if AllIn(ds[1..], d.shndx.space) {
      assert AllIn(ds, d.shndx.space);
      WidenSizes(d, ds[1..], 0, d.size, Run(Empty, ds).size);
    }
  }

  /** The verdict, the space and the size do not depend on the order. */
  lemma OrderIndependent(ds: seq<Decl>, perm: seq<Decl>)
    requires AllSpaces(ds) && multiset(ds) == multiset(perm)
    ensures Run(Empty, ds) == Run(Empty, perm)
  {
    assert forall d :: d in ds <==> d in multiset(ds);
    assert forall d :: d in perm <==> d in multiset(perm);
    if ds == [] {
      assert |multiset(perm)| == 0;
    } else {
      assert ds[0] in perm;
      SpacesMustAgree(ds);
      SpacesMustAgree(perm);
    }
  }

  // --------------------------------------------------- several names at once

  function OfName(ds: seq<Decl>, name: nat): (out: seq<Decl>)
    ensures forall d :: d in out <==> d in ds && d.name == name
  {
    if ds == [] then [] else (if ds[0].name == name then [ds[0]] else []) + OfName(ds[1..], name)
  }

  lemma {:induction false} OfNameMultiset(ds: seq<Decl>, name: nat, d: Decl)
    ensures multiset(OfName(ds, name))[d] == if d.name == name then multiset(ds)[d] else 0
  {
    if ds != [] {
      OfNameMultiset(ds[1..], name, d);
      assert ds == [ds[0]] + ds[1..];
    }
  }

  /** A link of many names is accepted when none of them is refused. */
  ghost predicate LinkAccepted(ds: seq<Decl>) { forall name: nat :: Run(Empty, OfName(ds, name)) != Refused }

  /** A link of memory-space commons under any names: every order of the
      declarations is accepted or none, and gives each name one space and size. */
  lemma LinkOrderIndependent(ds: seq<Decl>, perm: seq<Decl>)
    requires AllSpaces(ds) && multiset(ds) == multiset(perm)
    ensures LinkAccepted(ds) <==> LinkAccepted(perm)
    ensures forall name: nat :: Run(Empty, OfName(ds, name)) == Run(Empty, OfName(perm, name))
  {
    forall name: nat
      ensures Run(Empty, OfName(ds, name)) == Run(Empty, OfName(perm, name))
    {
      forall d
        ensures multiset(OfName(ds, name))[d] == multiset(OfName(perm, name))[d]
      {
        OfNameMultiset(ds, name, d);
        OfNameMultiset(perm, name, d);
      }
      assert multiset(OfName(ds, name)) == multiset(OfName(perm, name));
      OrderIndependent(OfName(ds, name), OfName(perm, name));
    }
  }

  // ----------------------------------------------------- relocatable links

  /** The common a relocatable link writes for a name it holds: SHN_COMMON as the
      generic linker leaves it, put right by the output hook. */
  function Emit(name: nat, sec: Section, size: nat): Decl
  {
    Decl(name, OutputIndex(ShnCommon, sec), size)
  }

  lemma {:induction false} RunAppend(h: State, a: seq<Decl>, b: seq<Decl>)
    ensures Run(h, a + b) == Run(Run(h, a), b)
    decreases |a|
  {
    if a == [] {
      assert a + b == b;
    } else {
      assert (a + b)[0] == a[0] && (a + b)[1..] == a[1..] + b;
      RunAppend(Step(h, a[0]), a[1..], b);
    }
  }

  /** Every section that comes to hold a name is one SectionFor () gives. */
  lemma {:induction false} HolderIsMade(h: State, ds: seq<Decl>)
    requires h.Held? ==> h.sec == SectionFor(OutputIndex(ShnCommon, h.sec))
    ensures Run(h, ds).Held? ==> Run(h, ds).sec == SectionFor(OutputIndex(ShnCommon, Run(h, ds).sec))
    decreases |ds|
  {
    if ds != [] { HolderIsMade(Step(h, ds[0]), ds[1..]); }
  }

  /** Linking the first objects of a link with `ld -r' changes neither the verdict
      nor what the name ends as: the common written out, index and size, stands
      for the declarations behind it, ordinary ones included.  Behind other
      objects that takes more. */
  lemma FirstGroupRelinks(name: nat, first: seq<Decl>, later: seq<Decl>)
    requires Run(Empty, first).Held?
    ensures var h := Run(Empty, first);
            Run(Empty, [Emit(name, h.sec, h.size)] + later) == Run(Empty, first + later)
  {
    var h := Run(Empty, first);
    RunAppend(Empty, first, later);
    HolderIsMade(Empty, first);
    var d := Emit(name, h.sec, h.size);
    assert ([d] + later)[0] == d && ([d] + later)[1..] == later;
    assert Step(Empty, d) == h;
  }

  /** The index after N relocatable links of one object on its own. */
  function Relinked(shndx: Shndx, size: nat, n: nat): Shndx
  {
    if n == 0 then shndx
    else
      match Run(Empty, [Decl(0, Relinked(shndx, size, n - 1), size)])
      case Held(sec, _) => OutputIndex(ShnCommon, sec)
      case _ => ShnOther(0)
  }

  /** A common keeps its space through any number of relocatable links. */
  lemma {:induction false} SpaceSurvives(space: Space, size: nat, n: nat)
    ensures Relinked(ShnSpace(space), size, n) == ShnSpace(space)
    ensures Relinked(ShnCommon, size, n) == ShnCommon
  {
    if n > 0 {
      SpaceSurvives(space, size, n - 1);
      var a, b := Decl(0, ShnSpace(space), size), Decl(0, ShnCommon, size);
      assert Run(Empty, [a]) == Run(Step(Empty, a), []);
      assert Run(Empty, [b]) == Run(Step(Empty, b), []);
    }
  }
}
