/** Links through `ld -r' steps write the same bytes as one straight link.

    The generic half of BFD is taken as given: a relocatable link places the
    input sections of one name one after another without padding, shifts every
    r_offset and every symbol value by the place of its section, and replaces
    section symbols by the output section's, which is worth 0. */
module PartialLink {
  import opened Bits
  import opened Relocation
  import opened RelocateSection
  import opened SectionParts

  /** What a relocation names: a section symbol, another local symbol - each
      with its section and st_value - or a global by name. */
  datatype Ref = SectionRef(sec: nat, value: int) | LocalRef(sec: nat, value: int) | GlobalRef(name: nat)

  datatype ObjRela = ObjRela(kind: Kind, offset: nat, ref: Ref, addend: int)

  datatype Section = Section(bytes: seq<byte>, rels: seq<ObjRela>)

  datatype Def = Def(sec: nat, value: int)

  /** An object: its sections, by number, and the globals it defines. */
  datatype Object = Object(secs: seq<Section>, globals: map<nat, Def>)

  /** The sections RELS name are below N. */
  predicate RefsBelow(rels: seq<ObjRela>, n: nat) { forall r :: r in rels ==> !r.ref.GlobalRef? ==> r.ref.sec < n }

  /** An object of N sections that names no others. */
  predicate WellFormed(o: Object, n: nat)
  {
    && |o.secs| == n
    && (forall k :: 0 <= k < n ==> RefsBelow(o.secs[k].rels, n))
    && (forall g :: g in o.globals ==> o.globals[g].sec < n)
  }

  predicate AllWellFormed(os: seq<Object>, n: nat)
  {
    os == [] || (WellFormed(os[0], n) && AllWellFormed(os[1..], n))
  }

  /** The place of each of an object's sections in the output sections. */
  type Places = seq<nat>

  function After(at: Places, o: Object): (r: Places)
    requires |at| == |o.secs|
    ensures |r| == |at|
    ensures forall k :: 0 <= k < |at| ==> r[k] == at[k] + |o.secs[k].bytes|
  {
    seq(|at|, k requires 0 <= k < |at| => at[k] + |o.secs[k].bytes|)
  }

  function AfterAll(at: Places, os: seq<Object>, n: nat): (r: Places)
    requires |at| == n && AllWellFormed(os, n)
    ensures |r| == n
    decreases |os|
  {
    if os == [] then at else AfterAll(After(at, os[0]), os[1..], n)
  }

  function Plus(a: Places, b: Places): (r: Places)
    requires |a| == |b|
    ensures |r| == |a|
    ensures forall k :: 0 <= k < |a| ==> r[k] == a[k] + b[k]
  {
    seq(|a|, k requires 0 <= k < |a| => a[k] + b[k])
  }

  function Origin(n: nat): Places { seq(n, _ => 0) }

  // ------------------------------------------------------ relocatable link

  /** The relocatable branch of elf32_i51_relocate_section (): only an addend
      against a section symbol changes. */
  function Readdend(r: ObjRela, at: Places): int
    requires !r.ref.GlobalRef? ==> r.ref.sec < |at|
  {
    match r.ref
    case SectionRef(s, v) => r.addend + at[s] + v
    case _ => r.addend
  }

  /** A symbol as it leaves a relocatable link. */
  function Reref(ref: Ref, at: Places): Ref
    requires !ref.GlobalRef? ==> ref.sec < |at|
  {
    match ref
    case SectionRef(s, v) => SectionRef(s, 0)
    case LocalRef(s, v) => LocalRef(s, v + at[s])
    case GlobalRef(g) => ref
  }

  function ShiftRela(r: ObjRela, k: nat, at: Places): ObjRela
    requires k < |at| && (!r.ref.GlobalRef? ==> r.ref.sec < |at|)
  {
    ObjRela(r.kind, r.offset + at[k], Reref(r.ref, at), Readdend(r, at))
  }

  function ShiftRelas(rels: seq<ObjRela>, k: nat, at: Places): (out: seq<ObjRela>)
    requires k < |at| && RefsBelow(rels, |at|)
    ensures |out| == |rels|
    ensures forall i :: 0 <= i < |rels| ==> out[i] == ShiftRela(rels[i], k, at)
  {
    seq(|rels|, i requires 0 <= i < |rels| => ShiftRela(rels[i], k, at))
  }

  function ShiftGlobals(globals: map<nat, Def>, at: Places): (out: map<nat, Def>)
    requires forall g :: g in globals ==> globals[g].sec < |at|
    ensures forall g :: g in out ==> out[g].sec < |at|
  {
    map g | g in globals :: Def(globals[g].sec, globals[g].value + at[globals[g].sec])
  }

  /** `ld -r' of the objects OS, the first of them placed at AT.  A name keeps
      its first definition. */
  function Combine(os: seq<Object>, n: nat, at: Places): (out: Object)
    requires |at| == n && AllWellFormed(os, n)
    ensures |out.secs| == n
    ensures forall g :: g in out.globals ==> out.globals[g].sec < n
  {
    if os == [] then Object(seq(n, _ => Section([], [])), map[])
    else
      var o := os[0];
      var rest := Combine(os[1..], n, After(at, o));
      Object(seq(n, k requires 0 <= k < n =>
                 Section(o.secs[k].bytes + rest.secs[k].bytes,
                         ShiftRelas(o.secs[k].rels, k, at) + rest.secs[k].rels)),
             rest.globals + ShiftGlobals(o.globals, at))
  }

  function PartialLinkOf(os: seq<Object>, n: nat): Object
    requires AllWellFormed(os, n)
  {
    Combine(os, n, Origin(n))
  }

  // ------------------------------------------------------------ final link

  function Addresses(globals: map<nat, Def>, at: Places, vma: seq<int>): map<nat, Symbol>
    requires |at| == |vma| && forall g :: g in globals ==> globals[g].sec < |at|
  {
    map g | g in globals :: Defined(vma[globals[g].sec] + at[globals[g].sec] + globals[g].value)
  }

  /** Addresses of the names the objects OS define, placed from AT on in
      sections based at VMA, over those the link brings along. */
  function Environment(os: seq<Object>, n: nat, at: Places, vma: seq<int>, given: map<nat, Symbol>): map<nat, Symbol>
    requires |at| == |vma| == n && AllWellFormed(os, n)
  {
    if os == [] then given
    else
      var o := os[0];
      Environment(os[1..], n, After(at, o), vma, given)
      + Addresses(o.globals, at, vma)
  }

  /** The symbol of a relocation in a final link. */
  function Target(ref: Ref, at: Places, vma: seq<int>, env: map<nat, Symbol>): Symbol
    requires |at| == |vma| && (!ref.GlobalRef? ==> ref.sec < |at|)
  {
    match ref
    case SectionRef(s, v) => Defined(vma[s] + at[s] + v)
    case LocalRef(s, v) => Defined(vma[s] + at[s] + v)
    case GlobalRef(g) => if g in env then env[g] else Undefined
  }

  /** The relocations of a section of an object at AT, symbols looked up. */
  function Resolve(rels: seq<ObjRela>, at: Places, vma: seq<int>, env: map<nat, Symbol>): (out: seq<Rela>)
    requires |at| == |vma| && RefsBelow(rels, |at|)
    ensures |out| == |rels|
    ensures forall i :: 0 <= i < |rels| ==>
      out[i] == Rela(rels[i].kind, rels[i].offset, Target(rels[i].ref, at, vma, env), rels[i].addend)
  {
    seq(|rels|, i requires 0 <= i < |rels| =>
        Rela(rels[i].kind, rels[i].offset, Target(rels[i].ref, at, vma, env), rels[i].addend))
  }

  /** What each object brings to output section K. */
  function Parts(os: seq<Object>, n: nat, k: nat, at: Places, vma: seq<int>, env: map<nat, Symbol>): seq<Part>
    requires |at| == |vma| == n && k < n && AllWellFormed(os, n)
    decreases |os|
  {
    if os == [] then []
    else
      var o := os[0];
      [Part(o.secs[k].bytes, Resolve(o.secs[k].rels, at, vma, env))] + Parts(os[1..], n, k, After(at, o), vma, env)
  }

  /** A final link's output section K: object by object, each section relocated
      on its own contents at its own address.  Not clean when any of them
      failed. */
  function FinalLink(os: seq<Object>, n: nat, k: nat, vma: seq<int>, given: map<nat, Symbol>): Run
    requires |vma| == n && k < n && AllWellFormed(os, n)
  {
    FinalParts(Turn, Parts(os, n, k, Origin(n), vma, Environment(os, n, Origin(n), vma, given)), vma[k])
  }

  // ------------------------------------------------- what a grouping keeps

  /** A list of relocations of the same effect as another: the same fields and
      kinds, and the same value of symbol and addend together. */
  predicate SameEffect(a: Rela, b: Rela)
  {
    && a.kind == b.kind && a.offset == b.offset
    && (a.symbol.Undefined? <==> b.symbol.Undefined?)
    && SymbolValue(a.symbol) + a.addend == SymbolValue(b.symbol) + b.addend
  }

  predicate SameEffects(a: seq<Rela>, b: seq<Rela>)
  {
    |a| == |b| && forall i :: 0 <= i < |a| ==> SameEffect(a[i], b[i])
  }

  lemma {:induction false} SameEffectsRun(run: Run, a: seq<Rela>, b: seq<Rela>, base: int)
    requires SameEffects(a, b)
    ensures RunBy(Turn, run, a, base) == RunBy(Turn, run, b, base)
    decreases |a|
  {
    hide LinkPatch, Relocated;
    if a != [] && !run.stopped {
      assert SameEffect(a[0], b[0]);
      assert NextBy(Turn, run, a[0], base) == NextBy(Turn, run, b[0], base);
      SameEffectsRun(NextBy(Turn, run, a[0], base), a[1..], b[1..], base);
    }
  }

  lemma {:induction false} PartsAppend(os: seq<Object>, ps: seq<Object>, n: nat, k: nat, at: Places, vma: seq<int>,
                                       env: map<nat, Symbol>)
    requires |at| == |vma| == n && k < n && AllWellFormed(os, n) && AllWellFormed(ps, n)
    ensures AllWellFormed(os + ps, n)
    ensures Parts(os + ps, n, k, at, vma, env)
            == Parts(os, n, k, at, vma, env) + Parts(ps, n, k, AfterAll(at, os, n), vma, env)
    decreases |os|
  {
    if os == [] {
      assert os + ps == ps;
    } else {
      assert (os + ps)[0] == os[0] && (os + ps)[1..] == os[1..] + ps;
      PartsAppend(os[1..], ps, n, k, After(at, os[0]), vma, env);
    }
  }

  lemma {:induction false} EnvironmentAppend(os: seq<Object>, ps: seq<Object>, n: nat, at: Places, vma: seq<int>,
                                             given: map<nat, Symbol>)
    requires |at| == |vma| == n && AllWellFormed(os, n) && AllWellFormed(ps, n)
    ensures AllWellFormed(os + ps, n)
    ensures Environment(os + ps, n, at, vma, given)
            == Environment(os, n, at, vma, Environment(ps, n, AfterAll(at, os, n), vma, given))
    decreases |os|
  {
    if os == [] {
      assert os + ps == ps;
    } else {
      assert (os + ps)[0] == os[0] && (os + ps)[1..] == os[1..] + ps;
      EnvironmentAppend(os[1..], ps, n, After(at, os[0]), vma, given);
    }
  }

  lemma {:induction false} BytesAppend(a: seq<Part>, b: seq<Part>)
    ensures Bytes(a + b) == Bytes(a) + Bytes(b)
  {
    if a == [] {
      assert a + b == b;
    } else {
      assert (a + b)[1..] == a[1..] + b;
      BytesAppend(a[1..], b);
    }
  }

  lemma {:induction false} RelasAppend(a: seq<Part>, b: seq<Part>, off: nat)
    ensures Relas(a + b, off) == Relas(a, off) + Relas(b, off + |Bytes(a)|)
    decreases |a|
  {
    if a == [] {
      assert a + b == b;
    } else {
      assert (a + b)[1..] == a[1..] + b;
      RelasAppend(a[1..], b, off + |a[0].bytes|);
      assert off + |a[0].bytes| + |Bytes(a[1..])| == off + |Bytes(a)|;
    }
  }

  /** The places after a combination are those after its objects. */
  lemma {:induction false} PlacesOfCombine(os: seq<Object>, n: nat, at: Places, d: Places)
    requires |at| == |d| == n && AllWellFormed(os, n)
    ensures AfterAll(at, os, n) == After(at, Combine(os, n, d))
    decreases |os|
  {
    if os != [] {
      PlacesOfCombine(os[1..], n, After(at, os[0]), After(d, os[0]));
    }
  }

  lemma AddressesOfNone(at: Places, vma: seq<int>)
    requires |at| == |vma|
    ensures Addresses(map[], at, vma) == map[]
  {
  }

  lemma AddressesOfShifted(globals: map<nat, Def>, at: Places, d: Places, vma: seq<int>)
    requires |at| == |d| == |vma| && forall g :: g in globals ==> globals[g].sec < |at|
    ensures Addresses(ShiftGlobals(globals, d), at, vma) == Addresses(globals, Plus(at, d), vma)
  {
  }

  lemma AddressesOfUnion(a: map<nat, Def>, b: map<nat, Def>, at: Places, vma: seq<int>)
    requires |at| == |vma|
    requires (forall g :: g in a ==> a[g].sec < |at|) && (forall g :: g in b ==> b[g].sec < |at|)
    ensures Addresses(a + b, at, vma) == Addresses(a, at, vma) + Addresses(b, at, vma)
  {
  }

  lemma MapPlus<K, V>(a: map<K, V>, b: map<K, V>, c: map<K, V>)
    ensures a + (b + c) == (a + b) + c
  {
  }

  /** The symbols a combination defines are those its objects define. */
  lemma {:induction false} EnvironmentOfCombine(os: seq<Object>, n: nat, at: Places, d: Places, vma: seq<int>,
                                                given: map<nat, Symbol>)
    requires |at| == |d| == |vma| == n && AllWellFormed(os, n)
    ensures given + Addresses(Combine(os, n, d).globals, at, vma) == Environment(os, n, Plus(at, d), vma, given)
    decreases |os|
  {
    hide Addresses, ShiftGlobals;
    if os == [] {
      AddressesOfNone(at, vma);
    } else {
      var o := os[0];
      var rest := Combine(os[1..], n, After(d, o)).globals;
      EnvironmentOfCombine(os[1..], n, at, After(d, o), vma, given);
      assert Plus(at, After(d, o)) == After(Plus(at, d), o);
      var shifted := ShiftGlobals(o.globals, d);
      AddressesOfUnion(rest, shifted, at, vma);
      AddressesOfShifted(o.globals, at, d, vma);
      MapPlus(given, Addresses(rest, at, vma), Addresses(shifted, at, vma));
      assert Combine(os, n, d).globals == rest + shifted;
    }
  }

  lemma RefsShifted(rels: seq<ObjRela>, k: nat, d: Places)
    requires RefsBelow(rels, |d|) && k < |d|
    ensures RefsBelow(ShiftRelas(rels, k, d), |d|)
  {
    var out := ShiftRelas(rels, k, d);
    forall r | r in out
      ensures !r.ref.GlobalRef? ==> r.ref.sec < |d|
    {
      var i :| 0 <= i < |out| && out[i] == r;
      assert rels[i] in rels;
    }
  }

  lemma RefsAppend(a: seq<ObjRela>, b: seq<ObjRela>, n: nat)
    requires RefsBelow(a, n) && RefsBelow(b, n)
    ensures RefsBelow(a + b, n)
  {
  }

  lemma {:induction false} CombineRefs(os: seq<Object>, n: nat, k: nat, d: Places)
    requires |d| == n && AllWellFormed(os, n) && k < n
    ensures RefsBelow(Combine(os, n, d).secs[k].rels, n)
    decreases |os|
  {
    if os != [] {
      hide RefsBelow;
      var o := os[0];
      CombineRefs(os[1..], n, k, After(d, o));
      RefsShifted(o.secs[k].rels, k, d);
      RefsAppend(ShiftRelas(o.secs[k].rels, k, d), Combine(os[1..], n, After(d, o)).secs[k].rels, n);
    } else {
      assert Combine(os, n, d).secs[k].rels == [];
    }
  }

  /** Resolving a list in two parts. */
  lemma ResolveAppend(a: seq<ObjRela>, b: seq<ObjRela>, at: Places, vma: seq<int>, env: map<nat, Symbol>)
    requires |at| == |vma| && RefsBelow(a, |at|) && RefsBelow(b, |at|)
    ensures RefsBelow(a + b, |at|)
    ensures Resolve(a + b, at, vma, env) == Resolve(a, at, vma, env) + Resolve(b, at, vma, env)
  {
  }

  lemma MoveAllAppend(a: seq<Rela>, b: seq<Rela>, off: nat)
    ensures MoveAll(a + b, off) == MoveAll(a, off) + MoveAll(b, off)
  {
  }

  lemma NoEffects()
    ensures SameEffects([], [])
  {
  }

  lemma SameEffectsAppend(a: seq<Rela>, b: seq<Rela>, a': seq<Rela>, b': seq<Rela>)
    requires SameEffects(a, a') && SameEffects(b, b')
    ensures SameEffects(a + b, a' + b')
  {
  }

  /** A relocation carried through `ld -r' has the effect it had. */
  lemma ShiftedEffect(rels: seq<ObjRela>, k: nat, at: Places, d: Places, vma: seq<int>, env: map<nat, Symbol>, off: nat)
    requires |at| == |d| == |vma| && k < |at|
    requires RefsBelow(rels, |at|)
    ensures RefsBelow(ShiftRelas(rels, k, d), |at|)
    ensures SameEffects(MoveAll(Resolve(ShiftRelas(rels, k, d), at, vma, env), off),
                        MoveAll(Resolve(rels, Plus(at, d), vma, env), off + d[k]))
  {
    RefsShifted(rels, k, d);
    forall i | 0 <= i < |rels|
      ensures var r := ShiftRela(rels[i], k, d); !r.ref.GlobalRef? ==> r.ref.sec < |at|
    {
      assert rels[i] in rels;
    }
  }

  /** The contents and the relocations of a combination, placed at AT, are in
      effect those of its objects where they then lie. */
  lemma {:induction false} SectionOfCombine(os: seq<Object>, n: nat, k: nat, at: Places, d: Places, vma: seq<int>,
                                            env: map<nat, Symbol>, off: nat)
    requires |at| == |d| == |vma| == n && k < n && AllWellFormed(os, n)
    ensures var c, ps := Combine(os, n, d), Parts(os, n, k, Plus(at, d), vma, env);
            && RefsBelow(c.secs[k].rels, n)
            && c.secs[k].bytes == Bytes(ps)
            && SameEffects(MoveAll(Resolve(c.secs[k].rels, at, vma, env), off), Relas(ps, off + d[k]))
    decreases |os|
  {
    hide SameEffects, ShiftRela, Target, RefsBelow;
    CombineRefs(os, n, k, d);
    if os == [] {
      NoEffects();
    } else {
      var o := os[0];
      var d' := After(d, o);
      var rest := Combine(os[1..], n, d').secs[k];
      RefsShifted(o.secs[k].rels, k, d);
      CombineRefs(os[1..], n, k, d');
      SectionOfCombine(os[1..], n, k, at, d', vma, env, off);
      assert Plus(at, d') == After(Plus(at, d), o);
      ShiftedEffect(o.secs[k].rels, k, at, d, vma, env, off);
      JoinEffects(o.secs[k], rest, k, at, d, vma, env, off,
                  Relas(Parts(os[1..], n, k, Plus(at, d'), vma, env), off + d'[k]));
      assert Combine(os, n, d).secs[k].rels == ShiftRelas(o.secs[k].rels, k, d) + rest.rels;
      assert off + d[k] + |o.secs[k].bytes| == off + d'[k];
    }
  }

  /** A shifted section before a combined one. */
  lemma JoinEffects(s: Section, rest: Section, k: nat, at: Places, d: Places, vma: seq<int>, env: map<nat, Symbol>,
                    off: nat, theirs: seq<Rela>)
    requires |at| == |d| == |vma| && k < |at|
    requires RefsBelow(s.rels, |at|) && RefsBelow(ShiftRelas(s.rels, k, d), |at|) && RefsBelow(rest.rels, |at|)
    requires SameEffects(MoveAll(Resolve(ShiftRelas(s.rels, k, d), at, vma, env), off),
                         MoveAll(Resolve(s.rels, Plus(at, d), vma, env), off + d[k]))
    requires SameEffects(MoveAll(Resolve(rest.rels, at, vma, env), off), theirs)
    ensures RefsBelow(ShiftRelas(s.rels, k, d) + rest.rels, |at|)
    ensures SameEffects(MoveAll(Resolve(ShiftRelas(s.rels, k, d) + rest.rels, at, vma, env), off),
                        MoveAll(Resolve(s.rels, Plus(at, d), vma, env), off + d[k]) + theirs)
  {
    hide SameEffects, Target;
    var mine := ShiftRelas(s.rels, k, d);
    ResolveAppend(mine, rest.rels, at, vma, env);
    MoveAllAppend(Resolve(mine, at, vma, env), Resolve(rest.rels, at, vma, env), off);
    SameEffectsAppend(MoveAll(Resolve(mine, at, vma, env), off), MoveAll(Resolve(rest.rels, at, vma, env), off),
                      MoveAll(Resolve(s.rels, Plus(at, d), vma, env), off + d[k]), theirs);
  }

  // ------------------------------------------------------------ transparency

  lemma CombineWellFormed(os: seq<Object>, n: nat)
    requires AllWellFormed(os, n)
    ensures WellFormed(PartialLinkOf(os, n), n)
  {
    forall k | 0 <= k < n
      ensures RefsBelow(PartialLinkOf(os, n).secs[k].rels, n)
    {
      CombineRefs(os, n, k, Origin(n));
    }
  }

  // ------------------------------------- relocations in their own sections

  /** The fields of RELS end by LIMIT. */
  predicate EndBy(rels: seq<ObjRela>, limit: nat) { forall r :: r in rels ==> r.offset + Width(r.kind) <= limit }

  /** The relocations of each object's section K lie in that section. */
  predicate AllInOwn(os: seq<Object>, n: nat, k: nat)
    requires AllWellFormed(os, n) && k < n
  {
    os == [] || (EndBy(os[0].secs[k].rels, |os[0].secs[k].bytes|) && AllInOwn(os[1..], n, k))
  }

  lemma EndByAppend(a: seq<ObjRela>, b: seq<ObjRela>, la: nat, lb: nat, limit: nat)
    requires EndBy(a, la) && EndBy(b, lb) && la <= limit && lb <= limit
    ensures EndBy(a + b, limit)
  {
  }

  lemma EndByShifted(rels: seq<ObjRela>, limit: nat, k: nat, d: Places)
    requires EndBy(rels, limit) && RefsBelow(rels, |d|) && k < |d|
    ensures EndBy(ShiftRelas(rels, k, d), d[k] + limit)
  {
    var out := ShiftRelas(rels, k, d);
    forall r | r in out
      ensures r.offset + Width(r.kind) <= d[k] + limit
    {
      var i :| 0 <= i < |out| && out[i] == r;
      assert rels[i] in rels;
    }
  }

  /** The relocations of a combination placed at D end within D and its contents. */
  lemma {:induction false} CombineEnds(os: seq<Object>, n: nat, k: nat, d: Places)
    requires |d| == n && AllWellFormed(os, n) && k < n && AllInOwn(os, n, k)
    ensures var c := Combine(os, n, d);
            EndBy(c.secs[k].rels, d[k] + |c.secs[k].bytes|)
    decreases |os|
  {
    if os != [] {
      hide EndBy;
      var o := os[0];
      var rest := Combine(os[1..], n, After(d, o)).secs[k];
      CombineEnds(os[1..], n, k, After(d, o));
      EndByShifted(o.secs[k].rels, |o.secs[k].bytes|, k, d);
      EndByAppend(ShiftRelas(o.secs[k].rels, k, d), rest.rels, d[k] + |o.secs[k].bytes|,
                  After(d, o)[k] + |rest.bytes|, d[k] + |o.secs[k].bytes| + |rest.bytes|);
    }
  }

  lemma CombineInOwn(os: seq<Object>, n: nat, k: nat)
    requires AllWellFormed(os, n) && k < n && AllInOwn(os, n, k)
    ensures AllWellFormed([PartialLinkOf(os, n)], n) && AllInOwn([PartialLinkOf(os, n)], n, k)
  {
    hide EndBy;
    CombineWellFormed(os, n);
    CombineEnds(os, n, k, Origin(n));
    assert [PartialLinkOf(os, n)][1..] == [];
  }

  lemma {:induction false} InOwnAppend(a: seq<Object>, b: seq<Object>, n: nat, k: nat)
    requires AllWellFormed(a, n) && AllWellFormed(b, n) && k < n
    ensures AllWellFormed(a + b, n) && (AllInOwn(a + b, n, k) <==> AllInOwn(a, n, k) && AllInOwn(b, n, k))
  {
    hide WellFormed, EndBy;
    WellFormedAppend(a, b, n);
    if a == [] {
      assert a + b == b;
    } else {
      assert (a + b)[1..] == a[1..] + b;
      InOwnAppend(a[1..], b, n, k);
    }
  }

  /** The parts of a link lie in themselves exactly when the objects' relocations
      do. */
  lemma {:induction false} PartsInPart(os: seq<Object>, n: nat, k: nat, at: Places, vma: seq<int>,
                                       env: map<nat, Symbol>)
    requires |at| == |vma| == n && k < n && AllWellFormed(os, n)
    ensures AllInPart(Parts(os, n, k, at, vma, env)) <==> AllInOwn(os, n, k)
    decreases |os|
  {
    hide InPart, EndBy;
    if os != [] {
      PartsInPart(os[1..], n, k, After(at, os[0]), vma, env);
      PartInPart(os[0], n, k, at, vma, env);
      var ps := Parts(os, n, k, at, vma, env);
      assert ps == [ps[0]] + ps[1..];
      assert ps[0] in ps && forall p :: p in ps ==> p == ps[0] || p in ps[1..];
      assert forall p :: p in ps[1..] ==> p in ps;
    }
  }

  lemma PartInPart(o: Object, n: nat, k: nat, at: Places, vma: seq<int>, env: map<nat, Symbol>)
    requires |at| == |vma| == n && k < n && WellFormed(o, n)
    ensures InPart(Part(o.secs[k].bytes, Resolve(o.secs[k].rels, at, vma, env)))
       <==> EndBy(o.secs[k].rels, |o.secs[k].bytes|)
  {
    var given, rels := o.secs[k].rels, Resolve(o.secs[k].rels, at, vma, env);
    if EndBy(given, |o.secs[k].bytes|) {
      forall r | r in rels
        ensures FieldEnd(r) <= |o.secs[k].bytes|
      {
        var i :| 0 <= i < |rels| && rels[i] == r;
        assert given[i] in given;
      }
    }
    if InPart(Part(o.secs[k].bytes, rels)) {
      forall r | r in given
        ensures r.offset + Width(r.kind) <= |o.secs[k].bytes|
      {
        var i :| 0 <= i < |given| && given[i] == r;
        assert rels[i] in rels;
      }
    }
  }

  /** Parts of the same bytes and relocations of the same effects link alike. */
  lemma SameParts(a: seq<Part>, b: seq<Part>, base: int)
    requires AllInPart(a) && AllInPart(b)
    requires Bytes(a) == Bytes(b) && SameEffects(Relas(a, 0), Relas(b, 0))
    ensures SameLink(FinalParts(Turn, a, base), FinalParts(Turn, b, base))
  {
    hide LinkPatch, Relocated, Turn, SameEffects, Relas, Bytes, FinalParts, RunBy;
    TurnIsLocalToParts();
    PartsAreOneRun(Turn, [], 0, a, base);
    PartsAreOneRun(Turn, [], 0, b, base);
    SameEffectsRun(Run([] + Bytes(a), false, false), Relas(a, 0), Relas(b, 0), base);
    assert [] + FinalParts(Turn, a, base).bytes == FinalParts(Turn, a, base).bytes;
    assert [] + FinalParts(Turn, b, base).bytes == FinalParts(Turn, b, base).bytes;
  }

  lemma SameEffectsRefl(a: seq<Rela>)
    ensures SameEffects(a, a)
  {
  }

  /** One part that is in effect MID, before POST. */
  lemma SameBefore(one: Part, mid: seq<Part>, post: seq<Part>, off: nat)
    requires one.bytes == Bytes(mid)
    requires SameEffects(MoveAll(one.rels, off), Relas(mid, off))
    ensures Bytes([one] + post) == Bytes(mid + post)
    ensures SameEffects(Relas([one] + post, off), Relas(mid + post, off))
  {
    hide SameEffects, Relas, MoveAll, Bytes;
    BytesAppend([one], post); BytesAppend(mid, post);
    RelasAppend([one], post, off); RelasAppend(mid, post, off);
    OnePart(one, off);
    var tail := Relas(post, off + |one.bytes|);
    SameEffectsRefl(tail);
    SameEffectsAppend(MoveAll(one.rels, off), tail, Relas(mid, off), tail);
  }

  /** PRE before parts that are the same in effect. */
  lemma SameAfter(pre: seq<Part>, a: seq<Part>, b: seq<Part>)
    requires Bytes(a) == Bytes(b) && SameEffects(Relas(a, |Bytes(pre)|), Relas(b, |Bytes(pre)|))
    ensures Bytes(pre + a) == Bytes(pre + b)
    ensures SameEffects(Relas(pre + a, 0), Relas(pre + b, 0))
  {
    hide SameEffects, Relas, Bytes;
    BytesAppend(pre, a); BytesAppend(pre, b);
    RelasAppend(pre, a, 0); RelasAppend(pre, b, 0);
    SameEffectsRefl(Relas(pre, 0));
    SameEffectsAppend(Relas(pre, 0), Relas(a, |Bytes(pre)|), Relas(pre, 0), Relas(b, |Bytes(pre)|));
  }

  lemma OnePart(one: Part, off: nat)
    ensures Bytes([one]) == one.bytes && Relas([one], off) == MoveAll(one.rels, off)
  {
    assert [one][1..] == [];
    assert one.bytes + [] == one.bytes;
    assert MoveAll(one.rels, off) + [] == MoveAll(one.rels, off);
  }

  /** The environment sees no difference between objects and their combination. */
  lemma SameEnvironment(pre: seq<Object>, os: seq<Object>, post: seq<Object>, n: nat, vma: seq<int>,
                        given: map<nat, Symbol>)
    requires |vma| == n && AllWellFormed(pre, n) && AllWellFormed(os, n) && AllWellFormed(post, n)
    ensures var c := PartialLinkOf(os, n);
            && AllWellFormed(pre + ([c] + post), n) && AllWellFormed(pre + (os + post), n)
            && Environment(pre + ([c] + post), n, Origin(n), vma, given)
               == Environment(pre + (os + post), n, Origin(n), vma, given)
  {
    var c := PartialLinkOf(os, n);
    var at := AfterAll(Origin(n), pre, n);
    CombineWellFormed(os, n);
    WellFormedAppend(os, post, n);
    assert ([c] + post)[1..] == post;
    EnvironmentAppend(pre, [c] + post, n, Origin(n), vma, given);
    EnvironmentAppend(pre, os + post, n, Origin(n), vma, given);
    EnvironmentAppend(os, post, n, at, vma, given);
    PlacesOfCombine(os, n, at, Origin(n));
    var after := Environment(post, n, AfterAll(at, os, n), vma, given);
    EnvironmentOfCombine(os, n, at, Origin(n), vma, after);
    assert Plus(at, Origin(n)) == at;
  }

  lemma {:induction false} WellFormedAppend(a: seq<Object>, b: seq<Object>, n: nat)
    requires AllWellFormed(a, n) && AllWellFormed(b, n)
    ensures AllWellFormed(a + b, n)
  {
    if a == [] {
      assert a + b == b;
    } else {
      assert (a + b)[1..] == a[1..] + b;
      WellFormedAppend(a[1..], b, n);
    }
  }

  /** The part a combination brings, placed at AT. */
  function CombinedPart(os: seq<Object>, n: nat, k: nat, at: Places, vma: seq<int>, env: map<nat, Symbol>): Part
    requires |at| == |vma| == n && k < n && AllWellFormed(os, n)
  {
    CombineWellFormed(os, n);
    var c := PartialLinkOf(os, n);
    Part(c.secs[k].bytes, Resolve(c.secs[k].rels, at, vma, env))
  }

  /** The parts of the two links differ in the combined one only. */
  lemma PartsAround(pre: seq<Object>, os: seq<Object>, post: seq<Object>, n: nat, k: nat, vma: seq<int>,
                    env: map<nat, Symbol>)
    requires |vma| == n && k < n && AllWellFormed(pre, n) && AllWellFormed(os, n) && AllWellFormed(post, n)
    ensures var c, at := PartialLinkOf(os, n), AfterAll(Origin(n), pre, n);
            var head, tail := Parts(pre, n, k, Origin(n), vma, env), Parts(post, n, k, AfterAll(at, os, n), vma, env);
            && AllWellFormed(pre + ([c] + post), n) && AllWellFormed(pre + (os + post), n)
            && Parts(pre + ([c] + post), n, k, Origin(n), vma, env)
               == head + ([CombinedPart(os, n, k, at, vma, env)] + tail)
            && Parts(pre + (os + post), n, k, Origin(n), vma, env)
               == head + (Parts(os, n, k, at, vma, env) + tail)
  {
    hide WellFormed, Resolve, Combine;
    var c := PartialLinkOf(os, n);
    var at := AfterAll(Origin(n), pre, n);
    CombineWellFormed(os, n);
    assert ([c] + post)[0] == c && ([c] + post)[1..] == post;
    PartsAppend(os, post, n, k, at, vma, env);
    PartsAppend(pre, [c] + post, n, k, Origin(n), vma, env);
    PartsAppend(pre, os + post, n, k, Origin(n), vma, env);
    PlacesOfCombine(os, n, at, Origin(n));
  }

  /** Combining objects whose relocations lie in their own sections changes
      nothing a final link writes. */
  lemma CombiningInOwn(pre: seq<Object>, os: seq<Object>, post: seq<Object>, n: nat, k: nat,
                       vma: seq<int>, given: map<nat, Symbol>)
    requires |vma| == n && k < n && AllWellFormed(pre, n) && AllWellFormed(os, n) && AllWellFormed(post, n)
    requires AllInOwn(pre, n, k) && AllInOwn(os, n, k) && AllInOwn(post, n, k)
    ensures var c := PartialLinkOf(os, n);
            && AllWellFormed(pre + ([c] + post), n) && AllWellFormed(pre + (os + post), n)
            && SameLink(FinalLink(pre + ([c] + post), n, k, vma, given), FinalLink(pre + (os + post), n, k, vma, given))
  {
    hide WellFormed, AllWellFormed, AllInOwn, SameEffects, Relas, Bytes, Parts, FinalParts, Environment, Combine;
    var c := PartialLinkOf(os, n);
    SameEnvironment(pre, os, post, n, vma, given);
    var env := Environment(pre + (os + post), n, Origin(n), vma, given);
    var at := AfterAll(Origin(n), pre, n);
    var a := Parts(pre + ([c] + post), n, k, Origin(n), vma, env);
    var b := Parts(pre + (os + post), n, k, Origin(n), vma, env);
    CombineInOwn(os, n, k);
    InOwnAround(pre, [c], post, n, k);
    InOwnAround(pre, os, post, n, k);
    PartsInPart(pre + ([c] + post), n, k, Origin(n), vma, env);
    PartsInPart(pre + (os + post), n, k, Origin(n), vma, env);
    PartsAround(pre, os, post, n, k, vma, env);
    var head := Parts(pre, n, k, Origin(n), vma, env);
    SectionOfCombine(os, n, k, at, Origin(n), vma, env, |Bytes(head)|);
    assert Plus(at, Origin(n)) == at;
    var one, mid := CombinedPart(os, n, k, at, vma, env), Parts(os, n, k, at, vma, env);
    var tail := Parts(post, n, k, AfterAll(at, os, n), vma, env);
    SameBefore(one, mid, tail, |Bytes(head)|);
    SameAfter(head, [one] + tail, mid + tail);
    SameParts(a, b, vma[k]);
  }

  lemma InOwnAround(pre: seq<Object>, os: seq<Object>, post: seq<Object>, n: nat, k: nat)
    requires AllWellFormed(pre, n) && AllWellFormed(os, n) && AllWellFormed(post, n) && k < n
    ensures AllWellFormed(pre + (os + post), n)
    ensures AllInOwn(pre + (os + post), n, k) <==> AllInOwn(pre, n, k) && AllInOwn(os, n, k) && AllInOwn(post, n, k)
  {
    InOwnAppend(os, post, n, k);
    InOwnAppend(pre, os + post, n, k);
  }

  /** A straight link refuses a relocation that reaches out of its own section. */
  lemma StrayIsRefused(os: seq<Object>, n: nat, k: nat, vma: seq<int>, given: map<nat, Symbol>)
    requires |vma| == n && k < n && AllWellFormed(os, n)
    ensures FinalLink(os, n, k, vma, given).Clean() ==> AllInOwn(os, n, k)
  {
    hide WellFormed, AllWellFormed, AllInOwn, Parts, FinalParts, Environment;
    var env := Environment(os, n, Origin(n), vma, given);
    PartsInPart(os, n, k, Origin(n), vma, env);
    StrayPartFails(Parts(os, n, k, Origin(n), vma, env), vma[k]);
  }

  /** Combining a run of objects first changes nothing a final link writes into
      section K exactly when it fails anyway, or no relocation for that section
      reaches out of its own part of it. */
  lemma CombiningIsTransparent(pre: seq<Object>, os: seq<Object>, post: seq<Object>, n: nat, k: nat,
                               vma: seq<int>, given: map<nat, Symbol>)
    requires |vma| == n && k < n && AllWellFormed(pre, n) && AllWellFormed(os, n) && AllWellFormed(post, n)
    ensures var c := PartialLinkOf(os, n);
            && AllWellFormed(pre + ([c] + post), n) && AllWellFormed(pre + (os + post), n)
            && var grouped := FinalLink(pre + ([c] + post), n, k, vma, given);
               var straight := FinalLink(pre + (os + post), n, k, vma, given);
               SameLink(grouped, straight) <==> (grouped.Clean() ==> AllInOwn(pre + (os + post), n, k))
  {
    hide WellFormed, AllWellFormed, AllInOwn, FinalLink, Combine, Environment;
    SameEnvironment(pre, os, post, n, vma, given);
    InOwnAround(pre, os, post, n, k);
    if AllInOwn(pre + (os + post), n, k) { CombiningInOwn(pre, os, post, n, k, vma, given); }
    StrayIsRefused(pre + (os + post), n, k, vma, given);
  }

  // ------------------------------------------------------- trees of links

  /** An object, or an `ld -r' of the results of others. */
  datatype Tree = Leaf(o: Object) | Relink(children: seq<Tree>)

  predicate LeavesWellFormed(t: Tree, n: nat)
  {
    match t
    case Leaf(o) => WellFormed(o, n)
    case Relink(ts) => forall u :: u in ts ==> LeavesWellFormed(u, n)
  }

  function Leaves(t: Tree): seq<Object>
  {
    match t
    case Leaf(o) => [o]
    case Relink(ts) => AllLeaves(ts)
  }

  function AllLeaves(ts: seq<Tree>): seq<Object>
  {
    if ts == [] then [] else Leaves(ts[0]) + AllLeaves(ts[1..])
  }

  /** The object the links of a tree produce. */
  function Linked(t: Tree, n: nat): (o: Object)
    requires LeavesWellFormed(t, n)
    ensures WellFormed(o, n)
    decreases t, 0
  {
    match t
    case Leaf(o) => o
    case Relink(ts) =>
      var os := AllLinked(ts, n);
      CombineWellFormed(os, n);
      PartialLinkOf(os, n)
  }

  function AllLinked(ts: seq<Tree>, n: nat): (os: seq<Object>)
    requires forall u :: u in ts ==> LeavesWellFormed(u, n)
    ensures AllWellFormed(os, n)
    decreases ts
  {
    if ts == [] then [] else [Linked(ts[0], n)] + AllLinked(ts[1..], n)
  }

  lemma LeavesFit(t: Tree, n: nat)
    requires LeavesWellFormed(t, n)
    ensures AllWellFormed(Leaves(t), n)
    decreases t, 0
  {
    match t
    case Leaf(o) =>
    case Relink(ts) => AllLeavesFit(ts, n);
  }

  lemma AllLeavesFit(ts: seq<Tree>, n: nat)
    requires forall u :: u in ts ==> LeavesWellFormed(u, n)
    ensures AllWellFormed(AllLeaves(ts), n)
    decreases ts
  {
    if ts != [] {
      LeavesFit(ts[0], n);
      AllLeavesFit(ts[1..], n);
      WellFormedAppend(Leaves(ts[0]), AllLeaves(ts[1..]), n);
    }
  }

  /** A link with OS in the place between PRE and POST. */
  function LinkAround(pre: seq<Object>, os: seq<Object>, post: seq<Object>, n: nat, k: nat, vma: seq<int>,
                      given: map<nat, Symbol>): Run
    requires |vma| == n && k < n && AllWellFormed(pre, n) && AllWellFormed(os, n) && AllWellFormed(post, n)
  {
    WellFormedAppend(os, post, n);
    WellFormedAppend(pre, os + post, n);
    FinalLink(pre + (os + post), n, k, vma, given)
  }

  lemma {:induction false} LinkedInOwn(t: Tree, n: nat, k: nat)
    requires LeavesWellFormed(t, n) && k < n && AllWellFormed(Leaves(t), n) && AllInOwn(Leaves(t), n, k)
    ensures AllWellFormed([Linked(t, n)], n) && AllInOwn([Linked(t, n)], n, k)
    decreases t, 0
  {
    hide EndBy, WellFormed;
    match t {
      case Leaf(o) =>
      case Relink(ts) =>
        AllLinkedInOwn(ts, n, k);
        CombineInOwn(AllLinked(ts, n), n, k);
    }
  }

  lemma {:induction false} AllLinkedInOwn(ts: seq<Tree>, n: nat, k: nat)
    requires (forall u :: u in ts ==> LeavesWellFormed(u, n)) && k < n
    requires AllWellFormed(AllLeaves(ts), n) && AllInOwn(AllLeaves(ts), n, k)
    ensures AllInOwn(AllLinked(ts, n), n, k)
    decreases ts
  {
    hide WellFormed, Linked, Leaves;
    if ts != [] {
      LeavesFit(ts[0], n);
      AllLeavesFit(ts[1..], n);
      InOwnAppend(Leaves(ts[0]), AllLeaves(ts[1..]), n, k);
      LinkedInOwn(ts[0], n, k);
      AllLinkedInOwn(ts[1..], n, k);
      InOwnAppend([Linked(ts[0], n)], AllLinked(ts[1..], n), n, k);
    }
  }

  lemma {:induction false} TreeAround(pre: seq<Object>, t: Tree, post: seq<Object>, n: nat, k: nat, vma: seq<int>,
                                      given: map<nat, Symbol>)
    requires |vma| == n && k < n && AllWellFormed(pre, n) && LeavesWellFormed(t, n) && AllWellFormed(post, n)
    requires AllWellFormed(Leaves(t), n)
    requires AllInOwn(pre, n, k) && AllInOwn(Leaves(t), n, k) && AllInOwn(post, n, k)
    ensures SameLink(LinkAround(pre, [Linked(t, n)], post, n, k, vma, given),
                     LinkAround(pre, Leaves(t), post, n, k, vma, given))
    decreases t, 0
  {
    hide FinalLink, AllInOwn;
    match t {
      case Leaf(o) =>
      case Relink(ts) =>
        TreesAround(pre, ts, post, n, k, vma, given);
        AllLinkedInOwn(ts, n, k);
        CombiningInOwn(pre, AllLinked(ts, n), post, n, k, vma, given);
    }
  }

  lemma {:induction false} TreesAround(pre: seq<Object>, ts: seq<Tree>, post: seq<Object>, n: nat, k: nat,
                                       vma: seq<int>, given: map<nat, Symbol>)
    requires |vma| == n && k < n && AllWellFormed(pre, n) && AllWellFormed(post, n)
    requires (forall u :: u in ts ==> LeavesWellFormed(u, n)) && AllWellFormed(AllLeaves(ts), n)
    requires AllInOwn(pre, n, k) && AllInOwn(AllLeaves(ts), n, k) && AllInOwn(post, n, k)
    ensures SameLink(LinkAround(pre, AllLinked(ts, n), post, n, k, vma, given),
                     LinkAround(pre, AllLeaves(ts), post, n, k, vma, given))
    decreases ts
  {
    hide FinalLink, Linked, LinkAround, AllWellFormed, AllInOwn;
    if ts != [] {
      var t, rest := ts[0], ts[1..];
      var one, others := [Linked(t, n)], AllLinked(rest, n);
      AllLeavesFit(rest, n);
      LeavesFit(t, n);
      SingleFits(Linked(t, n), n);
      WellFormedAppend(others, post, n);
      WellFormedAppend(pre, Leaves(t), n);
      InOwnAppend(Leaves(t), AllLeaves(rest), n, k);
      AllLinkedInOwn(rest, n, k);
      InOwnAppend(others, post, n, k);
      InOwnAppend(pre, Leaves(t), n, k);
      TreeAround(pre, t, others + post, n, k, vma, given);
      TreesAround(pre + Leaves(t), rest, post, n, k, vma, given);
      Regroup(pre, one, others, post, n, k, vma, given);
      Regroup(pre, Leaves(t), others, post, n, k, vma, given);
      Regroup(pre, Leaves(t), AllLeaves(rest), post, n, k, vma, given);
    }
  }

  lemma SingleFits(o: Object, n: nat)
    requires WellFormed(o, n)
    ensures AllWellFormed([o], n)
  {
  }

  lemma Regroup(pre: seq<Object>, a: seq<Object>, b: seq<Object>, post: seq<Object>, n: nat, k: nat, vma: seq<int>,
                given: map<nat, Symbol>)
    requires |vma| == n && k < n
    requires AllWellFormed(pre, n) && AllWellFormed(a, n) && AllWellFormed(b, n) && AllWellFormed(post, n)
    ensures AllWellFormed(b + post, n) && AllWellFormed(pre + a, n) && AllWellFormed(a + b, n)
    ensures LinkAround(pre, a + b, post, n, k, vma, given) == LinkAround(pre, a, b + post, n, k, vma, given)
    ensures LinkAround(pre, a + b, post, n, k, vma, given) == LinkAround(pre + a, b, post, n, k, vma, given)
  {
    hide FinalLink, AllWellFormed;
    WellFormedAppend(b, post, n);
    WellFormedAppend(pre, a, n);
    WellFormedAppend(a, b, n);
    Associates(pre, a, b, post);
  }

  lemma Associates<T>(pre: seq<T>, a: seq<T>, b: seq<T>, post: seq<T>)
    ensures pre + ((a + b) + post) == pre + (a + (b + post))
    ensures pre + ((a + b) + post) == (pre + a) + (b + post)
  {
  }

  lemma {:induction false} InTree(ts: seq<Tree>, n: nat, k: nat, vma: seq<int>, given: map<nat, Symbol>)
    requires |vma| == n && k < n && (forall u :: u in ts ==> LeavesWellFormed(u, n))
    requires AllWellFormed(AllLeaves(ts), n) && AllInOwn(AllLeaves(ts), n, k)
    ensures SameLink(FinalLink(AllLinked(ts, n), n, k, vma, given), FinalLink(AllLeaves(ts), n, k, vma, given))
  {
    hide FinalLink;
    TreesAround([], ts, [], n, k, vma, given);
    assert [] + (AllLinked(ts, n) + []) == AllLinked(ts, n);
    assert [] + (AllLeaves(ts) + []) == AllLeaves(ts);
  }

  /** Any tree of `ld -r' steps before the final link gives the verdict and the
      bytes of output section K that one straight link of the leaves gives,
      exactly when it fails anyway, or no relocation of a leaf reaches out of the
      leaf's own section. */
  lemma PartialLinksAreTransparent(ts: seq<Tree>, n: nat, k: nat, vma: seq<int>, given: map<nat, Symbol>)
    requires |vma| == n && k < n
    requires forall u :: u in ts ==> LeavesWellFormed(u, n)
    ensures AllWellFormed(AllLeaves(ts), n)
    ensures var grouped := FinalLink(AllLinked(ts, n), n, k, vma, given);
            var straight := FinalLink(AllLeaves(ts), n, k, vma, given);
            SameLink(grouped, straight) <==> (grouped.Clean() ==> AllInOwn(AllLeaves(ts), n, k))
  {
    hide FinalLink, AllInOwn, AllLinked, AllLeaves;
    AllLeavesFit(ts, n);
    if AllInOwn(AllLeaves(ts), n, k) { InTree(ts, n, k, vma, given); }
    StrayIsRefused(AllLeaves(ts), n, k, vma, given);
  }

  // ----------------------------------------------------- a stray relocation

  /** An object of one section of one zero byte, and one with a relocation for
      the byte after it. */
  const TAME: Object := Object([Section([0], [])], map[])
  const STRAY: Object := Object([Section([0], [ObjRela(Byte8, 1, SectionRef(0, 0), 0)])], map[])

  lemma StrayPair()
    ensures AllWellFormed([STRAY, TAME], 1) && !AllInOwn([STRAY, TAME], 1, 0)
  {
    assert [STRAY, TAME][1..] == [TAME] && [TAME][1..] == [];
    assert STRAY.secs[0].rels[0] in STRAY.secs[0].rels;
  }

  /** What `ld -r' makes of the two. */
  lemma StrayCombined()
    ensures AllWellFormed([STRAY, TAME], 1)
    ensures PartialLinkOf([STRAY, TAME], 1).secs == [Section([0, 0], [ObjRela(Byte8, 1, SectionRef(0, 0), 0)])]
  {
    StrayPair();
    var os, at := [STRAY, TAME], Origin(1);
    assert os[1..] == [TAME] && [TAME][1..] == [];
    var none := Combine([], 1, After(After(at, STRAY), TAME));
    var rest := Combine([TAME], 1, After(at, STRAY));
    assert rest.secs[0].bytes == [0] + none.secs[0].bytes == [0];
    assert rest.secs[0].rels == [] by {
      assert none.secs[0].rels == [];
      assert ShiftRelas([], 0, After(at, STRAY)) == [];
    }
    assert ShiftRelas(STRAY.secs[0].rels, 0, at) == STRAY.secs[0].rels;
    var c := PartialLinkOf(os, 1);
    assert c.secs[0] == Section([0] + [0], STRAY.secs[0].rels + []);
    assert [0] + [0] == [0, 0] && STRAY.secs[0].rels + [] == STRAY.secs[0].rels;
    assert c.secs == [c.secs[0]];
  }

  /** The condition is needed: a relocation that reaches past its own one-byte
      section is refused by a straight link, and lands in the next object's byte
      once the two have been combined. */
  lemma StrayRelocationIsNotTransparent()
    ensures AllWellFormed([STRAY, TAME], 1) && AllWellFormed([PartialLinkOf([STRAY, TAME], 1)], 1)
    ensures !FinalLink([STRAY, TAME], 1, 0, [0], map[]).Clean()
    ensures FinalLink([PartialLinkOf([STRAY, TAME], 1)], 1, 0, [0], map[]).Clean()
  {
    StrayPair();
    StrayIsRefused([STRAY, TAME], 1, 0, [0], map[]);
    StrayCombined();
    var c := PartialLinkOf([STRAY, TAME], 1);
    CombineWellFormed([STRAY, TAME], 1);
    SingleFits(c, 1);
    OnlyPart(c, Environment([c], 1, Origin(1), [0], map[]));
    OneCleanPart(Rela(Byte8, 1, Defined(0), 0));
  }

  lemma OnlyPart(c: Object, env: map<nat, Symbol>)
    requires AllWellFormed([c], 1) && c.secs == [Section([0, 0], STRAY.secs[0].rels)]
    ensures Parts([c], 1, 0, Origin(1), [0], env) == [Part([0, 0], [Rela(Byte8, 1, Defined(0), 0)])]
  {
    assert [c][1..] == [];
    var rels := Resolve(c.secs[0].rels, Origin(1), [0], env);
    assert rels == [Rela(Byte8, 1, Defined(0), 0)];
    assert Parts([], 1, 0, After(Origin(1), c), [0], env) == [];
    assert Parts([c], 1, 0, Origin(1), [0], env) == [Part([0, 0], rels)] + [];
  }

  lemma OneCleanPart(r: Rela)
    requires r == Rela(Byte8, 1, Defined(0), 0)
    ensures FinalParts(Turn, [Part([0, 0], [r])], 0).Clean()
  {
    var ps, run := [Part([0, 0], [r])], Run([0, 0], false, false);
    assert ps[1..] == [] && [r][1..] == [];
    OnceIsLoop([0, 0], [r], 0);
    assert Turn([0, 0], r, 0).status.Ok?;
    assert RunAll(run, [r], 0) == RunAll(Next(run, r, 0), [], 0);
    assert FinalParts(Turn, ps, 0) == Both(Once(Turn, [0, 0], [r], 0), FinalParts(Turn, [], 2));
  }
}
