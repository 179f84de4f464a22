/** A final link in terms of addresses: where each input section lands, what the
    symbols are worth, and what every relocated field then says. */
module FinalAddresses {
  import opened Bits
  import opened Relocation
  import opened RelocateSection
  import opened RelocatedFields
  import opened SectionParts
  import opened PartialLink

  /** Bytes that the sections K of the objects before the J-th take. */
  function Before(os: seq<Object>, k: nat, j: nat): nat
    requires j <= |os| && forall i :: 0 <= i < j ==> k < |os[i].secs|
  {
    if j == 0 then 0 else Before(os, k, j - 1) + |os[j - 1].secs[k].bytes|
  }

  lemma {:induction false} ObjectsHold(os: seq<Object>, n: nat, i: nat)
    requires AllWellFormed(os, n) && i < |os|
    ensures WellFormed(os[i], n)
  {
    if i > 0 { ObjectsHold(os[1..], n, i - 1); }
  }

  lemma SectionsHold(os: seq<Object>, n: nat, k: nat)
    requires AllWellFormed(os, n) && k < n
    ensures forall i :: 0 <= i < |os| ==> k < |os[i].secs|
  {
    forall i | 0 <= i < |os| ensures k < |os[i].secs| { ObjectsHold(os, n, i); }
  }

  /** The places of the J-th object when the first is placed at AT. */
  function PlacesOf(os: seq<Object>, n: nat, at: Places, j: nat): (r: Places)
    requires |at| == n && AllWellFormed(os, n) && j <= |os|
    ensures |r| == n
  {
    if j == 0 then at else PlacesOf(os[1..], n, After(at, os[0]), j - 1)
  }

  lemma {:induction false} PlacesAreBefore(os: seq<Object>, n: nat, at: Places, j: nat, k: nat)
    requires |at| == n && k < n && AllWellFormed(os, n) && j <= |os|
    ensures forall i :: 0 <= i < j ==> k < |os[i].secs|
    ensures PlacesOf(os, n, at, j)[k] == at[k] + Before(os, k, j)
  {
    SectionsHold(os, n, k);
    if j > 0 {
      PlacesAreBefore(os[1..], n, After(at, os[0]), j - 1, k);
      BeforeTail(os, n, k, j);
    }
  }

  lemma {:induction false} BeforeTail(os: seq<Object>, n: nat, k: nat, j: nat)
    requires AllWellFormed(os, n) && k < n && 0 < j <= |os|
    ensures forall i :: 0 <= i < |os| ==> k < |os[i].secs|
    ensures forall i :: 0 <= i < |os| - 1 ==> k < |os[1..][i].secs|
    ensures Before(os, k, j) == |os[0].secs[k].bytes| + Before(os[1..], k, j - 1)
  {
    SectionsHold(os, n, k);
    SectionsHold(os[1..], n, k);
    if j > 1 { BeforeTail(os, n, k, j - 1); }
  }

  /** The J-th part is the J-th object's section, resolved at its own places. */
  lemma {:induction false} PartOf(os: seq<Object>, n: nat, k: nat, at: Places, vma: seq<int>, env: map<nat, Symbol>,
                                  j: nat)
    requires |at| == |vma| == n && k < n && AllWellFormed(os, n) && j < |os|
    ensures WellFormed(os[j], n) && j < |Parts(os, n, k, at, vma, env)|
    ensures Parts(os, n, k, at, vma, env)[j]
         == Part(os[j].secs[k].bytes, PartialLink.Resolve(os[j].secs[k].rels, PlacesOf(os, n, at, j), vma, env))
  {
    if j > 0 { PartOf(os[1..], n, k, After(at, os[0]), vma, env, j - 1); }
  }

  /** Bytes before the J-th part. */
  function Offset(ps: seq<Part>, j: nat): nat
    requires j <= |ps|
  {
    if j == 0 then 0 else |ps[0].bytes| + Offset(ps[1..], j - 1)
  }

  lemma {:induction false} OffsetIsBefore(os: seq<Object>, n: nat, k: nat, at: Places, vma: seq<int>,
                                          env: map<nat, Symbol>, j: nat)
    requires |at| == |vma| == n && k < n && AllWellFormed(os, n) && j <= |os|
    ensures j <= |Parts(os, n, k, at, vma, env)|
    ensures at[k] + Offset(Parts(os, n, k, at, vma, env), j) == PlacesOf(os, n, at, j)[k]
  {
    if j > 0 { OffsetIsBefore(os[1..], n, k, After(at, os[0]), vma, env, j - 1); }
  }

  /** A clean output section holds each part as relocated on its own. */
  lemma {:induction false} PartInside(ps: seq<Part>, base: int, j: nat)
    requires j < |ps| && FinalParts(Turn, ps, base).Clean()
    ensures var part := Once(Turn, ps[j].bytes, ps[j].rels, base + Offset(ps, j));
            var out := FinalParts(Turn, ps, base).bytes;
            && part.Clean() && |part.bytes| == |ps[j].bytes|
            && Offset(ps, j) + |ps[j].bytes| <= |out|
            && out[Offset(ps, j)..Offset(ps, j) + |ps[j].bytes|] == part.bytes
  {
    hide Turn, RunBy;
    TurnIsLocalToParts();
    RunByKeeps(Turn, Run(ps[0].bytes, false, false), ps[0].rels, base);
    if j > 0 {
      var rest := FinalParts(Turn, ps[1..], base + |ps[0].bytes|);
      PartInside(ps[1..], base + |ps[0].bytes|, j - 1);
    }
  }

  // ------------------------------------------------------------------ symbols

  /** A global is where the first object that defines it puts it. */
  lemma {:induction false} FirstDefinition(os: seq<Object>, n: nat, at: Places, vma: seq<int>, given: map<nat, Symbol>,
                                           j: nat, g: nat)
    requires |at| == |vma| == n && AllWellFormed(os, n) && j < |os| && g in os[j].globals
    requires forall i :: 0 <= i < j ==> g !in os[i].globals
    ensures os[j].globals[g].sec < n && g in Environment(os, n, at, vma, given)
    ensures var d := os[j].globals[g];
            Environment(os, n, at, vma, given)[g] == Defined(vma[d.sec] + PlacesOf(os, n, at, j)[d.sec] + d.value)
  {
    if j > 0 {
      assert g !in os[0].globals;
      forall i | 0 <= i < j - 1 ensures g !in os[1..][i].globals { assert os[1..][i] == os[i + 1]; }
      FirstDefinition(os[1..], n, After(at, os[0]), vma, given, j - 1, g);
    }
  }

  lemma {:induction false} NoDefinition(os: seq<Object>, n: nat, at: Places, vma: seq<int>, given: map<nat, Symbol>,
                                        g: nat)
    requires |at| == |vma| == n && AllWellFormed(os, n)
    requires forall i :: 0 <= i < |os| ==> g !in os[i].globals
    ensures g in Environment(os, n, at, vma, given) <==> g in given
    ensures g in given ==> Environment(os, n, at, vma, given)[g] == given[g]
  {
    if os != [] {
      assert g !in os[0].globals;
      forall i | 0 <= i < |os| - 1 ensures g !in os[1..][i].globals { assert os[1..][i] == os[i + 1]; }
      NoDefinition(os[1..], n, After(at, os[0]), vma, given, g);
    }
  }

  // ------------------------------------------------------------- the whole link

  /** A section symbol or a local one at V of section S is the address at which byte
      V of the object's section S lands. */
  lemma LocalNamesItsByte(os: seq<Object>, n: nat, vma: seq<int>, env: map<nat, Symbol>, j: nat, s: nat, v: int)
    requires |vma| == n && s < n && AllWellFormed(os, n) && j < |os|
    ensures forall i :: 0 <= i < j ==> s < |os[i].secs|
    ensures var at := PlacesOf(os, n, Origin(n), j);
            && PartialLink.Target(LocalRef(s, v), at, vma, env) == Defined(vma[s] + (Before(os, s, j) + v))
            && PartialLink.Target(SectionRef(s, v), at, vma, env) == Defined(vma[s] + (Before(os, s, j) + v))
  {
    PlacesAreBefore(os, n, Origin(n), j, s);
  }

  /** A global is the address at which the byte it names lands, in the first object
      that defines it; one that no object defines is what the link was given. */
  lemma GlobalNamesItsByte(os: seq<Object>, n: nat, vma: seq<int>, given: map<nat, Symbol>, at: Places, g: nat)
    requires |vma| == |at| == n && AllWellFormed(os, n)
    ensures var t := PartialLink.Target(GlobalRef(g), at, vma, Environment(os, n, Origin(n), vma, given));
            && ((forall i :: 0 <= i < |os| ==> g !in os[i].globals) ==>
                  t == if g in given then given[g] else Undefined)
            && (forall j :: 0 <= j < |os| && FirstToDefine(os, j, g) ==> IsAddress(os, n, j, os[j].globals[g], vma, t))
  {
    var env := Environment(os, n, Origin(n), vma, given);
    if forall i :: 0 <= i < |os| ==> g !in os[i].globals { NoDefinition(os, n, Origin(n), vma, given, g); }
    forall j | 0 <= j < |os| && FirstToDefine(os, j, g)
      ensures IsAddress(os, n, j, os[j].globals[g], vma, PartialLink.Target(GlobalRef(g), at, vma, env))
    {
      FirstDefinition(os, n, Origin(n), vma, given, j, g);
      PlacesAreBefore(os, n, Origin(n), j, os[j].globals[g].sec);
    }
  }

  predicate FirstToDefine(os: seq<Object>, j: nat, g: nat)
  {
    j < |os| && g in os[j].globals && forall i :: 0 <= i < j ==> g !in os[i].globals
  }

  /** T is where the definition D of the J-th object lands. */
  predicate IsAddress(os: seq<Object>, n: nat, j: nat, d: Def, vma: seq<int>, t: Symbol)
  {
    && j <= |os| && d.sec < |vma| && (forall i :: 0 <= i < j ==> d.sec < |os[i].secs|)
    && t == Defined(vma[d.sec] + (Before(os, d.sec, j) + d.value))
  }

  lemma PartSays(ps: seq<Part>, base: int, j: nat, p: Part, off: nat)
    requires j < |ps| && FinalParts(Turn, ps, base).Clean() && ps[j] == p && Offset(ps, j) == off
    ensures SaysAt(FinalParts(Turn, ps, base).bytes, base, off, p.bytes, p.rels)
  {
    hide FinalParts, Once, AllSay, Disjoint, Turn, Offset;
    PartInside(ps, base, j);
    OnceIsLoop(p.bytes, p.rels, base + off);
    if Disjoint(p.rels) { CleanRunSays(p.bytes, p.rels, base + off); }
  }

  /** In a clean final link the J-th object's section stands behind those before it,
      each of its fields says what its relocation asks for there, and its other
      bytes are as they were. */
  lemma FinalLinkSays(os: seq<Object>, n: nat, k: nat, vma: seq<int>, given: map<nat, Symbol>, j: nat)
    requires |vma| == n && k < n && AllWellFormed(os, n) && j < |os|
    requires FinalLink(os, n, k, vma, given).Clean()
    ensures WellFormed(os[j], n) && forall i :: 0 <= i < j ==> k < |os[i].secs|
    ensures SaysAt(FinalLink(os, n, k, vma, given).bytes, vma[k], Before(os, k, j), os[j].secs[k].bytes,
                   Finally(os, n, k, vma, given, j))
  {
    ObjectsHold(os, n, j);
    SectionsHold(os, n, k);
    FinalLinkIs(os, n, k, vma, given);
    var env := Environment(os, n, Origin(n), vma, given);
    PlaceOf(os, n, k, vma, env, j);
    hide Parts, Environment, FinalLink, PlacesOf, Before, AllWellFormed, SaysAt, FinalParts, Offset, WellFormed;
    var p := Part(os[j].secs[k].bytes, Finally(os, n, k, vma, given, j));
    PartSays(Parts(os, n, k, Origin(n), vma, env), vma[k], j, p, Before(os, k, j));
  }

  /** The relocations of section K of the J-th object with their symbols looked up. */
  function Finally(os: seq<Object>, n: nat, k: nat, vma: seq<int>, given: map<nat, Symbol>, j: nat): seq<Rela>
    requires |vma| == n && k < n && AllWellFormed(os, n) && j < |os|
  {
    ObjectsHold(os, n, j);
    PartialLink.Resolve(os[j].secs[k].rels, PlacesOf(os, n, Origin(n), j), vma,
                        Environment(os, n, Origin(n), vma, given))
  }

  /** BYTES stand at OFF in OUT, whose address is BASE, with the fields of RELS saying
      what they should there if no two overlap. */
  ghost predicate SaysAt(out: seq<byte>, base: int, off: nat, bytes: seq<byte>, rels: seq<Rela>)
  {
    off + |bytes| <= |out| && (Disjoint(rels) ==> AllSay(bytes, out[off..off + |bytes|], rels, base + off))
  }

  lemma FinalLinkIs(os: seq<Object>, n: nat, k: nat, vma: seq<int>, given: map<nat, Symbol>)
    requires |vma| == n && k < n && AllWellFormed(os, n)
    ensures FinalLink(os, n, k, vma, given)
         == FinalParts(Turn, Parts(os, n, k, Origin(n), vma, Environment(os, n, Origin(n), vma, given)), vma[k])
  {
  }

  /** The J-th part and its offset. */
  lemma PlaceOf(os: seq<Object>, n: nat, k: nat, vma: seq<int>, env: map<nat, Symbol>, j: nat)
    requires |vma| == n && k < n && AllWellFormed(os, n) && j < |os|
    ensures WellFormed(os[j], n) && forall i :: 0 <= i < j ==> k < |os[i].secs|
    ensures var ps := Parts(os, n, k, Origin(n), vma, env);
            && j < |ps| && Offset(ps, j) == Before(os, k, j)
            && ps[j] == Part(os[j].secs[k].bytes,
                             PartialLink.Resolve(os[j].secs[k].rels, PlacesOf(os, n, Origin(n), j), vma, env))
  {
    hide Parts, PartialLink.Resolve, PlacesOf, Offset, Before;
    PartOf(os, n, k, Origin(n), vma, env, j);
    OffsetIsBefore(os, n, k, Origin(n), vma, env, j);
    PlacesAreBefore(os, n, Origin(n), j, k);
  }
}
