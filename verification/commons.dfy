/** Memory-space commons in the linker: the sections they are collected in, the
    refusal of one name in two spaces, and the index they leave with. */
module Commons {
  import opened Wrappers

  datatype Space = Regbank | Rbss | Bbss | Ibss | Xbss | Ebss | Bitbss

  /** A section name: the name of a space, or any other. */
  datatype Name = Of(space: Space) | Other(id: nat)

  /** A section index of a symbol: one of the seven SHN_I51_*, SHN_COMMON, or
      any other. */
  datatype Shndx = ShnSpace(space: Space) | ShnCommon | ShnOther(n: nat)

  /** The flags an object's section keeps, with its index in the object; a
      section the object did not bring has index 0. */
  datatype Section = Section(name: Name, isCommon: bool, index: nat)

  /** i51_elf_space_name () */
  function SpaceOf(shndx: Shndx): Option<Space>
  {
    match shndx case ShnSpace(s) => Some(s) case _ => None
  }

  /** elf32_i51_section_from_bfd_section () */
  function IndexOf(sec: Section): Option<Shndx>
  {
    if !sec.isCommon then None
    else match sec.name case Of(s) => Some(ShnSpace(s)) case Other(_) => None
  }

  /** elf32_i51_link_output_symbol_hook () on a symbol whose input section is
      SEC: a common is written with the index of its space. */
  function OutputIndex(shndx: Shndx, sec: Section): Shndx
  {
    if shndx != ShnCommon then shndx
    else match sec.name case Of(s) => ShnSpace(s) case Other(_) => shndx
  }

  // --------------------------------------------- the section of each space

  predicate Fabricated(sec: Section) { sec.isCommon && sec.index == 0 }

  predicate StandsFor(sec: Section, space: Space) { Fabricated(sec) && sec.name == Of(space) }

  /** The first section that stands for SPACE, or the length of the list. */
  function Find(secs: seq<Section>, space: Space): (k: nat)
    ensures k <= |secs|
    ensures k < |secs| ==> StandsFor(secs[k], space)
    ensures forall j :: 0 <= j < k ==> !StandsFor(secs[j], space)
  {
    if secs == [] then 0 else if StandsFor(secs[0], space) then 0 else 1 + Find(secs[1..], space)
  }

  /** The list after i51_elf_common_section (): its last section is new, or it is
      as it was. */
  function Collected(secs: seq<Section>, space: Space): seq<Section>
  {
    if Find(secs, space) < |secs| then secs else secs + [Section(Of(space), true, 0)]
  }

  /** An object being linked and its section list. */
  class Bfd {
    var sections: seq<Section>

    constructor (fromFile: seq<Section>)
      ensures sections == fromFile
    {
      sections := fromFile;
    }

    /** i51_elf_common_section () */
    method CommonSection(space: Space) returns (sec: Section)
      modifies this
      ensures sections == Collected(old(sections), space)
      ensures Find(sections, space) < |sections| && sec == sections[Find(sections, space)]
    {
      var k := 0;
      while k < |sections|
        invariant 0 <= k <= |sections|
        invariant sections == old(sections)
        invariant forall j :: 0 <= j < k ==> !StandsFor(sections[j], space)
      {
        if sections[k].isCommon && sections[k].index == 0 && sections[k].name == Of(space) {
          FindIs(sections, space, k);
          return sections[k];
        }
        k := k + 1;
      }
      sec := Section(Of(space), true, 0);
      sections := sections + [sec];
      FindIs(old(sections) + [sec], space, |old(sections)|);
    }
  }

  lemma FindIs(secs: seq<Section>, space: Space, k: nat)
    requires k < |secs| && StandsFor(secs[k], space)
    requires forall j :: 0 <= j < k ==> !StandsFor(secs[j], space)
    ensures Find(secs, space) == k
  {
  }

  /** At most one section stands for a space. */
  predicate OnePerSpace(secs: seq<Section>)
  {
    forall i, j :: 0 <= i < j < |secs| && Fabricated(secs[i]) && Fabricated(secs[j]) ==> secs[i].name != secs[j].name
  }

  function CollectAll(secs: seq<Section>, calls: seq<Space>): seq<Section>
    decreases |calls|
  {
    if calls == [] then secs else CollectAll(Collected(secs, calls[0]), calls[1..])
  }

  /** Over any sequence of calls the sections of the file stay as they were, in
      their places; what is added is one fabricated section for each space
      asked for and no other; and what a call hands back is never a section of
      the file. */
  lemma {:induction false} CollectingSeparates(file: seq<Section>, secs: seq<Section>, calls: seq<Space>)
    requires file <= secs
    requires forall s :: s in file ==> s.index != 0
    requires OnePerSpace(secs)
    requires forall i :: |file| <= i < |secs| ==> Fabricated(secs[i])
    ensures var out := CollectAll(secs, calls);
            && file <= out && OnePerSpace(out)
            && (forall i :: |file| <= i < |out| ==> Fabricated(out[i]))
            && (forall s :: s in calls ==> |file| <= Find(out, s) < |out|)
            && (forall i :: |secs| <= i < |out| ==> out[i].name.Of? && out[i].name.space in calls)
    decreases |calls|
  {
    if calls == [] {
    } else {
      var next := Collected(secs, calls[0]);
      CollectedKeeps(file, secs, calls[0]);
      CollectingSeparates(file, next, calls[1..]);
      CollectedStays(next, calls[1..], calls[0]);
      var out := CollectAll(secs, calls);
      PrefixKept(next, calls[1..]);
      forall s | s in calls
        ensures |file| <= Find(out, s) < |out|
      {
        if s == calls[0] {
          NotOfTheFile(file, out, s);
        } else {
          assert s in calls[1..];
        }
      }
    }
  }

  lemma CollectedKeeps(file: seq<Section>, secs: seq<Section>, space: Space)
    requires file <= secs && OnePerSpace(secs)
    requires forall i :: |file| <= i < |secs| ==> Fabricated(secs[i])
    ensures var next := Collected(secs, space);
            && file <= next && OnePerSpace(next) && Find(next, space) < |next|
            && forall i :: |file| <= i < |next| ==> Fabricated(next[i])
  {
    if Find(secs, space) == |secs| {
      FindIs(secs + [Section(Of(space), true, 0)], space, |secs|);
    }
  }

  lemma {:induction false} PrefixKept(secs: seq<Section>, calls: seq<Space>)
    ensures secs <= CollectAll(secs, calls)
    decreases |calls|
  {
    if calls != [] { PrefixKept(Collected(secs, calls[0]), calls[1..]); }
  }

  lemma CollectedStays(secs: seq<Section>, calls: seq<Space>, space: Space)
    requires Find(secs, space) < |secs|
    ensures Find(CollectAll(secs, calls), space) == Find(secs, space)
  {
    PrefixKept(secs, calls);
    FindIs(CollectAll(secs, calls), space, Find(secs, space));
  }

  lemma NotOfTheFile(file: seq<Section>, secs: seq<Section>, space: Space)
    requires file <= secs && forall s :: s in file ==> s.index != 0
    requires Find(secs, space) < |secs|
    ensures |file| <= Find(secs, space)
  {
    assert forall k :: 0 <= k < |file| ==> secs[k] in file;
  }
}
