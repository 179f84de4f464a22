/** The classifier of the 2001 ROM images: one walk over the two images that
    puts every differing byte into a bucket. */
module RomClassifier {
  import opened Bits

  /** What one turn of the walk consumes: an equal byte, a pair, or one byte. */
  datatype Event = Same | Addr16 | Word16 | Acall11 | Pcode13 | Zero8 | Residual(a: byte, b: byte)
  {
    predicate Pair() { Addr16? || Word16? || Acall11? || Pcode13? }

    predicate Single() { Zero8? || Residual? }

    function Width(): nat { if Pair() then 2 else 1 }
  }

  datatype Counts = Counts(addr16: nat, acall11: nat, word16: nat, pcode13: nat, zero8: nat)

  function Common(oracle: seq<byte>, produced: seq<byte>): nat
  {
    if |oracle| < |produced| then |oracle| else |produced|
  }

  /** The bucket of position I. */
  function Bucket(oracle: seq<byte>, produced: seq<byte>, i: nat): (e: Event)
    requires i < Common(oracle, produced)
    ensures i + e.Width() <= Common(oracle, produced)
  {
    var a, b := oracle[i], produced[i];
    if a == b then Same
    else
      var pair := i + 1 < Common(oracle, produced) && oracle[i] == produced[i + 1];
      if pair && oracle[i + 1] == 0 then Addr16
      else if pair && oracle[i + 1] == b then Word16
      else if pair && oracle[i + 1] == b / 32 * 32 then Acall11
      else if pair && oracle[i + 1] == b % 32 then Pcode13
      else if a == 0 then Zero8
      else Residual(a, b)
  }

  /** The walk from position I. */
  function Trace(oracle: seq<byte>, produced: seq<byte>, i: nat): seq<Event>
    requires i <= Common(oracle, produced)
    decreases Common(oracle, produced) - i
  {
    if i == Common(oracle, produced) then []
    else
      var e := Bucket(oracle, produced, i);
      [e] + Trace(oracle, produced, i + e.Width())
  }

  function Add(c: Counts, e: Event): Counts
  {
    match e
    case Addr16 => c.(addr16 := c.addr16 + 1)
    case Acall11 => c.(acall11 := c.acall11 + 1)
    case Word16 => c.(word16 := c.word16 + 1)
    case Pcode13 => c.(pcode13 := c.pcode13 + 1)
    case Zero8 => c.(zero8 := c.zero8 + 1)
    case _ => c
  }

  function CountAll(trace: seq<Event>): Counts
  {
    if trace == [] then Counts(0, 0, 0, 0, 0) else Add(CountAll(trace[..|trace| - 1]), trace[|trace| - 1])
  }

  function WidthOf(trace: seq<Event>): nat
  {
    if trace == [] then 0 else WidthOf(trace[..|trace| - 1]) + trace[|trace| - 1].Width()
  }

  function Residuals(trace: seq<Event>): seq<(nat, byte, byte)>
  {
    if trace == [] then []
    else
      var front, e := trace[..|trace| - 1], trace[|trace| - 1];
      Residuals(front) + if e.Residual? then [(WidthOf(front), e.a, e.b)] else []
  }

  lemma Snoc(done: seq<Event>, e: Event)
    ensures WidthOf(done + [e]) == WidthOf(done) + e.Width()
    ensures CountAll(done + [e]) == Add(CountAll(done), e)
    ensures Residuals(done + [e]) == Residuals(done) + if e.Residual? then [(WidthOf(done), e.a, e.b)] else []
  {
    hide Add;
    assert (done + [e])[..|done|] == done;
  }

  /** One turn of the walk. */
  lemma Turn(oracle: seq<byte>, produced: seq<byte>, done: seq<Event>, i: nat)
    requires i < Common(oracle, produced)
    requires done + Trace(oracle, produced, i) == Trace(oracle, produced, 0)
    ensures var e := Bucket(oracle, produced, i);
            done + [e] + Trace(oracle, produced, i + e.Width()) == Trace(oracle, produced, 0)
  {
    hide Bucket, Event.Width;
    var e := Bucket(oracle, produced, i);
    var rest := Trace(oracle, produced, i + e.Width());
    assert Trace(oracle, produced, i) == [e] + rest;
    assert done + ([e] + rest) == done + [e] + rest;
  }

  /** The walk: the counts and the residual list are those of the trace. */
  method Classify(oracle: seq<byte>, produced: seq<byte>)
    returns (counts: Counts, residual: seq<(nat, byte, byte)>)
    ensures counts == CountAll(Trace(oracle, produced, 0))
    ensures residual == Residuals(Trace(oracle, produced, 0))
  {
    hide Trace, CountAll, WidthOf, Residuals;
    Start(oracle, produced);
    var n := Common(oracle, produced);
    counts := Counts(0, 0, 0, 0, 0);
    residual := [];
    ghost var trace: seq<Event> := [];
    var i := 0;
    while i < n
      invariant i <= n && WidthOf(trace) == i
      invariant trace + Trace(oracle, produced, i) == Trace(oracle, produced, 0)
      invariant counts == CountAll(trace) && residual == Residuals(trace)
      decreases n - i
    {
      Turn(oracle, produced, trace, i);
      Snoc(trace, Bucket(oracle, produced, i));
      trace := trace + [Bucket(oracle, produced, i)];
      var a, b := oracle[i], produced[i];
      if a == b {
        i := i + 1;
        continue;
      }
      var pair := i + 1 < n && oracle[i] == produced[i + 1];
      if pair && oracle[i + 1] == 0x00 {
        counts := counts.(addr16 := counts.addr16 + 1);
        i := i + 2;
      } else if pair && oracle[i + 1] == produced[i] {
        counts := counts.(word16 := counts.word16 + 1);
        i := i + 2;
      } else if pair && oracle[i + 1] == produced[i] / 32 * 32 {
        counts := counts.(acall11 := counts.acall11 + 1);
        i := i + 2;
      } else if pair && oracle[i + 1] == produced[i] % 32 {
        counts := counts.(pcode13 := counts.pcode13 + 1);
        i := i + 2;
      } else if a == 0x00 {
        counts := counts.(zero8 := counts.zero8 + 1);
        i := i + 1;
      } else {
        residual := residual + [(i, a, b)];
        i := i + 1;
      }
    }
    assert trace + [] == trace;
  }

  lemma Start(oracle: seq<byte>, produced: seq<byte>)
    ensures WidthOf([]) == 0 && CountAll([]) == Counts(0, 0, 0, 0, 0) && Residuals([]) == []
    ensures [] + Trace(oracle, produced, 0) == Trace(oracle, produced, 0)
    ensures Trace(oracle, produced, Common(oracle, produced)) == []
  {
  }

  // ------------------------------------------------------------------ lossless

  /** The 2001 bytes an event stands for, given the bytes produced there. */
  function Undo(e: Event, produced: seq<byte>): seq<byte>
    requires e.Width() <= |produced|
  {
    match e
    case Same => [produced[0]]
    case Addr16 => [produced[1], 0]
    case Word16 => [produced[1], produced[0]]
    case Acall11 => [produced[1], produced[0] / 32 * 32]
    case Pcode13 => [produced[1], produced[0] % 32]
    case Zero8 => [0]
    case Residual(a, _) => [a]
  }

  /** The image made again from the produced one and the trace; the trace names
      no byte outside the residual list. */
  function Rebuild(trace: seq<Event>, produced: seq<byte>): seq<byte>
  {
    if trace == [] || |produced| < trace[0].Width() then []
    else Undo(trace[0], produced) + Rebuild(trace[1..], produced[trace[0].Width()..])
  }

  lemma UndoBucket(oracle: seq<byte>, produced: seq<byte>, i: nat)
    requires i < Common(oracle, produced)
    ensures var e := Bucket(oracle, produced, i);
            Undo(e, produced[i..]) == oracle[i..i + e.Width()]
  {
  }

  lemma {:induction false} RebuildFrom(oracle: seq<byte>, produced: seq<byte>, i: nat)
    requires i <= Common(oracle, produced)
    ensures Rebuild(Trace(oracle, produced, i), produced[i..]) == oracle[i..Common(oracle, produced)]
    decreases Common(oracle, produced) - i
  {
    hide Bucket, Undo;
    var n := Common(oracle, produced);
    if i < n {
      var e := Bucket(oracle, produced, i);
      var t := Trace(oracle, produced, i);
      UndoBucket(oracle, produced, i);
      RebuildFrom(oracle, produced, i + e.Width());
      assert t[0] == e && t[1..] == Trace(oracle, produced, i + e.Width());
      assert produced[i..][e.Width()..] == produced[i + e.Width()..];
      assert oracle[i..n] == oracle[i..i + e.Width()] + oracle[i + e.Width()..n];
    }
  }

  /** The 2001 image, up to the shorter length, is rebuilt byte for byte. */
  lemma ClassificationIsLossless(oracle: seq<byte>, produced: seq<byte>)
    ensures Rebuild(Trace(oracle, produced, 0), produced) == oracle[..Common(oracle, produced)]
  {
    RebuildFrom(oracle, produced, 0);
    assert produced[0..] == produced;
  }

  // ------------------------------------------------- each index has one owner

  /** Position K is consumed by event J of the walk. */
  predicate Owns(trace: seq<Event>, j: nat, k: nat)
    requires j < |trace|
  {
    WidthOf(trace[..j]) <= k < WidthOf(trace[..j]) + trace[j].Width()
  }

  lemma {:induction false} WidthGrows(trace: seq<Event>, j: nat, k: nat)
    requires j < k <= |trace|
    ensures WidthOf(trace[..j]) + trace[j].Width() <= WidthOf(trace[..k])
    decreases k
  {
    assert trace[..k][..k - 1] == trace[..k - 1];
    if j < k - 1 { WidthGrows(trace, j, k - 1); }
  }

  /** The J-th event is the bucket of the position the widths before it add up
      to, and the widths add up to the common length. */
  lemma {:induction false} EventsFollow(oracle: seq<byte>, produced: seq<byte>, done: seq<Event>, i: nat)
    requires i <= Common(oracle, produced) && WidthOf(done) == i
    requires done + Trace(oracle, produced, i) == Trace(oracle, produced, 0)
    ensures var t := Trace(oracle, produced, 0);
            && WidthOf(t) == Common(oracle, produced)
            && forall j :: |done| <= j < |t| ==> EventHere(oracle, produced, j)
    decreases Common(oracle, produced) - i
  {
    hide Bucket, Event.Width, WidthOf, Trace;
    Start(oracle, produced);
    var t := Trace(oracle, produced, 0);
    if i == Common(oracle, produced) {
      assert done + [] == done;
    } else {
      var e := Bucket(oracle, produced, i);
      Turn(oracle, produced, done, i);
      Snoc(done, e);
      assert t[..|done|] == done && t[|done|] == e;
      EventsFollow(oracle, produced, done + [e], i + e.Width());
    }
  }

  predicate EventHere(oracle: seq<byte>, produced: seq<byte>, j: nat)
    requires j < |Trace(oracle, produced, 0)|
  {
    var t := Trace(oracle, produced, 0);
    WidthOf(t[..j]) < Common(oracle, produced) && t[j] == Bucket(oracle, produced, WidthOf(t[..j]))
  }

  /** The event that consumes position K. */
  function OwnerOf(t: seq<Event>, k: nat): (j: nat)
    requires k < WidthOf(t)
    ensures j < |t| && Owns(t, j, k)
  {
    var front := t[..|t| - 1];
    if WidthOf(front) <= k then |t| - 1
    else
      var j := OwnerOf(front, k);
      assert front[..j] == t[..j];
      j
  }

  lemma OneOwner(t: seq<Event>, h: nat, j: nat, k: nat)
    requires h < |t| && j < |t| && Owns(t, h, k) && Owns(t, j, k)
    ensures h == j
  {
    if h < j { WidthGrows(t, h, j); }
    if j < h { WidthGrows(t, j, h); }
  }

  /** Every index of the common prefix is consumed by one event and no other:
      by an equal byte, or by a bucket whose first byte differs. */
  lemma EachIndexHasOneOwner(oracle: seq<byte>, produced: seq<byte>, k: nat)
    requires k < Common(oracle, produced)
    ensures var t := Trace(oracle, produced, 0);
            && WidthOf(t) == Common(oracle, produced)
            && var j := OwnerOf(t, k);
               && (forall h :: 0 <= h < |t| && Owns(t, h, k) ==> h == j)
               && WidthOf(t[..j]) < Common(oracle, produced)
               && (t[j].Same? <==> oracle[WidthOf(t[..j])] == produced[WidthOf(t[..j])])
               && (oracle[k] != produced[k] ==> !t[j].Same?)
  {
    hide Trace, WidthOf, OwnerOf;
    var t := Trace(oracle, produced, 0);
    Start(oracle, produced);
    EventsFollow(oracle, produced, [], 0);
    var j := OwnerOf(t, k);
    assert EventHere(oracle, produced, j);
    forall h | 0 <= h < |t| && Owns(t, h, k)
      ensures h == j
    {
      OneOwner(t, h, j, k);
    }
  }

  // ------------------------------------------------ how many bytes may differ

  function Differing(oracle: seq<byte>, produced: seq<byte>, i: nat): nat
    requires i <= Common(oracle, produced)
    decreases Common(oracle, produced) - i
  {
    if i == Common(oracle, produced) then 0
    else (if oracle[i] != produced[i] then 1 else 0) + Differing(oracle, produced, i + 1)
  }

  function Pairs(trace: seq<Event>): nat
  {
    if trace == [] then 0 else (if trace[0].Pair() then 1 else 0) + Pairs(trace[1..])
  }

  function Singles(trace: seq<Event>): nat
  {
    if trace == [] then 0 else (if trace[0].Single() then 1 else 0) + Singles(trace[1..])
  }

  /** Pairs whose two 2001 bytes are the same. */
  function Doubled(trace: seq<Event>, oracle: seq<byte>): nat
  {
    if trace == [] || |oracle| < trace[0].Width() then 0
    else
      (if trace[0].Pair() && oracle[0] == oracle[1] then 1 else 0)
      + Doubled(trace[1..], oracle[trace[0].Width()..])
  }

  lemma {:induction false} DifferingFrom(oracle: seq<byte>, produced: seq<byte>, i: nat)
    requires i <= Common(oracle, produced)
    ensures var t := Trace(oracle, produced, i);
            && Differing(oracle, produced, i) + Doubled(t, oracle[i..]) == 2 * Pairs(t) + Singles(t)
            && Doubled(t, oracle[i..]) <= Pairs(t)
    decreases Common(oracle, produced) - i
  {
    if i < Common(oracle, produced) {
      var e := Bucket(oracle, produced, i);
      var t := Trace(oracle, produced, i);
      DifferingFrom(oracle, produced, i + e.Width());
      assert t[0] == e && t[1..] == Trace(oracle, produced, i + e.Width());
      assert oracle[i..][e.Width()..] == oracle[i + e.Width()..];
      if e.Pair() {
        assert oracle[i..][0] == oracle[i] && oracle[i..][1] == oracle[i + 1];
        assert oracle[i + 1] != produced[i + 1] <==> oracle[i] != oracle[i + 1];
      }
    }
  }

  lemma {:induction false} CountsAdd(trace: seq<Event>)
    ensures var c := CountAll(trace);
            && Pairs(trace) == c.addr16 + c.acall11 + c.word16 + c.pcode13
            && Singles(trace) == c.zero8 + |Residuals(trace)|
  {
    if trace != [] {
      var front, e := trace[..|trace| - 1], trace[|trace| - 1];
      CountsAdd(front);
      PairsSnoc(front, e);
      assert front + [e] == trace;
    }
  }

  lemma {:induction false} PairsSnoc(front: seq<Event>, e: Event)
    ensures Pairs(front + [e]) == Pairs(front) + (if e.Pair() then 1 else 0)
    ensures Singles(front + [e]) == Singles(front) + (if e.Single() then 1 else 0)
  {
    if front == [] {
      assert [] + [e] == [e];
    } else {
      PairsSnoc(front[1..], e);
      assert (front + [e])[1..] == front[1..] + [e];
    }
  }

  /** Every differing byte is counted: a pair is two, or one where its two 2001
      bytes are the same; the others are one each. */
  lemma CountsBoundDifferences(oracle: seq<byte>, produced: seq<byte>)
    ensures var t := Trace(oracle, produced, 0);
            var c := CountAll(t);
            var p, s := c.addr16 + c.acall11 + c.word16 + c.pcode13, c.zero8 + |Residuals(t)|;
            var d := Differing(oracle, produced, 0);
            d == 2 * p + s - Doubled(t, oracle) && p + s <= d <= 2 * p + s
  {
    DifferingFrom(oracle, produced, 0);
    CountsAdd(Trace(oracle, produced, 0));
    assert oracle[0..] == oracle;
  }

  // --------------------------------------------------- the defects it is after

  /** How the 2001 linker wrote the field (HI, LO). */
  datatype Defect = LostHigh | LostPage | Exchanged | LostFlags

  function Wrote(d: Defect, hi: byte, lo: byte): seq<byte>
  {
    match d
    case LostHigh => [lo, 0]
    case LostPage => [lo, hi / 32 * 32]
    case Exchanged => [lo, hi]
    case LostFlags => [lo, hi % 32]
  }

  /** A field written with one of the defects is consumed as one pair from its
      first byte exactly when its two bytes differ. */
  lemma DefectIsOnePair(d: Defect, hi: byte, lo: byte, oracle: seq<byte>, produced: seq<byte>, i: nat)
    requires i + 1 < Common(oracle, produced)
    requires produced[i..i + 2] == [hi, lo] && oracle[i..i + 2] == Wrote(d, hi, lo)
    ensures Bucket(oracle, produced, i).Pair() <==> hi != lo
    ensures Bucket(oracle, produced, i).Same? <==> hi == lo
  {
    assert produced[i] == produced[i..i + 2][0] && produced[i + 1] == produced[i..i + 2][1];
    assert oracle[i] == oracle[i..i + 2][0] && oracle[i + 1] == oracle[i..i + 2][1];
  }

  /** The two bytes at I are a field with defect D over one written right. */
  predicate Explains(d: Defect, oracle: seq<byte>, produced: seq<byte>, i: nat)
    requires i < Common(oracle, produced)
  {
    && i + 1 < Common(oracle, produced) && oracle[i] != produced[i]
    && [oracle[i], oracle[i + 1]] == Wrote(d, produced[i], produced[i + 1])
  }

  /** What a pair with two differing bytes is called: it goes by the first of the
      defects that explain it, in the order below. */
  lemma FirstDefectNames(oracle: seq<byte>, produced: seq<byte>, i: nat)
    requires i < Common(oracle, produced)
    ensures var e := Bucket(oracle, produced, i);
            var lost, swapped, page, flags := Explains(LostHigh, oracle, produced, i),
              Explains(Exchanged, oracle, produced, i), Explains(LostPage, oracle, produced, i),
              Explains(LostFlags, oracle, produced, i);
            && (e.Addr16? <==> lost)
            && (e.Word16? <==> swapped && !lost)
            && (e.Acall11? <==> page && !lost && !swapped)
            && (e.Pcode13? <==> flags && !lost && !swapped && !page)
            && (e.Pair() <==> lost || swapped || page || flags)
            && (e.Zero8? <==> oracle[i] == 0 != produced[i] && !e.Pair())
            && (e.Residual? <==> oracle[i] != 0 && oracle[i] != produced[i] && !e.Pair())
  {
  }

  /** The class of each defect: its own, unless what was lost is 0 or the bytes left
      are those of a plain exchange. */
  lemma ClassOfDefect(d: Defect, hi: byte, lo: byte, oracle: seq<byte>, produced: seq<byte>, i: nat)
    requires i + 1 < Common(oracle, produced) && hi != lo
    requires produced[i..i + 2] == [hi, lo] && oracle[i..i + 2] == Wrote(d, hi, lo)
    ensures Bucket(oracle, produced, i) ==
            match d
            case LostHigh => Addr16
            case Exchanged => if hi == 0 then Addr16 else Word16
            case LostPage => if hi < 32 then Addr16 else if hi % 32 == 0 then Word16 else Acall11
            case LostFlags => if hi % 32 == 0 then Addr16 else if hi < 32 then Word16 else Pcode13
  {
    assert produced[i] == produced[i..i + 2][0] && produced[i + 1] == produced[i..i + 2][1];
    assert oracle[i] == oracle[i..i + 2][0] && oracle[i + 1] == oracle[i..i + 2][1];
  }

  /** Two defects explain one field only if they wrote the same bytes: the order of
      the tests matters there and nowhere else. */
  lemma DefectsOverlap(c: Defect, d: Defect, oracle: seq<byte>, produced: seq<byte>, i: nat)
    requires i < Common(oracle, produced) && c != d
    requires Explains(c, oracle, produced, i) && Explains(d, oracle, produced, i)
    ensures produced[i] < 32 || produced[i] % 32 == 0
  {
  }
}
