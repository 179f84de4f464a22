/** Splitting at a separator, as Python's split () does, and joining again. */
module Splitting {

  function Split<T(==)>(s: seq<T>, sep: T): (p: seq<seq<T>>)
    ensures p != []
  {
    if s == [] then [[]]
    else
      var rest := Split(s[1..], sep);
      if s[0] == sep then [[]] + rest else [[s[0]] + rest[0]] + rest[1..]
  }

  function Join<T>(p: seq<seq<T>>, sep: T): seq<T>
  {
    if p == [] then [] else if |p| == 1 then p[0] else p[0] + [sep] + Join(p[1..], sep)
  }

  predicate AllLack<T(==)>(p: seq<seq<T>>, sep: T) { forall k :: 0 <= k < |p| ==> sep !in p[k] }

  lemma {:induction false} PiecesLack<T>(s: seq<T>, sep: T)
    ensures AllLack(Split(s, sep), sep)
  {
    if s != [] { PiecesLack(s[1..], sep); }
  }

  lemma {:induction false} JoinAfterSplit<T>(s: seq<T>, sep: T)
    ensures Join(Split(s, sep), sep) == s
  {
    if s != [] {
      JoinAfterSplit(s[1..], sep);
      var rest := Split(s[1..], sep);
      var p := Split(s, sep);
      if s[0] == sep {
        assert p[1..] == rest;
        assert [] + [sep] + s[1..] == s;
      } else {
        assert p[1..] == rest[1..];
        assert [s[0]] + s[1..] == s;
        if |rest| > 1 {
          assert ([s[0]] + rest[0]) + [sep] + Join(rest[1..], sep) == [s[0]] + (rest[0] + [sep] + Join(rest[1..], sep));
        }
      }
    }
  }

  lemma {:induction false} SplitOne<T>(s: seq<T>, sep: T)
    requires sep !in s
    ensures Split(s, sep) == [s]
  {
    if s != [] {
      assert s[0] in s && forall c :: c in s[1..] ==> c in s;
      SplitOne(s[1..], sep);
      assert [s[0]] + s[1..] == s;
    }
  }

  lemma {:induction false} SplitFirst<T>(s: seq<T>, rest: seq<T>, sep: T)
    requires sep !in s
    ensures Split(s + [sep] + rest, sep) == [s] + Split(rest, sep)
  {
    var raw := s + [sep] + rest;
    if s == [] {
      assert raw[1..] == rest;
    } else {
      assert s[0] in s && forall c :: c in s[1..] ==> c in s;
      SplitFirst(s[1..], rest, sep);
      assert raw[1..] == s[1..] + [sep] + rest && raw[0] == s[0];
      assert [s[0]] + s[1..] == s;
    }
  }

  lemma {:induction false} SplitAfterJoin<T>(p: seq<seq<T>>, sep: T)
    requires p != [] && AllLack(p, sep)
    ensures Split(Join(p, sep), sep) == p
  {
    if |p| == 1 {
      SplitOne(p[0], sep);
    } else {
      SplitAfterJoin(p[1..], sep);
      SplitFirst(p[0], Join(p[1..], sep), sep);
      assert [p[0]] + p[1..] == p;
    }
  }

  lemma {:induction false} JoinSnoc<T>(p: seq<seq<T>>, s: seq<T>, sep: T)
    ensures Join(p + [s], sep) == if p == [] then s else Join(p, sep) + [sep] + s
  {
    if p != [] {
      JoinSnoc(p[1..], s, sep);
      assert (p + [s])[1..] == p[1..] + [s];
      if |p| > 1 {
        assert p[0] + [sep] + (Join(p[1..], sep) + [sep] + s) == p[0] + [sep] + Join(p[1..], sep) + [sep] + s;
      }
    }
  }
}
