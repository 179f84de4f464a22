/** Sampling and naming the mutants of an operator. */
module Mutants {
  import opened Decimals

  // ------------------------------------------------------------------ sampling

  /** The K-th of CAP indices spread over N items. */
  function Pick(k: nat, n: nat, cap: nat): nat
    requires cap > 0
  {
    k * n / cap
  }

  function Spread<T>(items: seq<T>, cap: int): (r: seq<T>)
  {
    if cap <= 0 || |items| <= cap then items
    else seq(cap, k requires 0 <= k < cap => PickInRange(k, |items|, cap); items[Pick(k, |items|, cap)])
  }

  lemma MulMono(a: int, b: int, c: nat)
    requires a <= b
    ensures a * c <= b * c
  {
  }

  lemma MulLess(k: nat, n: nat, cap: nat)
    requires k < cap && 0 < n
    ensures k * n < n * cap
  {
  }

  /** The quotient is the number of times the divisor fits. */
  lemma Quotient(x: nat, a: nat, r: nat, cap: nat)
    requires x == a * cap + r && r < cap
    ensures x / cap == a
  {
    var q := x / cap;
    assert x == q * cap + x % cap;
    if q < a { MulMono(q + 1, a, cap); } else { MulMono(a, q, cap); }
    if q > a { MulMono(a + 1, q, cap); }
  }

  lemma DivLess(x: nat, n: nat, cap: nat)
    requires 0 < cap && x < n * cap
    ensures x / cap < n
  {
    assert x == x / cap * cap + x % cap;
    if n <= x / cap { MulMono(n, x / cap, cap); }
  }

  lemma PickInRange(k: nat, n: nat, cap: nat)
    requires k < cap && 0 < n
    ensures Pick(k, n, cap) < n
  {
    MulLess(k, n, cap);
    DivLess(k * n, n, cap);
  }

  /** A quotient between -1 and 2 exclusive is 0 or 1. */
  lemma SmallMultiple(m: int, cap: int, e: int)
    requires 0 < cap && m * cap == e && -cap < e < 2 * cap
    ensures m == 0 || m == 1
    ensures e < cap ==> m == 0
  {
    if m <= -1 { MulMono(m, -1, cap); } else if m >= 2 { MulMono(2, m, cap); }
  }

  /** Two indices next to each other, CAP counted as the end, are N / CAP apart,
      rounded down or up. */
  lemma Gap(k: nat, n: nat, cap: nat)
    requires 0 < cap
    ensures var g := Pick(k + 1, n, cap) - Pick(k, n, cap);
            g == n / cap || (n % cap != 0 && g == n / cap + 1)
  {
    var a, b, q := Pick(k, n, cap), Pick(k + 1, n, cap), n / cap;
    var r, s, t := k * n % cap, (k + 1) * n % cap, n % cap;
    assert k * n == a * cap + r && (k + 1) * n == b * cap + s && n == q * cap + t;
    assert (k + 1) * n == k * n + n;
    assert (b - a - q) * cap == b * cap - a * cap - q * cap;
    SmallMultiple(b - a - q, cap, t + r - s);
  }

  lemma {:induction false} PicksIncrease(j: nat, k: nat, n: nat, cap: nat)
    requires 0 < cap < n && j < k
    ensures Pick(j, n, cap) < Pick(k, n, cap)
    decreases k
  {
    Gap(k - 1, n, cap);
    AtLeastOne(n, cap);
    hide Pick;
    if j < k - 1 { PicksIncrease(j, k - 1, n, cap); }
  }

  lemma DivideUp(n: nat, cap: nat)
    requires 0 < cap
    ensures (n + cap - 1) / cap == n / cap + if n % cap == 0 then 0 else 1
  {
    RoundUp(n, n / cap, n % cap, cap);
  }

  lemma RoundUp(n: nat, q: nat, t: nat, cap: nat)
    requires n == q * cap + t && t < cap
    ensures (n + cap - 1) / cap == if t == 0 then q else q + 1
  {
    if t == 0 {
      Quotient(n + cap - 1, q, cap - 1, cap);
    } else {
      assert (q + 1) * cap == q * cap + cap;
      Quotient(n + cap - 1, q + 1, t - 1, cap);
    }
  }

  lemma NoTimes(q: int, cap: nat)
    ensures q <= 0 ==> q * cap <= 0
  {
    if q <= 0 { MulMono(q, 0, cap); }
  }

  lemma AtLeastOne(n: nat, cap: nat)
    requires 0 < cap < n
    ensures n / cap >= 1
  {
    var q := n / cap;
    assert n == q * cap + n % cap;
    NoTimes(q, cap);
  }

  /** A sample is CAP items in their order, evenly spaced from the first one on
      to the end. */
  lemma SampleIsEven<T>(items: seq<T>, cap: nat)
    requires 0 < cap < |items|
    ensures var n := |items|;
            && |Spread(items, cap)| == cap && Pick(0, n, cap) == 0 && Pick(cap, n, cap) == n
            && (forall k :: 0 <= k < cap ==> Pick(k, n, cap) < n && Spread(items, cap)[k] == items[Pick(k, n, cap)])
            && (forall j, k :: 0 <= j < k < cap ==> Pick(j, n, cap) < Pick(k, n, cap))
            && (forall k :: 0 <= k < cap ==> EvenGap(k, n, cap))
  {
    hide Pick, EvenGap;
    var n := |items|;
    WholeRange(n, cap);
    forall k | 0 <= k < cap
      ensures Pick(k, n, cap) < n && EvenGap(k, n, cap)
    {
      PickInRange(k, n, cap);
      GapIsEven(k, n, cap);
    }
    forall j, k | 0 <= j < k < cap
      ensures Pick(j, n, cap) < Pick(k, n, cap)
    {
      PicksIncrease(j, k, n, cap);
    }
  }

  lemma GapIsEven(k: nat, n: nat, cap: nat)
    requires 0 < cap
    ensures EvenGap(k, n, cap)
  {
    Gap(k, n, cap);
    DivideUp(n, cap);
    hide Pick;
  }

  lemma WholeRange(n: nat, cap: nat)
    requires 0 < cap
    ensures Pick(cap, n, cap) == n && Pick(0, n, cap) == 0
  {
    assert cap * n == n * cap + 0;
    Quotient(cap * n, n, 0, cap);
    assert 0 * n == 0;
  }

  /** A sampled index is the exact share K / CAP of N, rounded down. */
  lemma PickIsShare(k: nat, n: nat, cap: nat)
    requires 0 < cap
    ensures Pick(k, n, cap) * cap <= k * n < (Pick(k, n, cap) + 1) * cap
  {
    var a := Pick(k, n, cap);
    assert k * n == a * cap + k * n % cap;
    assert (a + 1) * cap == a * cap + cap;
  }

  predicate EvenGap(k: nat, n: nat, cap: nat)
    requires 0 < cap
  {
    n / cap <= Pick(k + 1, n, cap) - Pick(k, n, cap) <= (n + cap - 1) / cap
  }

  // -------------------------------------------------------------------- naming

  /** A rewrite of the lines from LINE on. */
  datatype Match = Match(line: nat, rep: seq<string>)

  /** How many of the matches are on LINE. */
  function Count(ms: seq<Match>, line: nat): (n: nat)
  {
    if ms == [] then 0
    else Count(ms[..|ms| - 1], line) + if ms[|ms| - 1].line == line then 1 else 0
  }

  /** The number of match I within its line. */
  function Ordinal(ms: seq<Match>, i: nat): nat
    requires i < |ms|
  {
    Count(ms[..i + 1], ms[i].line)
  }

  /** key-operator-line, with the number of the match where its line has more
      than one. */
  function Id(key: string, name: string, line: nat, k: nat, many: bool): string
  {
    key + "-" + name + "-" + Decimal(line + 1) + if many then "." + Decimal(k) else ""
  }

  function IdOf(key: string, name: string, ms: seq<Match>, i: nat): string
    requires i < |ms|
  {
    Id(key, name, ms[i].line, Ordinal(ms, i), Count(ms, ms[i].line) > 1)
  }

  /** lines[line:line + len(rep)] == rep */
  predicate Changes(lines: seq<string>, m: Match)
    requires m.line < |lines|
  {
    (if m.line + |m.rep| <= |lines| then lines[m.line..m.line + |m.rep|] else lines[m.line..]) != m.rep
  }

  /** The mutated file: the lines from the match's on, as many as it rewrites, are
      replaced by the rewrite. */
  function Mutated(lines: seq<string>, m: Match): seq<string>
    requires m.line < |lines|
  {
    lines[..m.line] + m.rep + if m.line + |m.rep| <= |lines| then lines[m.line + |m.rep|..] else []
  }

  /** A match has an id exactly when its mutant is another file. */
  lemma ChangesTheFile(lines: seq<string>, m: Match)
    requires m.line < |lines|
    ensures Changes(lines, m) <==> Mutated(lines, m) != lines
  {
    var n := |m.rep|;
    var here := if m.line + n <= |lines| then lines[m.line..m.line + n] else lines[m.line..];
    var rest := if m.line + n <= |lines| then lines[m.line + n..] else [];
    assert lines == lines[..m.line] + here + rest;
    if Mutated(lines, m) == lines {
      assert |m.rep| == |here|;
      assert m.rep == Mutated(lines, m)[m.line..m.line + n];
    }
  }

  /** The indices sampled from the matches. */
  function Picks(n: nat, cap: int): seq<nat>
  {
    Spread(UpTo(n), cap)
  }

  function UpTo(n: nat): (s: seq<nat>)
    ensures |s| == n && forall i :: 0 <= i < n ==> s[i] == i
  {
    seq(n, (i: nat) => i)
  }

  predicate InFile(lines: seq<string>, ms: seq<Match>) { forall i :: 0 <= i < |ms| ==> ms[i].line < |lines| }

  predicate Indices(picks: seq<nat>, n: nat) { forall j :: 0 <= j < |picks| ==> picks[j] < n }

  /** The ids of the matches with the indices PICKS; one that changes nothing
      has none. */
  function Ids(key: string, name: string, lines: seq<string>, ms: seq<Match>, picks: seq<nat>): seq<string>
    requires InFile(lines, ms) && Indices(picks, |ms|)
  {
    if picks == [] then []
    else
      var p := picks[|picks| - 1];
      Ids(key, name, lines, ms, picks[..|picks| - 1])
      + if Changes(lines, ms[p]) then [IdOf(key, name, ms, p)] else []
  }

  /** Sampling the matches is sampling their indices. */
  lemma SpreadIsPicks<T>(items: seq<T>, cap: int)
    ensures var picks := Picks(|items|, cap);
            && |Spread(items, cap)| == |picks| && Indices(picks, |items|)
            && (forall j :: 0 <= j < |picks| ==> Spread(items, cap)[j] == items[picks[j]])
            && (forall i, j :: 0 <= i < j < |picks| ==> picks[i] < picks[j])
  {
    var index := UpTo(|items|);
    if 0 < cap < |items| {
      SampleIsEven(items, cap);
      SampleIsEven(index, cap);
    }
  }

  /** Without a cap, or with fewer matches than it allows, every match is taken; else
      as many as the cap, each the share of its place. */
  lemma WhatIsPicked(n: nat, cap: int)
    ensures cap <= 0 || n <= cap ==> |Picks(n, cap)| == n && forall i :: 0 <= i < n ==> Picks(n, cap)[i] == i
    ensures 0 < cap < n ==>
              && |Picks(n, cap)| == cap
              && forall k :: 0 <= k < cap ==> Picks(n, cap)[k] * cap <= k * n < (Picks(n, cap)[k] + 1) * cap
  {
    hide Pick;
    var index := UpTo(n);
    if 0 < cap < n {
      SampleIsEven(index, cap);
      forall k | 0 <= k < cap
        ensures Picks(n, cap)[k] * cap <= k * n < (Picks(n, cap)[k] + 1) * cap
      {
        PickIsShare(k, n, cap);
      }
    }
  }

  ghost predicate Tallied(nth: map<nat, nat>, ms: seq<Match>)
  {
    forall line: nat :: Count(ms, line) == if line in nth then nth[line] else 0
  }

  method Rank(ms: seq<Match>) returns (ranked: seq<(Match, nat)>, nth: map<nat, nat>)
    ensures |ranked| == |ms| && forall i :: 0 <= i < |ms| ==> ranked[i] == (ms[i], Ordinal(ms, i))
    ensures Tallied(nth, ms)
  {
    ranked, nth := [], map[];
    var i := 0;
    while i < |ms|
      invariant i <= |ms| && |ranked| == i && Tallied(nth, ms[..i])
      invariant forall j :: 0 <= j < i ==> ranked[j] == (ms[j], Ordinal(ms, j))
    {
      var line := ms[i].line;
      assert ms[..i + 1][..i] == ms[..i];
      nth := nth[line := 1 + if line in nth then nth[line] else 0];
      assert nth[line] == Ordinal(ms, i);
      ranked := ranked + [(ms[i], nth[line])];
      i := i + 1;
    }
    assert ms[..i] == ms;
  }

  /** The ids of one operator on one file. */
  method Name(key: string, name: string, lines: seq<string>, ms: seq<Match>, cap: int) returns (ids: seq<string>)
    requires InFile(lines, ms)
    ensures Indices(Picks(|ms|, cap), |ms|) && ids == Ids(key, name, lines, ms, Picks(|ms|, cap))
  {
    hide Ordinal, Count, Id, Changes, Spread, Picks;
    var ranked, nth := Rank(ms);
    SpreadIsPicks(ranked, cap);
    var sample := Spread(ranked, cap);
    ghost var picks := Picks(|ms|, cap);
    ids := [];
    var j := 0;
    while j < |sample|
      invariant j <= |sample| && Indices(picks[..j], |ms|)
      invariant ids == Ids(key, name, lines, ms, picks[..j])
    {
      var (m, k) := sample[j];
      assert picks[..j + 1][..j] == picks[..j];
      assert m == ms[picks[j]] && k == Ordinal(ms, picks[j]);
      assert Count(ms, m.line) == if m.line in nth then nth[m.line] else 0;
      if Changes(lines, m) {
        ids := ids + [Id(key, name, m.line, k, m.line in nth && nth[m.line] > 1)];
      }
      j := j + 1;
    }
    assert picks[..j] == picks;
  }

  // ------------------------------------------------------------- unique names

  lemma NotLater(a: string, b: string, c: string, d: string, x: char)
    requires a + [x] + b == c + [x] + d && x !in c
    ensures |c| <= |a|
  {
    var s := a + [x] + b;
    assert s[|a|] == x;
    assert forall k :: 0 <= k < |c| ==> s[k] == c[k];
  }

  lemma NotEarlier(a: string, b: string, c: string, d: string, x: char)
    requires a + [x] + b == c + [x] + d && x !in d
    ensures |a| <= |c|
  {
    var s := a + [x] + b;
    assert s[|a|] == x;
    assert forall k :: |c| < k < |s| ==> s[k] == d[k - |c| - 1];
  }

  lemma SplitsThere(a: string, b: string, c: string, d: string, x: char)
    requires a + [x] + b == c + [x] + d && |a| == |c|
    ensures a == c && b == d
  {
    var s := a + [x] + b;
    assert a == s[..|a|] == c;
    assert b == s[|a| + 1..] == d;
  }

  /** The first X of a text splits it one way. */
  lemma SplitsOnce(a: string, b: string, c: string, d: string, x: char)
    requires a + [x] + b == c + [x] + d && x !in a && x !in c
    ensures a == c && b == d
  {
    NotLater(a, b, c, d, x);
    NotLater(c, d, a, b, x);
    SplitsThere(a, b, c, d, x);
  }

  /** And so does the last one. */
  lemma SplitsLast(a: string, b: string, c: string, d: string, x: char)
    requires a + [x] + b == c + [x] + d && x !in b && x !in d
    ensures a == c && b == d
  {
    NotEarlier(a, b, c, d, x);
    NotEarlier(c, d, a, b, x);
    SplitsThere(a, b, c, d, x);
  }

  /** The part of an id behind the last dash. */
  function Tail(line: nat, k: nat, many: bool): string
  {
    Decimal(line + 1) + if many then "." + Decimal(k) else ""
  }

  lemma TailHasNoDash(line: nat, k: nat, many: bool)
    ensures '-' !in Tail(line, k, many)
  {
    hide Decimal;
    DecimalIsDigits(line + 1);
    DecimalIsDigits(k);
  }

  lemma DotTellsMany(line: nat, k: nat, many: bool)
    ensures '.' in Tail(line, k, many) <==> many
  {
    hide Decimal;
    DecimalIsDigits(line + 1);
    if many { assert Tail(line, k, many)[|Decimal(line + 1)|] == '.'; }
  }

  lemma TailsDiffer(line1: nat, k1: nat, many1: bool, line2: nat, k2: nat, many2: bool)
    requires Tail(line1, k1, many1) == Tail(line2, k2, many2)
    ensures line1 == line2 && many1 == many2 && (many1 ==> k1 == k2)
  {
    hide Decimal, Value;
    var a, b := Decimal(line1 + 1), Decimal(line2 + 1);
    DecimalIsDigits(line1 + 1);
    DecimalIsDigits(line2 + 1);
    ValueOfDecimal(line1 + 1);
    ValueOfDecimal(line2 + 1);
    ValueOfDecimal(k1);
    ValueOfDecimal(k2);
    var s := Tail(line1, k1, many1);
    DotTellsMany(line1, k1, many1);
    DotTellsMany(line2, k2, many2);
    if many1 {
      assert a + ['.'] + Decimal(k1) == a + ("." + Decimal(k1)) == s;
      assert b + ['.'] + Decimal(k2) == b + ("." + Decimal(k2)) == s;
      SplitsOnce(a, Decimal(k1), b, Decimal(k2), '.');
    } else {
      assert a == s == b;
    }
  }

  /** An id names its file, its operator, its line and, where there are several,
      the match, even if the operator's name has dashes in it. */
  lemma IdNamesItsMatch(key1: string, name1: string, line1: nat, k1: nat, many1: bool,
                        key2: string, name2: string, line2: nat, k2: nat, many2: bool)
    requires '-' !in key1 && '-' !in key2
    requires Id(key1, name1, line1, k1, many1) == Id(key2, name2, line2, k2, many2)
    ensures key1 == key2 && name1 == name2 && line1 == line2 && many1 == many2 && (many1 ==> k1 == k2)
  {
    hide Decimal;
    var t1, t2 := Tail(line1, k1, many1), Tail(line2, k2, many2);
    TailHasNoDash(line1, k1, many1);
    TailHasNoDash(line2, k2, many2);
    assert Id(key1, name1, line1, k1, many1) == (key1 + "-" + name1) + ['-'] + t1;
    assert Id(key2, name2, line2, k2, many2) == (key2 + "-" + name2) + ['-'] + t2;
    hide Tail, Id;
    SplitsLast(key1 + "-" + name1, t1, key2 + "-" + name2, t2, '-');
    TailsDiffer(line1, k1, many1, line2, k2, many2);
    assert key1 + ['-'] + name1 == key1 + "-" + name1 && key2 + ['-'] + name2 == key2 + "-" + name2;
    SplitsOnce(key1, name1, key2, name2, '-');
  }

  lemma {:induction false} CountGrows(ms: seq<Match>, a: nat, b: nat, line: nat)
    requires a <= b <= |ms|
    ensures Count(ms[..a], line) <= Count(ms[..b], line)
    decreases b
  {
    if a < b {
      CountGrows(ms, a, b - 1, line);
      assert ms[..b][..b - 1] == ms[..b - 1];
    }
  }

  lemma OrdinalCounts(ms: seq<Match>, i: nat)
    requires i < |ms|
    ensures Ordinal(ms, i) == Count(ms[..i], ms[i].line) + 1 == Count(ms[..i + 1], ms[i].line)
  {
    assert ms[..i + 1][..i] == ms[..i];
  }

  /** Two matches on one line have different numbers, and the line has more than
      one. */
  lemma OrdinalsDiffer(ms: seq<Match>, i: nat, j: nat)
    requires i < j < |ms| && ms[i].line == ms[j].line
    ensures Ordinal(ms, i) < Ordinal(ms, j) <= Count(ms, ms[i].line) && Ordinal(ms, i) >= 1
  {
    hide Count, Ordinal;
    var line := ms[i].line;
    OrdinalCounts(ms, i);
    OrdinalCounts(ms, j);
    assert ms[..|ms|] == ms;
    CountGrows(ms, i + 1, j, line);
    CountGrows(ms, j + 1, |ms|, line);
  }

  lemma IdsOfTwoMatchesDiffer(key: string, name: string, ms: seq<Match>, i: nat, j: nat)
    requires i < j < |ms| && '-' !in key
    ensures IdOf(key, name, ms, i) != IdOf(key, name, ms, j)
  {
    hide Id, Ordinal, Count;
    if IdOf(key, name, ms, i) == IdOf(key, name, ms, j) {
      IdNamesItsMatch(key, name, ms[i].line, Ordinal(ms, i), Count(ms, ms[i].line) > 1,
                      key, name, ms[j].line, Ordinal(ms, j), Count(ms, ms[j].line) > 1);
      OrdinalsDiffer(ms, i, j);
    }
  }

  /** The matches on LINE among the first N. */
  function OnLine(ms: seq<Match>, line: nat, n: nat): set<nat>
    requires n <= |ms|
  {
    set i | 0 <= i < n && ms[i].line == line
  }

  lemma {:induction false} CountIsHowMany(ms: seq<Match>, line: nat, n: nat)
    requires n <= |ms|
    ensures Count(ms[..n], line) == |OnLine(ms, line, n)|
  {
    if n == 0 {
      assert OnLine(ms, line, 0) == {};
    } else {
      CountIsHowMany(ms, line, n - 1);
      assert ms[..n][..n - 1] == ms[..n - 1];
      assert OnLine(ms, line, n) == OnLine(ms, line, n - 1) + if ms[n - 1].line == line then {n - 1} else {};
    }
  }

  /** Reading the id of match I: the line from 1 on, and, if other matches are on
      it, how many of them come before. */
  lemma IdSays(key: string, name: string, ms: seq<Match>, i: nat) returns (l: string, k: string)
    requires i < |ms|
    ensures var alone := OnLine(ms, ms[i].line, |ms|) == {i};
            && IdOf(key, name, ms, i) == key + "-" + name + "-" + l + (if alone then "" else "." + k)
            && Value(l) == ms[i].line + 1
            && Value(k) == |OnLine(ms, ms[i].line, i)| + 1
            && forall c :: c in l || c in k ==> IsDigit(c)
  {
    var line := ms[i].line;
    l, k := Decimal(line + 1), Decimal(Ordinal(ms, i));
    hide Decimal, Value, Count, OnLine;
    ValueOfDecimal(line + 1);
    ValueOfDecimal(Ordinal(ms, i));
    DecimalIsDigits(line + 1);
    DecimalIsDigits(Ordinal(ms, i));
    OrdinalCounts(ms, i);
    CountIsHowMany(ms, line, i);
    CountIsHowMany(ms, line, |ms|);
    assert ms[..|ms|] == ms;
    AloneIsOne(ms, i);
    assert key + "-" + name + "-" + (l + "." + k) == key + "-" + name + "-" + l + ("." + k);
  }

  lemma AloneIsOne(ms: seq<Match>, i: nat)
    requires i < |ms|
    ensures var on := OnLine(ms, ms[i].line, |ms|); |on| > 1 <==> on != {i}
  {
    var on := OnLine(ms, ms[i].line, |ms|);
    assert i in on && |on - {i}| == |on| - 1;
    if |on| <= 1 { assert on - {i} == {}; assert on == {i}; }
  }

  /** The ids are exactly those of the sampled matches whose mutant is another
      file. */
  lemma {:induction false} IdsAreMutants(key: string, name: string, lines: seq<string>, ms: seq<Match>,
                                         picks: seq<nat>, id: string)
    requires InFile(lines, ms) && Indices(picks, |ms|)
    ensures id in Ids(key, name, lines, ms, picks)
       <==> exists j :: 0 <= j < |picks| && IsMutant(lines, ms[picks[j]]) && IdOf(key, name, ms, picks[j]) == id
  {
    hide IdOf, Changes, Mutated;
    if picks != [] {
      var n := |picks| - 1;
      var front := picks[..n];
      IdsAreMutants(key, name, lines, ms, front, id);
      ChangesTheFile(lines, ms[picks[n]]);
      if j :| 0 <= j < n && IsMutant(lines, ms[front[j]]) && IdOf(key, name, ms, front[j]) == id {
        assert picks[j] == front[j];
      }
      if j :| 0 <= j < |picks| && IsMutant(lines, ms[picks[j]]) && IdOf(key, name, ms, picks[j]) == id {
        if j < n { assert front[j] == picks[j]; }
      }
    }
  }

  predicate IsMutant(lines: seq<string>, m: Match) { m.line < |lines| && Mutated(lines, m) != lines }

  predicate Distinct(ids: seq<string>) { forall i, j :: 0 <= i < j < |ids| ==> ids[i] != ids[j] }

  /** Every id belongs to a match with one of the indices. */
  lemma {:induction false} IdsBelong(key: string, name: string, lines: seq<string>, ms: seq<Match>, picks: seq<nat>,
                                     id: string)
    requires InFile(lines, ms) && Indices(picks, |ms|) && id in Ids(key, name, lines, ms, picks)
    ensures exists j :: 0 <= j < |picks| && IdOf(key, name, ms, picks[j]) == id
  {
    hide IdOf, Changes;
    var n := |picks| - 1;
    if id in Ids(key, name, lines, ms, picks[..n]) {
      IdsBelong(key, name, lines, ms, picks[..n], id);
      var j :| 0 <= j < n && IdOf(key, name, ms, picks[..n][j]) == id;
      assert IdOf(key, name, ms, picks[j]) == id;
    } else {
      assert IdOf(key, name, ms, picks[n]) == id;
    }
  }

  lemma {:induction false} IdsDistinct(key: string, name: string, lines: seq<string>, ms: seq<Match>, picks: seq<nat>)
    requires InFile(lines, ms) && Indices(picks, |ms|) && '-' !in key
    requires forall i, j :: 0 <= i < j < |picks| ==> picks[i] < picks[j]
    ensures Distinct(Ids(key, name, lines, ms, picks))
  {
    hide IdOf, Changes;
    if picks != [] {
      var n := |picks| - 1;
      var front, p := Ids(key, name, lines, ms, picks[..n]), picks[n];
      IdsDistinct(key, name, lines, ms, picks[..n]);
      if IdOf(key, name, ms, p) in front {
        IdsBelong(key, name, lines, ms, picks[..n], IdOf(key, name, ms, p));
        var j :| 0 <= j < n && IdOf(key, name, ms, picks[..n][j]) == IdOf(key, name, ms, p);
        IdsOfTwoMatchesDiffer(key, name, ms, picks[j], p);
      }
    }
  }

  /** One operator on one file. */
  datatype Run = Run(key: string, name: string, lines: seq<string>, ms: seq<Match>, cap: int)
  {
    predicate Valid() { InFile(lines, ms) && '-' !in key }

    function Sampled(): (ids: seq<string>)
      requires Valid()
    {
      SpreadIsPicks(ms, cap);
      Ids(key, name, lines, ms, Picks(|ms|, cap))
    }
  }

  function AllIds(runs: seq<Run>): seq<string>
    requires forall i :: 0 <= i < |runs| ==> runs[i].Valid()
  {
    if runs == [] then [] else AllIds(runs[..|runs| - 1]) + runs[|runs| - 1].Sampled()
  }

  lemma SampledDistinct(run: Run)
    requires run.Valid()
    ensures Distinct(run.Sampled())
  {
    hide Ids, Picks, Distinct;
    SpreadIsPicks(run.ms, run.cap);
    IdsDistinct(run.key, run.name, run.lines, run.ms, Picks(|run.ms|, run.cap));
  }

  /** An id tells the run it comes from. */
  lemma SampledApart(r: Run, t: Run, id: string)
    requires r.Valid() && t.Valid() && id in r.Sampled() && id in t.Sampled()
    ensures r.key == t.key && r.name == t.name
  {
    hide Id, Ordinal, Count, Run.Sampled;
    var p := MatchOf(r, id);
    var q := MatchOf(t, id);
    IdNamesItsMatch(r.key, r.name, r.ms[p].line, Ordinal(r.ms, p), Count(r.ms, r.ms[p].line) > 1,
                    t.key, t.name, t.ms[q].line, Ordinal(t.ms, q), Count(t.ms, t.ms[q].line) > 1);
  }

  lemma MatchOf(r: Run, id: string) returns (i: nat)
    requires r.Valid() && id in r.Sampled()
    ensures i < |r.ms| && IdOf(r.key, r.name, r.ms, i) == id
  {
    hide Ids, Picks, IdOf;
    SpreadIsPicks(r.ms, r.cap);
    var p := Picks(|r.ms|, r.cap);
    IdsBelong(r.key, r.name, r.lines, r.ms, p, id);
    var j :| 0 <= j < |p| && IdOf(r.key, r.name, r.ms, p[j]) == id;
    i := p[j];
  }

  lemma DistinctTogether(a: seq<string>, b: seq<string>)
    requires Distinct(a) && Distinct(b) && forall id :: id in a ==> id !in b
    ensures Distinct(a + b)
  {
    var c := a + b;
    forall i, j | 0 <= i < j < |c|
      ensures c[i] != c[j]
    {
      if i < |a| <= j { assert a[i] in a && b[j - |a|] in b; }
    }
  }

  lemma {:induction false} RunOf(runs: seq<Run>, id: string)
    requires (forall i :: 0 <= i < |runs| ==> runs[i].Valid()) && id in AllIds(runs)
    ensures exists i :: 0 <= i < |runs| && id in runs[i].Sampled()
  {
    hide Run.Sampled;
    var n := |runs| - 1;
    if id in AllIds(runs[..n]) {
      RunOf(runs[..n], id);
      var i :| 0 <= i < n && id in runs[..n][i].Sampled();
      assert id in runs[i].Sampled();
    } else {
      assert id in runs[n].Sampled();
    }
  }

  /** No two mutants of a whole run share an id, whatever the caps. */
  lemma {:induction false} MutantIdsAreUnique(runs: seq<Run>)
    requires forall i :: 0 <= i < |runs| ==> runs[i].Valid()
    requires forall i, j :: 0 <= i < j < |runs| ==> (runs[i].key, runs[i].name) != (runs[j].key, runs[j].name)
    ensures Distinct(AllIds(runs))
  {
    hide Run.Sampled;
    if runs != [] {
      var n := |runs| - 1;
      MutantIdsAreUnique(runs[..n]);
      SampledDistinct(runs[n]);
      forall id | id in AllIds(runs[..n])
        ensures id !in runs[n].Sampled()
      {
        RunOf(runs[..n], id);
        var i :| 0 <= i < n && id in runs[..n][i].Sampled();
        if id in runs[n].Sampled() { SampledApart(runs[i], runs[n], id); }
      }
      DistinctTogether(AllIds(runs[..n]), runs[n].Sampled());
    }
  }
}
