/** What a repaired patch says is true: the count of each hunk is the number of
    its added lines and the hash on its index line that of the file it builds.
    The lines are spoken of by their positions and characters only. */
module HunkTruth {
  import opened Decimals
  import opened Wrappers
  import opened Hunks

  predicate Plus(line: string) { |line| >= 1 && line[0] == '+' }

  /** Text of a hunk's body, or the note that a file does not end in a newline. */
  predicate InBody(line: string) { |line| >= 1 && (line[0] == '+' || line[0] == '\\') }

  /** The body of the hunk at K is the lines between K and E. */
  ghost predicate BodyIs(lines: seq<string>, k: nat, e: nat)
  {
    && k < e <= |lines| && (forall m :: k < m < e ==> InBody(lines[m]))
    && (e < |lines| ==> !InBody(lines[e]))
  }

  lemma {:induction false} BodyOf(lines: seq<string>, k: nat, e: nat)
    requires k < |lines|
    ensures BodyIs(lines, k, e) <==> e == BodyEnd(lines, k + 1)
  {
    var end := BodyEnd(lines, k + 1);
    EndsBody(lines, k + 1);
    if BodyIs(lines, k, e) { OneBody(lines, k, e, end); }
  }

  lemma OneBody(lines: seq<string>, k: nat, e: nat, f: nat)
    requires BodyIs(lines, k, e) && BodyIs(lines, k, f)
    ensures e == f
  {
  }

  lemma {:induction false} EndsBody(lines: seq<string>, j: nat)
    requires j <= |lines|
    ensures var e := BodyEnd(lines, j);
            (forall m :: j <= m < e ==> InBody(lines[m])) && (e < |lines| ==> !InBody(lines[e]))
    decreases |lines| - j
  {
    if j < |lines| && IsBody(lines[j]) { EndsBody(lines, j + 1); }
  }

  // --------------------------------------------------------- the file it builds

  /** The positions of the added lines between K and E. */
  function PlusLines(lines: seq<string>, k: nat, e: nat): set<nat>
    requires e <= |lines|
  {
    set m | k < m < e && Plus(lines[m])
  }

  /** FILE is the added lines between K and E in their order: as many, and each
      at the place that the added lines before it leave, without its sign. */
  ghost predicate Builds(lines: seq<string>, k: nat, e: nat, file: seq<string>)
    requires e <= |lines|
  {
    && |file| == |PlusLines(lines, k, e)|
    && forall m :: k < m < e && Plus(lines[m]) ==> IsAt(file, |PlusLines(lines, k, m)|, lines[m][1..])
  }

  predicate IsAt(file: seq<string>, n: nat, text: string) { n < |file| && file[n] == text }

  /** FILE is what the hunk at K builds. */
  ghost predicate IsFile(lines: seq<string>, k: nat, file: seq<string>)
  {
    exists e :: BodyIs(lines, k, e) && Builds(lines, k, e, file)
  }

  lemma LastPlus(lines: seq<string>, k: nat, e: nat)
    requires k < e < |lines|
    ensures PlusLines(lines, k, e + 1) == PlusLines(lines, k, e) + if Plus(lines[e]) then {e} else {}
    ensures |PlusLines(lines, k, e + 1)| == |PlusLines(lines, k, e)| + if Plus(lines[e]) then 1 else 0
  {
    assert e !in PlusLines(lines, k, e);
    assert PlusLines(lines, k, e + 1) == PlusLines(lines, k, e) + if Plus(lines[e]) then {e} else {};
  }

  lemma {:induction false} AddedLast(lines: seq<string>, i: nat, e: nat)
    requires i <= e < |lines|
    ensures Added(lines, i, e + 1) == Added(lines, i, e) + if Plus(lines[e]) then [lines[e][1..]] else []
    decreases e - i
  {
    if i < e {
      AddedLast(lines, i + 1, e);
    } else {
      assert Added(lines, e + 1, e + 1) == [];
    }
    if |lines[i]| >= 1 { assert lines[i][..1] == [lines[i][0]]; }
    assert StartsWith(lines[i], "+") <==> Plus(lines[i]);
  }

  lemma {:induction false} AddedBuilds(lines: seq<string>, k: nat, e: nat)
    requires k < e <= |lines|
    ensures Builds(lines, k, e, Added(lines, k + 1, e))
  {
    hide *;
    if e == k + 1 {
      NothingBuilt(lines, k);
    } else {
      AddedBuilds(lines, k, e - 1);
      var file := Added(lines, k + 1, e - 1);
      OneMoreBuilt(lines, k, e - 1, file);
      AddedLast(lines, k + 1, e - 1);
      if !Plus(lines[e - 1]) { assert Added(lines, k + 1, e) == file + [] == file; }
    }
  }

  lemma NothingBuilt(lines: seq<string>, k: nat)
    requires k < |lines|
    ensures Builds(lines, k, k + 1, Added(lines, k + 1, k + 1))
  {
    assert PlusLines(lines, k, k + 1) == {};
  }

  lemma OneMoreBuilt(lines: seq<string>, k: nat, e: nat, file: seq<string>)
    requires k < e < |lines| && Builds(lines, k, e, file)
    ensures Plus(lines[e]) ==> |lines[e]| >= 1 && Builds(lines, k, e + 1, file + [lines[e][1..]])
    ensures !Plus(lines[e]) ==> Builds(lines, k, e + 1, file)
  {
    LastPlus(lines, k, e);
    hide PlusLines;
    var longer := file + if Plus(lines[e]) then [lines[e][1..]] else [];
    forall m | k < m < e + 1 && Plus(lines[m])
      ensures IsAt(longer, |PlusLines(lines, k, m)|, lines[m][1..])
    {
      if m < e { assert IsAt(file, |PlusLines(lines, k, m)|, lines[m][1..]); }
    }
  }

  /** Only one file is built so. */
  lemma {:induction false} OneFile(lines: seq<string>, k: nat, e: nat, a: seq<string>, b: seq<string>)
    requires k < e <= |lines| && Builds(lines, k, e, a) && Builds(lines, k, e, b)
    ensures a == b
  {
    forall n | 0 <= n < |a|
      ensures a[n] == b[n]
    {
      var m := NthPlus(lines, k, e, n);
    }
  }

  lemma NoPlusYet(lines: seq<string>, k: nat)
    requires k < |lines|
    ensures PlusLines(lines, k, k + 1) == {} && |PlusLines(lines, k, k + 1)| == 0
  {
  }

  /** The line the N-th added line is. */
  lemma {:induction false} NthPlus(lines: seq<string>, k: nat, e: nat, n: nat) returns (m: nat)
    requires k < e <= |lines| && n < |PlusLines(lines, k, e)|
    ensures k < m < e && Plus(lines[m]) && |PlusLines(lines, k, m)| == n
    decreases e
  {
    NoPlusYet(lines, k);
    LastPlus(lines, k, e - 1);
    if n < |PlusLines(lines, k, e - 1)| { m := NthPlus(lines, k, e - 1, n); } else { m := e - 1; }
  }

  /** The file of the hunk at K: its added lines, to the end of its body. */
  lemma FileIsBuilt(lines: seq<string>, k: nat, file: seq<string>)
    requires k < |lines|
    ensures IsFile(lines, k, file) <==> file == FileOf(lines, k)
  {
    hide Builds;
    var end := BodyEnd(lines, k + 1);
    BodyOf(lines, k, end);
    AddedBuilds(lines, k, end);
    if IsFile(lines, k, file) {
      var e :| BodyIs(lines, k, e) && Builds(lines, k, e, file);
      BodyOf(lines, k, e);
      OneFile(lines, k, e, file, FileOf(lines, k));
    }
  }

  // ---------------------------------------------------------- what a line says

  predicate AllDigits(s: string) { forall k :: 0 <= k < |s| ==> IsDigit(s[k]) }

  /** A number as printf writes it: digits, the first of several not a zero. */
  predicate Canonical(s: string)
  {
    s != "" && AllDigits(s) && (|s| > 1 ==> s[0] != '0')
  }

  lemma {:induction false} DecimalIsCanonical(n: nat)
    ensures Canonical(Decimal(n)) && (n > 0 ==> Decimal(n)[0] != '0')
  {
    if n >= 10 { DecimalIsCanonical(n / 10); }
  }

  lemma {:induction false} ValueIsNat(s: string)
    requires AllDigits(s)
    ensures Value(s) >= 0 && (s != "" && s[0] != '0' ==> Value(s) > 0)
  {
    if s != "" {
      ValueIsNat(s[..|s| - 1]);
      assert IsDigit(s[|s| - 1]);
      assert |s| > 1 ==> s[..|s| - 1][0] == s[0];
    }
  }

  lemma {:induction false} DecimalOfValue(s: string)
    requires Canonical(s)
    ensures Value(s) >= 0 && Decimal(Value(s)) == s
  {
    var front, last := s[..|s| - 1], s[|s| - 1];
    assert IsDigit(last);
    assert s == front + [last];
    if |s| == 1 {
      assert front == "" && Value(front) == 0;
    } else {
      assert front[0] == s[0];
      DecimalOfValue(front);
      ValueIsNat(front);
      LastDigit(Value(front), last);
    }
  }

  lemma LastDigit(n: nat, c: char)
    requires n > 0 && IsDigit(c)
    ensures Decimal(n * 10 + (c as int - '0' as int)) == Decimal(n) + [c]
  {
    var v := n * 10 + (c as int - '0' as int);
    assert v / 10 == n && v % 10 == c as int - '0' as int;
  }

  const START: string := "@@ -0,0 +1,"
  const TAIL: string := " @@"

  /** Which lines start a hunk, and which of those one that adds a whole file. */
  lemma HunkLines(line: string)
    ensures IsHunk(line) <==> |line| >= 3 && line[0] == '@' && line[1] == '@' && line[2] == ' '
    ensures StartsWith(line, HUNK) <==> |line| >= 11 && line[..11] == START
  {
    if |line| >= 3 { assert line[..3] == [line[0], line[1], line[2]]; }
  }

  /** The hunk line says N lines are added: the number between its fixed parts. */
  predicate SaysCount(line: string, n: int)
  {
    && |line| >= |START| + |TAIL| && line[..|START|] == START && line[|line| - |TAIL|..] == TAIL
    && var number := line[|START|..|line| - |TAIL|];
       Canonical(number) && Value(number) == n
  }

  lemma HeaderSays(line: string, n: nat)
    ensures SaysCount(line, n) <==> line == Header(n)
  {
    hide Decimal, Value;
    DecimalIsCanonical(n);
    ValueOfDecimal(n);
    var h := Header(n);
    assert START == HUNK && h[|START|..|h| - |TAIL|] == Decimal(n);
    if SaysCount(line, n) {
      DecimalOfValue(line[|START|..|line| - |TAIL|]);
      assert line == line[..|START|] + line[|START|..|line| - |TAIL|] + line[|line| - |TAIL|..];
    }
  }

  /** An index line with X's zeros in front of the dots and its hash behind. */
  predicate IsIndex(line: string, x: Index)
  {
    && line == "index " + x.zeros + ".." + x.hash
    && 7 <= |x.zeros| <= 40 && (forall k :: 0 <= k < |x.zeros| ==> x.zeros[k] == '0')
    && 7 <= |x.hash| <= 40
    && (forall k :: 0 <= k < |x.hash| ==> '0' <= x.hash[k] <= '9' || 'a' <= x.hash[k] <= 'f')
  }

  lemma IndexParts(line: string, x: Index)
    ensures IsIndex(line, x) <==> ParseIndex(line) == Some(x)
  {
    hide ParseIndex;
    if ParseIndex(line) == Some(x) { ParsedIndex(line); }
    if IsIndex(line, x) { IndexParsed(x); }
  }

  // ------------------------------------------------------------- the whole patch

  /** The line K of NOW says what the hunk at K of LINES adds. */
  ghost predicate CountIsTrue(lines: seq<string>, now: seq<string>, k: nat)
    requires k < |lines| == |now|
  {
    forall e :: BodyIs(lines, k, e) ==> SaysCount(now[k], |PlusLines(lines, k, e)|)
  }

  /** The line K of NOW keeps the zeros of an index line of LINES, and as much of
      the hash of what the hunk at H builds as stood there. */
  ghost predicate HashIsTrue(lines: seq<string>, now: seq<string>, k: nat, h: nat, blob: Blob)
    requires k < |lines| == |now|
  {
    forall x, file :: IsIndex(lines[k], x) && IsFile(lines, h, file) ==>
      |x.hash| <= |blob(file)| && IsIndex(now[k], x.(hash := blob(file)[..|x.hash|]))
  }

  lemma CountOf(lines: seq<string>, now: seq<string>, k: nat)
    requires k < |lines| == |now|
    ensures CountIsTrue(lines, now, k) <==> now[k] == Header(|FileOf(lines, k)|)
  {
    hide SaysCount, Header;
    var e := BodyEnd(lines, k + 1);
    BodyOf(lines, k, e);
    AddedBuilds(lines, k, e);
    HeaderSays(now[k], |FileOf(lines, k)|);
    forall f | BodyIs(lines, k, f)
      ensures f == e
    {
      BodyOf(lines, k, f);
    }
  }

  lemma HashOf(lines: seq<string>, now: seq<string>, k: nat, blob: Blob)
    requires k + 3 < |lines| == |now| && IsHunk(lines[k + 3]) && IsHash(blob)
    ensures HashIsTrue(lines, now, k, k + 3, blob) <==> (Claimed(lines, k) ==> now[k] == IndexOf(lines, k, blob))
  {
    hide HashIsTrue, IsIndex, IsFile, IsHunk, IsHash, IndexOf, FileOf, ParseIndex;
    var file := FileOf(lines, k + 3);
    FileIsBuilt(lines, k + 3, file);
    if Claimed(lines, k) {
      var x := ParseIndex(lines[k]).value;
      IndexParts(lines[k], x);
      WantedIndex(lines, now[k], k, blob);
      if HashIsTrue(lines, now, k, k + 3, blob) { TrueHash(lines, now, k, k + 3, blob, x, file); }
    }
    if Claimed(lines, k) ==> now[k] == IndexOf(lines, k, blob) { WantedIsTrue(lines, now, k, blob); }
  }

  lemma TrueHash(lines: seq<string>, now: seq<string>, k: nat, h: nat, blob: Blob, x: Index, file: seq<string>)
    requires k < |lines| == |now| && HashIsTrue(lines, now, k, h, blob)
    requires IsIndex(lines[k], x) && IsFile(lines, h, file)
    ensures |x.hash| <= |blob(file)| && IsIndex(now[k], x.(hash := blob(file)[..|x.hash|]))
  {
    hide IsIndex, IsFile;
  }

  lemma WantedIsTrue(lines: seq<string>, now: seq<string>, k: nat, blob: Blob)
    requires k + 3 < |lines| == |now| && IsHunk(lines[k + 3]) && IsHash(blob)
    requires Claimed(lines, k) ==> now[k] == IndexOf(lines, k, blob)
    ensures HashIsTrue(lines, now, k, k + 3, blob)
  {
    hide ParseIndex, FileOf, IsHunk, IsIndex, IsFile, IndexOf, IsHash;
    forall x, file | IsIndex(lines[k], x) && IsFile(lines, k + 3, file)
      ensures |x.hash| <= |blob(file)| && IsIndex(now[k], x.(hash := blob(file)[..|x.hash|]))
    {
      IndexParts(lines[k], x);
      FileIsBuilt(lines, k + 3, file);
      WantedIndex(lines, now[k], k, blob);
    }
  }

  lemma HashDigits(blob: Blob, file: seq<string>)
    requires IsHash(blob)
    ensures |blob(file)| == 40 && AllHex(blob(file))
  {
    assert |blob(file)| == 40;
  }

  lemma WantedIndex(lines: seq<string>, line: string, k: nat, blob: Blob)
    requires k < |lines| && Claimed(lines, k) && IsHash(blob)
    ensures var x := ParseIndex(lines[k]).value;
            var hash := blob(FileOf(lines, k + 3));
            |x.hash| <= |hash| && (line == IndexOf(lines, k, blob) <==> IsIndex(line, x.(hash := hash[..|x.hash|])))
  {
    hide ParseIndex, FileOf, IsHunk, IsIndex, IndexLine, IsHash;
    ParsedIndex(lines[k]);
    IndexKept(lines, k, blob);
    var x := ParseIndex(lines[k]).value;
    var hash := blob(FileOf(lines, k + 3));
    HashDigits(blob, FileOf(lines, k + 3));
    var want := IndexOf(lines, k, blob);
    var y := x.(hash := hash[..|x.hash|]);
    IndexParts(want, y);
    IndexParts(line, y);
    if IsIndex(line, y) { ParsedIndex(line); ParsedIndex(want); }
  }

  /** After the repair every hunk says how many lines it adds and every index line
      three above a hunk gives the hash of the file the hunk builds; every other
      line is as it was. */
  lemma RepairedSaysTruth(lines: seq<string>, k: nat, blob: Blob)
    requires k < |lines| && IsHash(blob)
    ensures var now := Repaired(lines, |lines|, blob);
            && (IsHunk(lines[k]) ==> CountIsTrue(lines, now, k))
            && (!IsHunk(lines[k]) && k + 3 < |lines| && IsHunk(lines[k + 3]) ==>
                  HashIsTrue(lines, now, k, k + 3, blob))
            && (!IsHunk(lines[k]) && !(k + 3 < |lines| && IsHunk(lines[k + 3])) ==> now[k] == lines[k])
            && (!IsHunk(lines[k]) && (forall x :: !IsIndex(lines[k], x)) ==> now[k] == lines[k])
  {
    hide IsHunk, IsIndex, ParseIndex, CountIsTrue, HashIsTrue, Header, FileOf, IndexOf;
    var now := Repaired(lines, |lines|, blob);
    CountOf(lines, now, k);
    if k + 3 < |lines| && IsHunk(lines[k + 3]) { HashOf(lines, now, k, blob); }
    if ParseIndex(lines[k]).Some? { IndexParts(lines[k], ParseIndex(lines[k]).value); }
  }

  /** A patch that already says the truth. */
  ghost predicate SaysTruth(lines: seq<string>, blob: Blob)
  {
    forall k :: 0 <= k < |lines| && IsHunk(lines[k]) ==>
      CountIsTrue(lines, lines, k) && (k >= 3 ==> HashIsTrue(lines, lines, k - 3, k, blob))
  }

  /** Nothing is stale exactly when the patch says the truth, and then no line
      changes. */
  lemma NothingStaleIsTruth(lines: seq<string>, blob: Blob)
    requires IsHash(blob)
    ensures StaleBefore(lines, |lines|, blob) == [] <==> SaysTruth(lines, blob)
    ensures SaysTruth(lines, blob) <==> Repaired(lines, |lines|, blob) == lines
  {
    hide *;
    StaleMeansChanged(lines, |lines|, blob);
    TruthIsUnchanged(lines, blob);
  }

  lemma TruthIsUnchanged(lines: seq<string>, blob: Blob)
    requires IsHash(blob)
    ensures SaysTruth(lines, blob) <==> Repaired(lines, |lines|, blob) == lines
  {
    hide IsHunk, ParseIndex, CountIsTrue, HashIsTrue, Header, FileOf, IndexOf, IsHash;
    var now := Repaired(lines, |lines|, blob);
    forall k | 0 <= k < |lines| && IsHunk(lines[k])
      ensures CountIsTrue(lines, lines, k) <==> now[k] == lines[k]
      ensures k >= 3 ==>
                (HashIsTrue(lines, lines, k - 3, k, blob)
                 <==> (Claimed(lines, k - 3) ==> now[k - 3] == lines[k - 3]))
    {
      CountOf(lines, lines, k);
      if k >= 3 {
        HashOf(lines, lines, k - 3, blob);
        if Claimed(lines, k - 3) { ParsedIndex(lines[k - 3]); }
      }
    }
    assert forall k :: 0 <= k < |lines| && !IsHunk(lines[k]) && !Claimed(lines, k) ==> now[k] == lines[k];
    if SaysTruth(lines, blob) {
      forall k | 0 <= k < |lines|
        ensures now[k] == lines[k]
      {
        if !IsHunk(lines[k]) && Claimed(lines, k) { assert IsHunk(lines[k + 3]); }
      }
    }
  }

  // -------------------------------------------------------- what is reported

  /** S reports that line K + 1 of LINES should read as it does in NOW. */
  predicate Reports(s: Stale, lines: seq<string>, now: seq<string>)
    requires |lines| == |now|
  {
    && 1 <= s.lineno <= |lines| && s.was == lines[s.lineno - 1] && s.want == now[s.lineno - 1] && s.was != s.want
  }

  /** What is reported is every line that changes, what it was and what it should
      be, and nothing else. */
  lemma {:induction false} ReportsAreChanges(lines: seq<string>, i: nat, blob: Blob, s: Stale)
    requires i <= |lines|
    ensures s in StaleBefore(lines, i, blob) <==> Reports(s, lines, Repaired(lines, i, blob))
  {
    hide StaleAt, Reports, Repaired;
    if i == 0 {
      NothingYet(lines, blob);
      assert !Reports(s, lines, lines) by { NoChangeNoReport(s, lines); }
    } else {
      ReportsAreChanges(lines, i - 1, blob, s);
      ReportStep(lines, i - 1, blob, s);
    }
  }

  lemma NoChangeNoReport(s: Stale, lines: seq<string>)
    ensures !Reports(s, lines, lines)
  {
  }

  lemma ReportStep(lines: seq<string>, k: nat, blob: Blob, s: Stale)
    requires k < |lines|
    ensures Reports(s, lines, Repaired(lines, k + 1, blob))
       <==> Reports(s, lines, Repaired(lines, k, blob)) || (IsHunk(lines[k]) && s in StaleAt(lines, k, blob))
  {
    hide IsHunk, ParseIndex, Header, FileOf, IndexOf;
    if k >= 3 && IsHunk(lines[k - 3]) { HunkIsNoOther(lines[k - 3]); }
  }

  /** The first hunk that is not an addition of a whole file, if there is one. */
  predicate FirstBad(lines: seq<string>, i: nat, bad: nat)
  {
    && i <= bad < |lines| && IsHunk(lines[bad]) && !StartsWith(lines[bad], HUNK)
    && forall k :: i <= k < bad && IsHunk(lines[k]) ==> StartsWith(lines[k], HUNK)
  }

  /** The walk visits every hunk line in order, with its body and the path above
      it, unless one is not an addition: it stops at the first of those. */
  lemma {:induction false} WalkVisits(lines: seq<string>, i: nat)
    requires i <= |lines|
    ensures match Walk(lines, i)
            case NotAllAdditions(bad) => FirstBad(lines, i, bad)
            case Hunks(hs) => VisitsAll(lines, i, hs)
    decreases |lines| - i
  {
    hide StartsWith, IsHunk, PathOf, BodyEnd;
    if i < |lines| {
      if !IsHunk(lines[i]) {
        WalkVisits(lines, i + 1);
      } else if StartsWith(lines[i], HUNK) {
        BodyHasNoHunk(lines, i + 1);
        var j := BodyEnd(lines, i + 1);
        WalkVisits(lines, j);
        if Walk(lines, j).Hunks? { VisitsOneMore(lines, i, j, Walk(lines, j).hunks); }
      }
    }
  }

  ghost predicate VisitsAll(lines: seq<string>, i: nat, hs: seq<Hunk>)
  {
    && (forall n :: 0 <= n < |hs| ==> i <= hs[n].i < |lines| && hs[n] == HunkAt(lines, hs[n].i))
    && (forall n, m :: 0 <= n < m < |hs| ==> hs[n].i < hs[m].i)
    && (forall k :: i <= k < |lines| && IsHunk(lines[k]) ==> HunkAt(lines, k) in hs && StartsWith(lines[k], HUNK))
    && (forall n :: 0 <= n < |hs| ==> IsHunk(lines[hs[n].i]))
  }

  lemma VisitsOneMore(lines: seq<string>, i: nat, j: nat, rest: seq<Hunk>)
    requires i < j <= |lines| && VisitsAll(lines, j, rest) && IsHunk(lines[i]) && StartsWith(lines[i], HUNK)
    requires forall k :: i < k < j ==> !IsHunk(lines[k])
    ensures VisitsAll(lines, i, [HunkAt(lines, i)] + rest)
  {
    hide IsHunk, StartsWith, PathOf, BodyEnd;
    var hs := [HunkAt(lines, i)] + rest;
    assert hs[0] == HunkAt(lines, i) && forall n :: 0 < n < |hs| ==> hs[n] == rest[n - 1];
  }

  /** The path is what stands behind +++ and, if something is left, behind b/. */
  lemma PathIs(line: string, path: string)
    ensures PathOf(line) == Some(path)
       <==> path != "" && (line == "+++ b/" + path
                           || (line == "+++ " + path && !(|path| > 2 && path[0] == 'b' && path[1] == '/')))
  {
    if StartsWith(line, "+++ ") {
      assert line == "+++ " + line[4..];
      if StartsWith(line[4..], "b/") { assert line[4..] == "b/" + line[6..]; }
      assert |line| >= 6 ==> line[4..][..2] == [line[4], line[5]];
    }
    var a, b := "+++ b/" + path, "+++ " + path;
    assert a[..4] == "+++ " && a[4..] == "b/" + path && a[4..][..2] == "b/" && a[6..] == path;
    assert b[..4] == "+++ " && b[4..] == path;
  }
}
