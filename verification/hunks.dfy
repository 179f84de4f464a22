/** Repairing the hunk headers and blob hashes of an all-additions patch. */
module Hunks {
  import opened Decimals
  import opened Splitting
  import opened Wrappers

  // -------------------------------------------------------- lines of a patch

  predicate OneLine(s: string) { '\n' !in s }

  predicate AllOneLine(lines: seq<string>) { forall k :: 0 <= k < |lines| ==> OneLine(lines[k]) }

  function SplitLines(raw: string): (lines: seq<string>)
    ensures lines != []
  {
    Split(raw, '\n')
  }

  function JoinLines(lines: seq<string>): string { Join(lines, '\n') }

  datatype Patch = Patch(lines: seq<string>, newline: bool)

  function SplitPatch(raw: string): Patch
  {
    var lines := SplitLines(raw);
    var last := |lines| - 1;
    if lines[last] == "" then Patch(lines[..last], true) else Patch(lines, false)
  }

  function Render(p: Patch): string { JoinLines(p.lines) + if p.newline then "\n" else "" }

  lemma NewlineBack(lines: seq<string>)
    requires |lines| > 1 && lines[|lines| - 1] == ""
    ensures JoinLines(lines[..|lines| - 1]) + "\n" == JoinLines(lines)
  {
    var front := lines[..|lines| - 1];
    JoinSnoc(front, "", '\n');
    hide Join;
    assert front + [""] == lines;
    assert JoinLines(front) + "\n" + "" == JoinLines(front) + "\n";
  }

  /** Writing back what was read gives the same patch, unless it is empty: then
      a newline would be written. */
  lemma RenderAfterSplit(raw: string)
    ensures Render(SplitPatch(raw)) == raw <==> raw != ""
    ensures AllOneLine(SplitPatch(raw).lines)
  {
    hide Split;
    PiecesLack(raw, '\n');
    JoinAfterSplit(raw, '\n');
    var lines := SplitLines(raw);
    if |lines| == 1 {
      assert JoinLines(lines) == lines[0] && JoinLines([]) == "";
    } else {
      assert raw != "" by { EmptyIsOneLine(); }
      if lines[|lines| - 1] == "" { NewlineBack(lines); }
    }
  }

  lemma EmptyIsOneLine()
    ensures SplitLines("") == [""]
  {
  }

  /** A patch that can be read: it does not end in an empty line without a
      newline. */
  predicate Readable(p: Patch) { p.lines != [] && AllOneLine(p.lines) && (p.newline || p.lines[|p.lines| - 1] != "") }

  lemma SplitAfterRender(p: Patch)
    requires Readable(p)
    ensures SplitPatch(Render(p)) == p
  {
    if p.newline {
      JoinSnoc(p.lines, "", '\n');
      assert JoinLines(p.lines) + "\n" + "" == Render(p);
      SplitAfterJoin(p.lines + [""], '\n');
      assert (p.lines + [""])[..|p.lines|] == p.lines;
    } else {
      assert Render(p) == JoinLines(p.lines);
      SplitAfterJoin(p.lines, '\n');
    }
  }

  // ------------------------------------------------------------------- hunks

  const HUNK: string := "@@ -0,0 +1,"

  predicate StartsWith(s: string, prefix: string) { |prefix| <= |s| && s[..|prefix|] == prefix }

  predicate IsHunk(line: string) { StartsWith(line, "@@ ") }

  /** A line of a hunk's body: added text or the note on a missing newline. */
  predicate IsBody(line: string) { line != "" && line[0] in {'+', '\\'} }

  /** One past the last body line from J on. */
  function BodyEnd(lines: seq<string>, j: nat): (e: nat)
    requires j <= |lines|
    ensures j <= e <= |lines|
    decreases |lines| - j
  {
    if j < |lines| && IsBody(lines[j]) then BodyEnd(lines, j + 1) else j
  }

  /** The added lines of [I, J) without their plus signs. */
  function Added(lines: seq<string>, i: nat, j: nat): seq<string>
    requires i <= j <= |lines|
    decreases j - i
  {
    if i == j then []
    else (if StartsWith(lines[i], "+") then [lines[i][1..]] else []) + Added(lines, i + 1, j)
  }

  /** The file the hunk at K builds. */
  function FileOf(lines: seq<string>, k: nat): seq<string>
    requires k < |lines|
  {
    Added(lines, k + 1, BodyEnd(lines, k + 1))
  }

  /** The file a +++ line names. */
  function PathOf(line: string): Option<string>
  {
    if !StartsWith(line, "+++ ") || |line| == 4 then None
    else if StartsWith(line[4..], "b/") && |line| > 6 then Some(line[6..])
    else Some(line[4..])
  }

  datatype Hunk = Hunk(i: nat, j: nat, path: Option<string>)

  function HunkAt(lines: seq<string>, k: nat): Hunk
    requires k < |lines|
  {
    Hunk(k, BodyEnd(lines, k + 1), if k >= 1 then PathOf(lines[k - 1]) else None)
  }

  /** What the reader yields from line I on, or the line it stops at. */
  datatype Walked = Hunks(hunks: seq<Hunk>) | NotAllAdditions(line: nat)

  function Walk(lines: seq<string>, i: nat): Walked
    requires i <= |lines|
    decreases |lines| - i
  {
    if i == |lines| then Hunks([])
    else if !IsHunk(lines[i]) then Walk(lines, i + 1)
    else if !StartsWith(lines[i], HUNK) then NotAllAdditions(i)
    else
      var h := HunkAt(lines, i);
      match Walk(lines, h.j)
      case Hunks(rest) => Hunks([h] + rest)
      case bad => bad
  }

  // ---------------------------------------------------------- what is written

  /** The line of a hunk that adds N lines. */
  function Header(n: nat): string { HUNK + Decimal(n) + " @@" }

  datatype Index = Index(zeros: string, hash: string)

  function Zeros(s: string): (n: nat)
    ensures n <= |s|
  {
    if s != "" && s[0] == '0' then 1 + Zeros(s[1..]) else 0
  }

  predicate IsHex(c: char) { '0' <= c <= '9' || 'a' <= c <= 'f' }

  predicate AllHex(s: string) { forall k :: 0 <= k < |s| ==> IsHex(s[k]) }

  /** An index line: index, seven to forty zeros, two dots and as many digits of
      a hash. */
  function ParseIndex(line: string): Option<Index>
  {
    if !StartsWith(line, "index ") then None
    else
      var rest := line[6..];
      var z := Zeros(rest);
      var hash := if z + 2 <= |rest| then rest[z + 2..] else "";
      if 7 <= z <= 40 && StartsWith(rest[z..], "..") && 7 <= |hash| <= 40 && AllHex(hash)
      then Some(Index(rest[..z], hash)) else None
  }

  function IndexLine(x: Index): string { "index " + x.zeros + ".." + x.hash }

  /** A blob hash is forty hexadecimal digits; nothing else about it matters. */
  ghost predicate IsHash(blob: seq<string> -> string)
  {
    forall body :: |blob(body)| == 40 && AllHex(blob(body))
  }

  type Blob = seq<string> -> string

  /** Line K is the index line of the hunk three lines below. */
  predicate Claimed(lines: seq<string>, k: nat)
    requires k < |lines|
  {
    k + 3 < |lines| && IsHunk(lines[k + 3]) && ParseIndex(lines[k]).Some?
  }

  /** The index line K should be. */
  function IndexOf(lines: seq<string>, k: nat, blob: Blob): string
    requires k < |lines| && Claimed(lines, k)
  {
    var x := ParseIndex(lines[k]).value;
    var hash := blob(FileOf(lines, k + 3));
    IndexLine(x.(hash := if |x.hash| <= |hash| then hash[..|x.hash|] else hash))
  }

  /** Line K when the hunks before line I have been repaired. */
  function LineAt(lines: seq<string>, k: nat, i: nat, blob: Blob): string
    requires k < |lines|
  {
    if IsHunk(lines[k]) then if k < i then Header(|FileOf(lines, k)|) else lines[k]
    else if Claimed(lines, k) && k + 3 < i then IndexOf(lines, k, blob)
    else lines[k]
  }

  function Repaired(lines: seq<string>, i: nat, blob: Blob): (r: seq<string>)
    ensures |r| == |lines|
    ensures forall k :: 0 <= k < |lines| ==> r[k] == LineAt(lines, k, i, blob)
  {
    seq(|lines|, k requires 0 <= k < |lines| => LineAt(lines, k, i, blob))
  }

  datatype Stale = Stale(lineno: nat, was: string, want: string)

  function Differs(lineno: nat, was: string, want: string): seq<Stale>
  {
    if was == want then [] else [Stale(lineno, was, want)]
  }

  /** The stale lines of the hunk at I, its header first. */
  function StaleAt(lines: seq<string>, i: nat, blob: Blob): seq<Stale>
    requires i < |lines| && IsHunk(lines[i])
  {
    Differs(i + 1, lines[i], Header(|FileOf(lines, i)|))
    + if i >= 3 && Claimed(lines, i - 3) then Differs(i - 2, lines[i - 3], IndexOf(lines, i - 3, blob)) else []
  }

  /** The stale lines of the hunks before line I. */
  function StaleBefore(lines: seq<string>, i: nat, blob: Blob): seq<Stale>
    requires i <= |lines|
  {
    if i == 0 then []
    else StaleBefore(lines, i - 1, blob) + if IsHunk(lines[i - 1]) then StaleAt(lines, i - 1, blob) else []
  }

  /** The lines with the hunk at I repaired. */
  function FixAt(lines: seq<string>, i: nat, blob: Blob): seq<string>
    requires i < |lines| && IsHunk(lines[i])
  {
    var r := lines[i := Header(|FileOf(lines, i)|)];
    if i >= 3 && Claimed(lines, i - 3) then r[i - 3 := IndexOf(lines, i - 3, blob)] else r
  }

  // ------------------------------------------------------ facts about one line

  lemma HeaderIsHunk(n: nat)
    ensures var h := Header(n);
            IsHunk(h) && StartsWith(h, HUNK) && !IsBody(h) && ParseIndex(h).None? && PathOf(h).None? && OneLine(h)
  {
    var h := Header(n);
    DecimalIsDigits(n);
    hide Decimal, Zeros;
    assert h[..11] == HUNK && HUNK[..3] == "@@ ";
    assert h[..3] == h[..11][..3];
    assert h[0] == '@';
    assert |"index "| == 6 && (|h| >= 6 ==> h[..6][0] == '@');
    assert |h| >= 4 ==> h[..4][0] == '@';
    assert forall c :: c in h ==> c in HUNK || c in Decimal(n) || c in " @@";
  }

  lemma {:induction false} ZerosOf(s: string)
    ensures var z := Zeros(s);
            (forall k :: 0 <= k < z ==> s[k] == '0') && (z < |s| ==> s[z] != '0')
  {
    if s != "" && s[0] == '0' { ZerosOf(s[1..]); }
  }

  lemma {:induction false} ZerosThen(z: string, rest: string)
    requires (forall k :: 0 <= k < |z| ==> z[k] == '0') && (rest != "" ==> rest[0] != '0')
    ensures Zeros(z + rest) == |z|
  {
    if z == "" {
      assert z + rest == rest;
    } else {
      ZerosThen(z[1..], rest);
      assert (z + rest)[1..] == z[1..] + rest;
    }
  }

  predicate WellFormed(x: Index)
  {
    && 7 <= |x.zeros| <= 40 && (forall k :: 0 <= k < |x.zeros| ==> x.zeros[k] == '0')
    && 7 <= |x.hash| <= 40 && AllHex(x.hash)
  }

  lemma Head(s: string, prefix: string)
    requires StartsWith(s, prefix) && prefix != ""
    ensures s != "" && s[0] == prefix[0]
  {
    assert s[0] == s[..|prefix|][0];
  }

  lemma IndexIsNoOther(line: string)
    requires StartsWith(line, "index ")
    ensures |line| >= 6 && !IsHunk(line) && !IsBody(line) && PathOf(line).None?
  {
    assert |line| >= 6;
    hide StartsWith;
    Head(line, "index ");
    if StartsWith(line, "@@ ") { Head(line, "@@ "); }
    if StartsWith(line, "+++ ") { Head(line, "+++ "); }
  }

  lemma Reassemble(line: string, z: nat)
    requires StartsWith(line, "index ") && 6 + z <= |line| && StartsWith(line[6..][z..], "..")
    ensures z + 2 <= |line[6..]|
    ensures line == "index " + line[6..][..z] + ".." + line[6..][z + 2..]
  {
    var rest := line[6..];
    assert line == line[..6] + rest;
    assert rest == rest[..z] + rest[z..];
    assert rest[z..] == rest[z..][..2] + rest[z + 2..];
  }

  /** An index line is what its parts write. */
  lemma ParsedIndex(line: string)
    requires ParseIndex(line).Some?
    ensures IndexLine(ParseIndex(line).value) == line && WellFormed(ParseIndex(line).value)
    ensures !IsHunk(line) && !IsBody(line) && PathOf(line).None?
  {
    hide Zeros, IsHunk, IsBody, PathOf, StartsWith;
    IndexIsNoOther(line);
    var rest := line[6..];
    ZerosOf(rest);
    Reassemble(line, Zeros(rest));
  }

  /** And its parts are read back from it. */
  lemma IndexParsed(x: Index)
    requires WellFormed(x)
    ensures ParseIndex(IndexLine(x)) == Some(x) && OneLine(IndexLine(x))
  {
    hide Zeros;
    var line := IndexLine(x);
    var rest := x.zeros + (".." + x.hash);
    assert line[..6] == "index " && line[6..] == rest;
    ZerosThen(x.zeros, ".." + x.hash);
    var z := |x.zeros|;
    assert rest[..z] == x.zeros && rest[z..] == ".." + x.hash;
    assert rest[z..][..2] == ".." && rest[z + 2..] == x.hash;
    IndexIsOneLine(x);
  }

  lemma IndexIsOneLine(x: Index)
    requires WellFormed(x)
    ensures OneLine(IndexLine(x))
  {
    forall c | c in IndexLine(x)
      ensures c != '\n'
    {
      assert c in "index " || c in x.zeros || c in ".." || c in x.hash;
      if c in x.hash { var k :| 0 <= k < |x.hash| && x.hash[k] == c; assert IsHex(c); }
    }
  }

  // ------------------------------------------------------------- the rewrite

  lemma HunkIsNoOther(line: string)
    requires IsHunk(line)
    ensures !IsBody(line) && ParseIndex(line).None? && PathOf(line).None?
  {
    hide StartsWith;
    Head(line, "@@ ");
    if StartsWith(line, "index ") { Head(line, "index "); }
    if StartsWith(line, "+++ ") { Head(line, "+++ "); }
  }

  /** A line is repaired only with its hunk. */
  lemma {:induction false} NothingBetween(lines: seq<string>, a: nat, b: nat, blob: Blob)
    requires a <= b <= |lines| && forall k :: a <= k < b ==> !IsHunk(lines[k])
    ensures Repaired(lines, a, blob) == Repaired(lines, b, blob)
    ensures StaleBefore(lines, a, blob) == StaleBefore(lines, b, blob)
    decreases b
  {
    hide IsHunk, IndexOf, Header;
    if a < b { NothingBetween(lines, a, b - 1, blob); }
  }

  lemma {:induction false} BodyHasNoHunk(lines: seq<string>, j: nat)
    requires j <= |lines|
    ensures forall k :: j <= k < BodyEnd(lines, j) ==> !IsHunk(lines[k]) && IsBody(lines[k])
    decreases |lines| - j
  {
    hide IsHunk, IsBody;
    if j < |lines| && IsBody(lines[j]) {
      if IsHunk(lines[j]) { HunkIsNoOther(lines[j]); }
      BodyHasNoHunk(lines, j + 1);
    }
  }

  /** Lines that have the same bodies from J on. */
  predicate SameBodies(a: seq<string>, b: seq<string>, j: nat)
  {
    |a| == |b| && forall k :: j <= k < |a| ==> (IsBody(a[k]) <==> IsBody(b[k])) && (IsBody(a[k]) ==> a[k] == b[k])
  }

  lemma {:induction false} SameEnd(a: seq<string>, b: seq<string>, j: nat)
    requires j <= |a| && SameBodies(a, b, j)
    ensures BodyEnd(a, j) == BodyEnd(b, j)
    decreases |a| - j
  {
    hide IsBody;
    if j < |a| && IsBody(a[j]) { SameEnd(a, b, j + 1); }
  }

  lemma {:induction false} SameAdded(a: seq<string>, b: seq<string>, i: nat, j: nat)
    requires i <= j <= |a| == |b| && forall k :: i <= k < j ==> a[k] == b[k]
    ensures Added(a, i, j) == Added(b, i, j)
    decreases j - i
  {
    if i < j { SameAdded(a, b, i + 1, j); }
  }

  lemma SameFile(a: seq<string>, b: seq<string>, k: nat)
    requires k < |a| && SameBodies(a, b, k + 1)
    ensures BodyEnd(a, k + 1) == BodyEnd(b, k + 1) && FileOf(a, k) == FileOf(b, k)
  {
    hide IsBody;
    SameEnd(a, b, k + 1);
    BodyHasNoHunk(a, k + 1);
    SameAdded(a, b, k + 1, BodyEnd(a, k + 1));
  }

  /** What is still to be read of the lines is as it was. */
  lemma StillToRead(lines: seq<string>, i: nat, blob: Blob)
    requires i < |lines|
    ensures var r := Repaired(lines, i, blob);
            && SameBodies(lines, r, i) && r[i] == lines[i]
            && (i >= 3 && IsHunk(lines[i]) ==>
                  ParseIndex(r[i - 3]) == ParseIndex(lines[i - 3])
                  && (ParseIndex(r[i - 3]).Some? ==> r[i - 3] == lines[i - 3]))
  {
    hide IsHunk, IsBody, IndexOf, Header, ParseIndex;
    if i >= 3 && IsHunk(lines[i - 3]) {
      HeaderIsHunk(|FileOf(lines, i - 3)|);
      HunkIsNoOther(lines[i - 3]);
    }
  }

  /** The hunk at I is the same hunk once those before it are repaired. */
  lemma RepairStep(lines: seq<string>, i: nat, blob: Blob)
    requires i < |lines| && IsHunk(lines[i]) && IsHunk(Repaired(lines, i, blob)[i])
    ensures var r := Repaired(lines, i, blob);
            && BodyEnd(r, i + 1) == BodyEnd(lines, i + 1)
            && StaleAt(r, i, blob) == StaleAt(lines, i, blob)
            && FixAt(r, i, blob) == Repaired(lines, i + 1, blob)
  {
    hide IsHunk, IsBody, Header, ParseIndex, FileOf, IndexLine;
    var r := Repaired(lines, i, blob);
    StillToRead(lines, i, blob);
    SameFile(lines, r, i);
    if i >= 3 && IsHunk(lines[i - 3]) { HunkIsNoOther(lines[i - 3]); }
  }

  predicate SameVerdict(a: Walked, b: Walked)
  {
    (a.Hunks? <==> b.Hunks?) && (a.NotAllAdditions? ==> a == b)
  }

  /** One turn of the walk: the hunk whose body is [I + 1, J). */
  method RepairHunk(lines: seq<string>, i: nat, j: nat, check: bool, blob: Blob)
    returns (repaired: seq<string>, found: seq<Stale>)
    requires i < |lines| && IsHunk(lines[i]) && j == BodyEnd(lines, i + 1)
    requires IsHash(blob)
    ensures found == StaleAt(lines, i, blob)
    ensures repaired == if check then lines else FixAt(lines, i, blob)
  {
    hide IsHunk, ParseIndex, Header, Differs;
    var want := Header(|Added(lines, i + 1, j)|);
    found := Differs(i + 1, lines[i], want);
    repaired := lines;
    if !check { repaired := repaired[i := want]; }
    if i >= 3 {
      var index := ParseIndex(lines[i - 3]);
      if index.Some? {
        ParsedIndex(lines[i - 3]);
        var hash := blob(Added(lines, i + 1, j));
        var fixed := IndexLine(index.value.(hash := hash[..|index.value.hash|]));
        found := found + Differs(i - 2, lines[i - 3], fixed);
        if !check { repaired := repaired[i - 3 := fixed]; }
      }
    }
  }

  /** Process the patch RAW; OUT is what the file holds afterwards. */
  method Process(raw: string, check: bool, blob: Blob) returns (rc: int, stale: seq<Stale>, out: string)
    requires IsHash(blob)
    ensures var p := SplitPatch(raw);
            match Walk(p.lines, 0)
            case NotAllAdditions(bad) =>
              rc == 2 && out == raw && bad <= |p.lines| && stale == StaleBefore(p.lines, bad, blob)
            case Hunks(_) =>
              && rc == 0 && stale == StaleBefore(p.lines, |p.lines|, blob)
              && out == if check || stale == [] then raw
                        else Render(Patch(Repaired(p.lines, |p.lines|, blob), p.newline))
  {
    hide IsHunk, IsBody, Repaired, StaleBefore, StaleAt, FixAt, StartsWith, Render, IsHash, SplitPatch, BodyEnd, Walk;
    var p := SplitPatch(raw);
    ghost var was := p.lines;
    var lines := p.lines;
    stale := [];
    var i := 0;
    NothingYet(was, blob);
    while i < |lines|
      invariant i <= |lines| == |was|
      invariant lines == if check then was else Repaired(was, i, blob)
      invariant stale == StaleBefore(was, i, blob)
      invariant SameVerdict(Walk(was, 0), Walk(was, i))
      decreases |lines| - i
    {
      StillToRead(was, i, blob);
      if !IsHunk(lines[i]) {
        NotAHunk(was, i, blob);
        i := i + 1;
        continue;
      }
      if !StartsWith(lines[i], HUNK) {
        assert Walk(was, i) == NotAllAdditions(i) by { BadHunk(was, i); }
        return 2, stale, raw;
      }
      var j := BodyFrom(lines, i + 1);
      RepairStep(was, i, blob);
      var repaired, found := RepairHunk(lines, i, j, check, blob);
      OneMore(was, i, j, blob);
      lines, stale := repaired, stale + found;
      i := j;
    }
    WalkEnds(was);
    out := if check || stale == [] then raw else Render(Patch(lines, p.newline));
    rc := 0;
  }

  method BodyFrom(lines: seq<string>, i: nat) returns (j: nat)
    requires i <= |lines|
    ensures j == BodyEnd(lines, i)
  {
    j := i;
    while j < |lines| && IsBody(lines[j])
      invariant i <= j <= |lines| && BodyEnd(lines, j) == BodyEnd(lines, i)
    {
      j := j + 1;
    }
  }

  lemma NotAHunk(lines: seq<string>, i: nat, blob: Blob)
    requires i < |lines| && !IsHunk(lines[i])
    ensures Walk(lines, i) == Walk(lines, i + 1)
    ensures Repaired(lines, i + 1, blob) == Repaired(lines, i, blob)
    ensures StaleBefore(lines, i + 1, blob) == StaleBefore(lines, i, blob)
  {
    hide IsHunk, Repaired, StaleBefore;
    NothingBetween(lines, i, i + 1, blob);
  }

  lemma BadHunk(lines: seq<string>, i: nat)
    requires i < |lines| && IsHunk(lines[i]) && !StartsWith(lines[i], HUNK)
    ensures Walk(lines, i) == NotAllAdditions(i)
  {
    hide IsHunk, StartsWith;
  }

  lemma WalkEnds(lines: seq<string>)
    ensures Walk(lines, |lines|) == Hunks([])
  {
  }

  /** The walk goes on behind the hunk at I. */
  lemma OneMore(lines: seq<string>, i: nat, j: nat, blob: Blob)
    requires i < |lines| && IsHunk(lines[i]) && StartsWith(lines[i], HUNK) && j == BodyEnd(lines, i + 1)
    ensures i < j <= |lines|
    ensures StaleBefore(lines, j, blob) == StaleBefore(lines, i, blob) + StaleAt(lines, i, blob)
    ensures Repaired(lines, j, blob) == Repaired(lines, i + 1, blob)
    ensures SameVerdict(Walk(lines, i), Walk(lines, j))
  {
    hide IsHunk, IsBody, Repaired, StaleAt, StartsWith, BodyEnd;
    BodyHasNoHunk(lines, i + 1);
    NothingBetween(lines, i + 1, j, blob);
  }

  lemma NothingYet(lines: seq<string>, blob: Blob)
    ensures Repaired(lines, 0, blob) == lines && StaleBefore(lines, 0, blob) == []
  {
  }

  // ---------------------------------------------------------------- fixpoint

  /** A repaired line is of the kind it was. */
  lemma KindKept(lines: seq<string>, k: nat, blob: Blob)
    requires k < |lines| && IsHash(blob)
    ensures var r := Repaired(lines, |lines|, blob)[k];
            && (IsHunk(r) <==> IsHunk(lines[k])) && (IsBody(r) <==> IsBody(lines[k])) && PathOf(r) == PathOf(lines[k])
            && (IsHunk(r) ==> r == Header(|FileOf(lines, k)|))
            && (IsHunk(r) || !Claimed(lines, k) ==> IsHunk(lines[k]) || r == lines[k])
            && (OneLine(lines[k]) ==> OneLine(r)) && (lines[k] != "" ==> r != "")
  {
    hide IsHunk, IsBody, Header, ParseIndex, FileOf, PathOf, IndexLine, OneLine, IsHash;
    if IsHunk(lines[k]) {
      HeaderIsHunk(|FileOf(lines, k)|);
      HunkIsNoOther(lines[k]);
      NotEmpty(Header(|FileOf(lines, k)|));
    } else if Claimed(lines, k) {
      IndexKept(lines, k, blob);
      NotEmpty(IndexOf(lines, k, blob));
    }
  }

  lemma NotEmpty(line: string)
    requires IsHunk(line) || ParseIndex(line).Some?
    ensures line != ""
  {
    hide Zeros;
  }

  /** A repaired index line keeps its zeros and the length of its hash. */
  lemma IndexKept(lines: seq<string>, k: nat, blob: Blob)
    requires k < |lines| && Claimed(lines, k) && IsHash(blob)
    ensures var r := IndexOf(lines, k, blob);
            var x := ParseIndex(lines[k]).value;
            && ParseIndex(r) == Some(x.(hash := blob(FileOf(lines, k + 3))[..|x.hash|])) && OneLine(r)
            && !IsHunk(r) && !IsBody(r) && PathOf(r) == PathOf(lines[k]) && !IsBody(lines[k]) && !IsHunk(lines[k])
  {
    hide IsHunk, IsBody, ParseIndex, FileOf, PathOf, IndexLine, OneLine;
    ParsedIndex(lines[k]);
    var x := ParseIndex(lines[k]).value;
    var y := x.(hash := blob(FileOf(lines, k + 3))[..|x.hash|]);
    assert IndexOf(lines, k, blob) == IndexLine(y);
    IndexParsed(y);
    ParsedIndex(IndexLine(y));
  }

  /** The repaired lines build the same files from the same hunks. */
  lemma FilesKept(lines: seq<string>, k: nat, blob: Blob)
    requires k < |lines| && IsHash(blob)
    ensures var r := Repaired(lines, |lines|, blob);
            BodyEnd(r, k + 1) == BodyEnd(lines, k + 1) && FileOf(r, k) == FileOf(lines, k)
  {
    hide IsHunk, IsBody, Header, ParseIndex, FileOf, PathOf, IndexOf, IsHash, Claimed;
    var r := Repaired(lines, |lines|, blob);
    forall i | k + 1 <= i < |lines|
      ensures (IsBody(lines[i]) <==> IsBody(r[i])) && (IsBody(lines[i]) ==> lines[i] == r[i])
    {
      KindKept(lines, i, blob);
      BodyIsNoOther(lines, i);
    }
    SameFile(lines, r, k);
  }

  lemma BodyIsNoOther(lines: seq<string>, k: nat)
    requires k < |lines|
    ensures IsBody(lines[k]) ==> !IsHunk(lines[k]) && !Claimed(lines, k)
  {
    hide IsHunk, IsBody, ParseIndex;
    if IsHunk(lines[k]) { HunkIsNoOther(lines[k]); }
    if Claimed(lines, k) { ParsedIndex(lines[k]); }
  }

  /** The same lines are index lines of the same hunks. */
  lemma ClaimsKept(lines: seq<string>, k: nat, blob: Blob)
    requires k < |lines| && IsHash(blob)
    ensures var r := Repaired(lines, |lines|, blob);
            (Claimed(r, k) <==> Claimed(lines, k)) && (Claimed(r, k) ==> IndexOf(r, k, blob) == r[k])
  {
    hide IsHunk, IsBody, Header, ParseIndex, FileOf, PathOf, IndexLine, OneLine;
    var r := Repaired(lines, |lines|, blob);
    KindKept(lines, k, blob);
    if k + 3 < |lines| { KindKept(lines, k + 3, blob); }
    if IsHunk(lines[k]) { HunkIsNoOther(lines[k]); HunkIsNoOther(r[k]); }
    if Claimed(lines, k) {
      IndexKept(lines, k, blob);
      FilesKept(lines, k + 3, blob);
      var x, y := ParseIndex(lines[k]).value, ParseIndex(r[k]).value;
      assert r[k] == IndexOf(lines, k, blob);
      ParsedIndex(lines[k]);
      ParsedIndex(r[k]);
      var hash := blob(FileOf(lines, k + 3));
      assert |x.hash| <= |hash| && y.hash == hash[..|x.hash|] && |y.hash| == |x.hash|;
    }
  }

  /** No stale line is left. */
  lemma {:induction false} NothingStale(lines: seq<string>, i: nat, blob: Blob)
    requires i <= |lines| && IsHash(blob)
    ensures StaleBefore(Repaired(lines, |lines|, blob), i, blob) == []
  {
    hide *;
    var r := Repaired(lines, |lines|, blob);
    if i > 0 {
      NothingStale(lines, i - 1, blob);
      StaleStep(r, i - 1, blob);
      if IsHunk(r[i - 1]) { NoStaleHunk(lines, i - 1, blob); }
    } else {
      NothingYet(r, blob);
    }
  }

  lemma NoStaleHunk(lines: seq<string>, k: nat, blob: Blob)
    requires k < |lines| && IsHash(blob) && IsHunk(Repaired(lines, |lines|, blob)[k])
    ensures StaleAt(Repaired(lines, |lines|, blob), k, blob) == []
  {
    hide IsHunk, Header, FileOf, Claimed, IndexOf, IsHash, Repaired;
    KindKept(lines, k, blob);
    FilesKept(lines, k, blob);
    if k >= 3 { ClaimsKept(lines, k - 3, blob); }
  }

  /** The repaired patch has the hunks of the old one. */
  lemma {:induction false} HunksKept(lines: seq<string>, i: nat, blob: Blob)
    requires i <= |lines| && IsHash(blob) && Walk(lines, i).Hunks?
    ensures Walk(Repaired(lines, |lines|, blob), i) == Walk(lines, i)
    decreases |lines| - i
  {
    hide IsHunk, Header, FileOf, Claimed, IndexOf, IsHash, Repaired, StartsWith, PathOf, BodyEnd;
    var r := Repaired(lines, |lines|, blob);
    if i < |lines| {
      KindKept(lines, i, blob);
      if !IsHunk(lines[i]) {
        HunksKept(lines, i + 1, blob);
      } else {
        FilesKept(lines, i, blob);
        HeaderIsHunk(|FileOf(lines, i)|);
        if i >= 1 { KindKept(lines, i - 1, blob); }
        HunksKept(lines, BodyEnd(lines, i + 1), blob);
      }
    }
  }

  /** The repaired patch can be read back. */
  lemma StaysReadable(p: Patch, blob: Blob)
    requires Readable(p) && IsHash(blob)
    ensures Readable(Patch(Repaired(p.lines, |p.lines|, blob), p.newline))
  {
    hide Repaired, IsHash, IsHunk, IsBody, Header, PathOf, Claimed;
    forall k | 0 <= k < |p.lines|
      ensures OneLine(Repaired(p.lines, |p.lines|, blob)[k])
      ensures p.lines[k] != "" ==> Repaired(p.lines, |p.lines|, blob)[k] != ""
    {
      KindKept(p.lines, k, blob);
    }
  }

  /** Repairing a patch of additions and reading it again: nothing is stale, the
      hunks and the files they build are the same, and so are all lines but the
      hunk headers and the index lines three above them. */
  lemma RepairIsFinal(raw: string, blob: Blob)
    requires IsHash(blob) && raw != "" && Walk(SplitPatch(raw).lines, 0).Hunks?
    ensures var p := SplitPatch(raw);
            var q := Patch(Repaired(p.lines, |p.lines|, blob), p.newline);
            && SplitPatch(Render(q)) == q && |q.lines| == |p.lines|
            && StaleBefore(q.lines, |q.lines|, blob) == []
            && Walk(q.lines, 0) == Walk(p.lines, 0)
            && (forall k :: 0 <= k < |p.lines| ==> FileOf(q.lines, k) == FileOf(p.lines, k))
            && (forall k :: 0 <= k < |p.lines| && !IsHunk(p.lines[k]) && !Claimed(p.lines, k) ==>
                  q.lines[k] == p.lines[k])
  {
    hide Repaired, IsHash, IsHunk, Claimed, Header, IndexOf, FileOf, StaleBefore, Walk, Render, JoinLines, PathOf;
    var p := SplitPatch(raw);
    var q := Patch(Repaired(p.lines, |p.lines|, blob), p.newline);
    ReadsReadable(raw);
    StaysReadable(p, blob);
    SplitAfterRender(q);
    NothingStale(p.lines, |p.lines|, blob);
    HunksKept(p.lines, 0, blob);
    forall k | 0 <= k < |p.lines|
      ensures FileOf(q.lines, k) == FileOf(p.lines, k)
      ensures !IsHunk(p.lines[k]) && !Claimed(p.lines, k) ==> q.lines[k] == p.lines[k]
    {
      FilesKept(p.lines, k, blob);
      KindKept(p.lines, k, blob);
    }
  }

  lemma ReadsReadable(raw: string)
    requires raw != ""
    ensures Readable(SplitPatch(raw))
  {
    hide Split;
    PiecesLack(raw, '\n');
    JoinAfterSplit(raw, '\n');
    var lines := SplitLines(raw);
    assert |lines| == 1 ==> JoinLines(lines) == lines[0];
  }

  /** What the repair of one hunk changes. */
  lemma ChangedByHunk(lines: seq<string>, k: nat, blob: Blob)
    requires k < |lines|
    ensures Repaired(lines, k + 1, blob) == lines
       <==> Repaired(lines, k, blob) == lines && (IsHunk(lines[k]) ==> StaleAt(lines, k, blob) == [])
  {
    hide IsHunk, Header, FileOf, ParseIndex, IndexOf;
    var now, was := Repaired(lines, k + 1, blob), Repaired(lines, k, blob);
    forall m | 0 <= m < |lines|
      ensures was[m] == lines[m] || was[m] == now[m]
      ensures now[m] != was[m] ==> IsHunk(lines[k]) && (m == k || m + 3 == k)
    {
    }
    if k >= 3 && IsHunk(lines[k - 3]) { HunkIsNoOther(lines[k - 3]); }
    if now == lines {
      assert was == lines;
    } else if was == lines {
      assert exists m :: 0 <= m < |lines| && now[m] != lines[m];
    }
  }

  lemma StaleStep(lines: seq<string>, k: nat, blob: Blob)
    requires k < |lines|
    ensures StaleBefore(lines, k + 1, blob) == []
       <==> StaleBefore(lines, k, blob) == [] && (IsHunk(lines[k]) ==> StaleAt(lines, k, blob) == [])
  {
    hide IsHunk, StaleAt;
    var front, more := StaleBefore(lines, k, blob), if IsHunk(lines[k]) then StaleAt(lines, k, blob) else [];
    assert |front + more| == |front| + |more|;
  }

  /** Nothing is stale exactly when repairing changes no line. */
  lemma {:induction false} StaleMeansChanged(lines: seq<string>, i: nat, blob: Blob)
    requires i <= |lines|
    ensures StaleBefore(lines, i, blob) == [] <==> Repaired(lines, i, blob) == lines
  {
    hide *;
    if i > 0 {
      StaleMeansChanged(lines, i - 1, blob);
      ChangedByHunk(lines, i - 1, blob);
      StaleStep(lines, i - 1, blob);
    } else {
      NothingYet(lines, blob);
    }
  }
}
