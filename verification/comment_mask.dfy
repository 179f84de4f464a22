/** Blanking the comments of C source, line by line. */
module CommentMask {
  import opened Wrappers

  /** One past the quote that closes a literal read from J, if one does. */
  function Closing(s: string, j: nat, quote: char): (e: Option<nat>)
    ensures e.Some? ==> j < e.value <= |s|
    decreases |s| - j
  {
    if j >= |s| then None
    else if s[j] == '\\' then Closing(s, j + 2, quote)
    else if s[j] == quote then Some(j + 1)
    else Closing(s, j + 1, quote)
  }

  method LiteralEnd(s: string, i: nat) returns (end: nat)
    requires i < |s|
    ensures end == match Closing(s, i + 1, s[i]) case Some(e) => e case None => i
  {
    var quote, j := s[i], i + 1;
    while j < |s|
      invariant Closing(s, j, quote) == Closing(s, i + 1, quote)
      decreases |s| - j
    {
      if s[j] == '\\' {
        j := j + 2;
      } else if s[j] == quote {
        return j + 1;
      } else {
        j := j + 1;
      }
    }
    return i;
  }

  predicate At(s: string, i: nat, c: char, d: char) { i + 1 < |s| && s[i] == c && s[i + 1] == d }

  /** Which characters from I on are comment, and whether the line ends inside a
      block comment.  The slash that opens a block is read again inside it. */
  datatype Marks = Marks(flags: seq<bool>, inBlock: bool)

  function Fill(n: nat, b: bool): (f: seq<bool>)
    ensures |f| == n && forall k :: 0 <= k < n ==> f[k] == b
  {
    seq(n, _ => b)
  }

  function After(front: seq<bool>, m: Marks): Marks { Marks(front + m.flags, m.inBlock) }

  function Mark(s: string, i: nat, inBlock: bool): (m: Marks)
    requires i <= |s|
    ensures |m.flags| == |s| - i
    decreases |s| - i, !inBlock
  {
    if i == |s| then Marks([], inBlock)
    else if inBlock then
      if At(s, i, '*', '/') then After([true, true], Mark(s, i + 2, false))
      else After([true], Mark(s, i + 1, true))
    else if At(s, i, '/', '*') then Mark(s, i, true)
    else if At(s, i, '/', '/') then Marks(Fill(|s| - i, true), false)
    else if s[i] == '"' || s[i] == '\'' then
      match Closing(s, i + 1, s[i])
      case Some(e) => After(Fill(e - i, false), Mark(s, e, false))
      case None => After([false], Mark(s, i + 1, false))
    else After([false], Mark(s, i + 1, false))
  }

  function Blank(s: string, flags: seq<bool>): (r: string)
    requires |flags| == |s|
    ensures |r| == |s| && forall k :: 0 <= k < |s| ==> r[k] == if flags[k] then ' ' else s[k]
  {
    seq(|s|, k requires 0 <= k < |s| => if flags[k] then ' ' else s[k])
  }

  datatype Masked = Masked(lines: seq<string>, inBlock: bool)

  function Mask(lines: seq<string>, inBlock: bool): (m: Masked)
    ensures |m.lines| == |lines|
  {
    if lines == [] then Masked([], inBlock)
    else
      var front := Mask(lines[..|lines| - 1], inBlock);
      var s := lines[|lines| - 1];
      var m := Mark(s, 0, front.inBlock);
      Masked(front.lines + [Blank(s, m.flags)], m.inBlock)
  }

  /** What has been written when the walk over S stands at I. */
  predicate Written(s: string, r: string, i: nat, inBlock: bool, m: Marks)
  {
    && i <= |s| && |r| == |s| == |m.flags|
    && m.flags[i..] == Mark(s, i, inBlock).flags && m.inBlock == Mark(s, i, inBlock).inBlock
    && (forall k :: 0 <= k < i ==> r[k] == if m.flags[k] then ' ' else s[k])
    && (forall k :: i <= k < |s| ==> r[k] == s[k])
  }

  /** The rest of a line from I on is a line comment. */
  method BlankRest(s: string, i: nat) returns (r: string)
    requires i <= |s|
    ensures |r| == |s| && r[..i] == s[..i] && forall k :: i <= k < |s| ==> r[k] == ' '
  {
    r := s;
    var k := i;
    while k < |s|
      invariant i <= k <= |s| == |r| && r[..i] == s[..i]
      invariant forall h :: i <= h < k ==> r[h] == ' '
    {
      r := r[k := ' '];
      k := k + 1;
    }
  }

  /** Writing N characters of mark B keeps the walk's invariant. */
  lemma Wrote(s: string, r: string, i: nat, was: bool, m: Marks, n: nat, b: bool, q: string, now: bool)
    requires Written(s, r, i, was, m) && i + n <= |s| == |q|
    requires Mark(s, i, was) == After(Fill(n, b), Mark(s, i + n, now))
    requires q[..i] == r[..i] && q[i + n..] == r[i + n..]
    requires forall k :: i <= k < i + n ==> q[k] == if b then ' ' else s[k]
    ensures Written(s, q, i + n, now, m)
  {
    hide Mark;
    var rest := Mark(s, i + n, now);
    assert m.flags[i + n..] == m.flags[i..][n..] == rest.flags;
    forall k | 0 <= k < i + n
      ensures q[k] == if m.flags[k] then ' ' else s[k]
    {
      if k < i { assert q[k] == q[..i][k] == r[..i][k]; } else { assert m.flags[k] == m.flags[i..][k - i]; }
    }
    forall k | i + n <= k < |s|
      ensures q[k] == s[k]
    {
      assert q[k] == q[i + n..][k - i - n] == r[i + n..][k - i - n];
    }
  }

  /** The width of a literal that opens at I, or of one character. */
  function Step(s: string, i: nat): (n: nat)
    requires i < |s|
    ensures 1 <= n <= |s| - i
  {
    match Closing(s, i + 1, s[i]) case Some(e) => e - i case None => 1
  }

  lemma MarkInBlock(s: string, i: nat)
    requires i < |s|
    ensures Mark(s, i, true)
         == if At(s, i, '*', '/') then After(Fill(2, true), Mark(s, i + 2, false))
            else After(Fill(1, true), Mark(s, i + 1, true))
  {
    assert [true, true] == Fill(2, true) && [true] == Fill(1, true);
  }

  lemma MarkInCode(s: string, i: nat)
    requires i < |s|
    ensures Mark(s, i, false)
         == if At(s, i, '/', '*') then Mark(s, i, true)
            else if At(s, i, '/', '/') then After(Fill(|s| - i, true), Mark(s, |s|, false))
            else if s[i] == '"' || s[i] == '\'' then After(Fill(Step(s, i), false), Mark(s, i + Step(s, i), false))
            else After(Fill(1, false), Mark(s, i + 1, false))
  {
    hide Closing;
    assert [false] == Fill(1, false);
    assert Fill(|s| - i, true) + [] == Fill(|s| - i, true);
  }

  method MaskLine(s: string, before: bool) returns (r: string, inBlock: bool)
    ensures var m := Mark(s, 0, before); r == Blank(s, m.flags) && inBlock == m.inBlock
  {
    hide Closing, Written, Mark, Fill, After, Blank;
    ghost var m := Mark(s, 0, before);
    r, inBlock := s, before;
    var i, n := 0, |s|;
    assert Written(s, r, i, inBlock, m) by { Begun(s, m, before); }
    while i < n
      invariant i <= n == |r| && Written(s, r, i, inBlock, m)
      decreases n - i, !inBlock
    {
      ghost var j, p, was := i, r, inBlock;
      if inBlock { MarkInBlock(s, i); } else { MarkInCode(s, i); Unwritten(s, r, i, m); }
      if inBlock {
        if At(s, i, '*', '/') {
          r := r[i := ' '][i + 1 := ' '];
          i := i + 2;
          inBlock := false;
          Wrote(s, p, j, was, m, 2, true, r, false);
        } else {
          r := r[i := ' '];
          i := i + 1;
          Wrote(s, p, j, was, m, 1, true, r, true);
        }
      } else if At(s, i, '/', '*') {
        inBlock := true;
        Reread(s, r, i, m);
      } else if At(s, i, '/', '/') {
        r := BlankRest(r, i);
        i := n;
        Wrote(s, p, j, was, m, n - j, true, r, false);
      } else if s[i] == '"' || s[i] == '\'' {
        var end := LiteralEnd(s, i);
        i := if end > i then end else i + 1;
        Wrote(s, p, j, was, m, i - j, false, r, false);
      } else {
        i := i + 1;
        Wrote(s, p, j, was, m, 1, false, r, false);
      }
    }
    Finished(s, r, inBlock, m);
  }

  lemma Begun(s: string, m: Marks, before: bool)
    requires m == Mark(s, 0, before)
    ensures Written(s, s, 0, before, m)
  {
    hide Mark;
    assert m.flags[0..] == m.flags;
  }

  lemma Reread(s: string, r: string, i: nat, m: Marks)
    requires Written(s, r, i, false, m) && At(s, i, '/', '*')
    ensures Written(s, r, i, true, m)
  {
  }

  lemma Unwritten(s: string, r: string, i: nat, m: Marks)
    requires Written(s, r, i, false, m)
    ensures forall k :: i <= k < |s| ==> r[k] == s[k]
  {
  }

  lemma Finished(s: string, r: string, inBlock: bool, m: Marks)
    requires Written(s, r, |s|, inBlock, m)
    ensures r == Blank(s, m.flags) && inBlock == m.inBlock
  {
  }

  method MaskComments(lines: seq<string>) returns (out: seq<string>)
    ensures out == Mask(lines, false).lines
  {
    hide Mark;
    out := [];
    var inBlock := false;
    var l := 0;
    while l < |lines|
      invariant l <= |lines|
      invariant Masked(out, inBlock) == Mask(lines[..l], false)
    {
      var r;
      r, inBlock := MaskLine(lines[l], inBlock);
      assert lines[..l + 1][..l] == lines[..l];
      out := out + [r];
      l := l + 1;
    }
    assert lines[..l] == lines;
  }

  // ------------------------------------------------------------- idempotence

  /** A comment that ends within the line ends with a slash. */
  predicate EndsInSlash(s: string, i: nat, flags: seq<bool>)
    requires i + |flags| == |s|
  {
    forall k :: 0 <= k < |flags| - 1 && flags[k] && !flags[k + 1] ==> s[i + k] == '/'
  }

  lemma {:induction false} RegionsEnd(s: string, i: nat, inBlock: bool)
    requires i <= |s|
    ensures var f := Mark(s, i, inBlock).flags;
            EndsInSlash(s, i, f) && (inBlock && f != [] ==> f[0])
    decreases |s| - i, !inBlock
  {
    hide Closing, Mark, Step;
    if i < |s| {
      if inBlock {
        MarkInBlock(s, i);
        RegionsEnd(s, i + if At(s, i, '*', '/') then 2 else 1, !At(s, i, '*', '/'));
      } else {
        MarkInCode(s, i);
        if At(s, i, '/', '*') { RegionsEnd(s, i, true); }
        else if At(s, i, '/', '/') { }
        else if s[i] == '"' || s[i] == '\'' { RegionsEnd(s, i + Step(s, i), false); }
        else { RegionsEnd(s, i + 1, false); }
      }
    }
  }

  /** R is S with the characters of FLAGS blanked from I on. */
  predicate BlankedFrom(s: string, r: string, i: nat, flags: seq<bool>)
  {
    && i + |flags| == |s| == |r| && EndsInSlash(s, i, flags)
    && forall k :: i <= k < |s| ==> r[k] == if flags[k - i] then ' ' else s[k]
  }

  /** A quote that does not close does not close after the comments behind it
      are blanked: a blanked backslash escaped a blanked character. */
  lemma {:induction false} UnclosedStays(s: string, r: string, i: nat, flags: seq<bool>, j: nat, quote: char)
    requires BlankedFrom(s, r, i, flags) && i <= j && quote != ' ' && quote != '\\'
    requires Closing(s, j, quote).None?
    ensures Closing(r, j, quote).None?
    decreases |s| - j
  {
    if j < |s| {
      if flags[j - i] {
        assert r[j] == ' ' && s[j] != quote;
        if s[j] == '\\' {
          if j + 1 < |s| { assert flags[j - i + 1] && r[j + 1] == ' '; }
          UnclosedStays(s, r, i, flags, j + 2, quote);
        } else {
          UnclosedStays(s, r, i, flags, j + 1, quote);
        }
      } else {
        UnclosedStays(s, r, i, flags, if s[j] == '\\' then j + 2 else j + 1, quote);
      }
    }
  }

  /** A literal is read only up to its end. */
  lemma {:induction false} ClosedStays(s: string, r: string, j: nat, quote: char)
    requires |r| >= |s| && Closing(s, j, quote).Some?
    requires forall k :: j <= k < Closing(s, j, quote).value ==> r[k] == s[k]
    ensures Closing(r, j, quote) == Closing(s, j, quote)
    decreases |s| - j
  {
    if s[j] == '\\' { ClosedStays(s, r, j + 2, quote); }
    else if s[j] != quote { ClosedStays(s, r, j + 1, quote); }
  }

  /** Blanks are code the walk steps over one by one. */
  lemma {:induction false} BlanksAreCode(r: string, i: nat, n: nat)
    requires i + n <= |r| && forall k :: i <= k < i + n ==> r[k] == ' '
    ensures Mark(r, i, false) == After(Fill(n, false), Mark(r, i + n, false))
    decreases n
  {
    if n == 0 {
      assert Fill(0, false) + Mark(r, i, false).flags == Mark(r, i, false).flags;
    } else {
      MarkInCode(r, i);
      BlanksAreCode(r, i + 1, n - 1);
      hide Mark;
      var rest := Mark(r, i + n, false).flags;
      assert Fill(1, false) + (Fill(n - 1, false) + rest) == Fill(n, false) + rest;
    }
  }

  predicate Quiet(r: string, i: nat)
    requires i <= |r|
  {
    Mark(r, i, false) == Marks(Fill(|r| - i, false), false)
  }

  /** A stretch the second walk steps over, before a quiet rest. */
  lemma QuietAfter(r: string, i: nat, n: nat)
    requires i + n <= |r| && Quiet(r, i + n)
    requires Mark(r, i, false) == After(Fill(n, false), Mark(r, i + n, false))
    ensures Quiet(r, i)
  {
    hide Mark;
    assert Fill(n, false) + Fill(|r| - i - n, false) == Fill(|r| - i, false);
  }

  /** The rest of a walk that has marked N characters with B. */
  lemma Onward(s: string, r: string, i: nat, m: Marks, n: nat, b: bool, rest: Marks)
    requires BlankedFrom(s, r, i, m.flags) && m == After(Fill(n, b), rest) && n <= |m.flags|
    ensures BlankedFrom(s, r, i + n, rest.flags)
    ensures forall k :: i <= k < i + n ==> r[k] == if b then ' ' else s[k]
  {
    forall k | i <= k < |s|
      ensures k >= i + n ==> r[k] == if rest.flags[k - i - n] then ' ' else s[k]
      ensures k < i + n ==> r[k] == if b then ' ' else s[k]
    {
      assert m.flags[k - i] == if k < i + n then b else rest.flags[k - i - n];
    }
    forall k | 0 <= k < |rest.flags| - 1 && rest.flags[k] && !rest.flags[k + 1]
      ensures s[i + n + k] == '/'
    {
      assert m.flags[n + k] == rest.flags[k] && m.flags[n + k + 1] == rest.flags[k + 1];
    }
  }

  /** The walk over a masked line finds no comment. */
  lemma {:induction false} SecondWalk(s: string, r: string, i: nat, inBlock: bool)
    requires i <= |s| && BlankedFrom(s, r, i, Mark(s, i, inBlock).flags)
    ensures Quiet(r, i)
    decreases |s| - i, !inBlock
  {
    hide Closing, Mark, BlankedFrom, Quiet, EndsInSlash;
    if i == |s| {
      QuietEnd(s, r, i, inBlock);
    } else if inBlock {
      MarkInBlock(s, i);
      var closes := At(s, i, '*', '/');
      var n := if closes then 2 else 1;
      Onward(s, r, i, Mark(s, i, true), n, true, Mark(s, i + n, !closes));
      SecondWalk(s, r, i + n, !closes);
      BlankStep(s, r, i, n, Mark(s, i, true).flags);
    } else {
      SecondWalkCode(s, r, i);
    }
  }

  lemma QuietEnd(s: string, r: string, i: nat, inBlock: bool)
    requires i == |s| && BlankedFrom(s, r, i, Mark(s, i, inBlock).flags)
    ensures Quiet(r, i)
  {
    assert Fill(0, false) == [];
  }

  lemma BlankStep(s: string, r: string, i: nat, n: nat, flags: seq<bool>)
    requires BlankedFrom(s, r, i, flags) && i + n <= |s|
    requires (forall k :: i <= k < i + n ==> r[k] == ' ') && Quiet(r, i + n)
    ensures Quiet(r, i)
  {
    BlanksAreCode(r, i, n);
    hide Mark;
    QuietAfter(r, i, n);
  }

  lemma {:induction false} SecondWalkCode(s: string, r: string, i: nat)
    requires i < |s| && BlankedFrom(s, r, i, Mark(s, i, false).flags)
    ensures Quiet(r, i)
    decreases |s| - i, true, 0
  {
    hide Closing, Mark, BlankedFrom, Quiet, EndsInSlash;
    var m := Mark(s, i, false);
    MarkInCode(s, i);
    if At(s, i, '/', '*') {
      SecondWalk(s, r, i, true);
    } else if At(s, i, '/', '/') {
      var n := |s| - i;
      Onward(s, r, i, m, n, true, Mark(s, |s|, false));
      SecondWalk(s, r, |s|, false);
      BlankStep(s, r, i, n, m.flags);
    } else {
      var n := if s[i] == '"' || s[i] == '\'' then Step(s, i) else 1;
      Onward(s, r, i, m, n, false, Mark(s, i + n, false));
      SecondWalk(s, r, i + n, false);
      CodeStep(s, r, i, n, m.flags);
    }
  }

  /** The second walk takes the step the first one took in code. */
  lemma CodeStep(s: string, r: string, i: nat, n: nat, flags: seq<bool>)
    requires i < |s| && BlankedFrom(s, r, i, flags) && i + n <= |s|
    requires n == if s[i] == '"' || s[i] == '\'' then Step(s, i) else 1
    requires !At(s, i, '/', '*') && !At(s, i, '/', '/')
    requires (forall k :: i <= k < i + n ==> r[k] == s[k]) && Quiet(r, i + n)
    ensures Quiet(r, i)
  {
    assert r[i] == s[i];
    assert !At(r, i, '/', '*') && !At(r, i, '/', '/');
    if s[i] == '"' || s[i] == '\'' {
      if Closing(s, i + 1, s[i]).Some? {
        ClosedStays(s, r, i + 1, s[i]);
      } else {
        UnclosedStays(s, r, i, flags, i + 1, s[i]);
      }
      assert Step(r, i) == n;
    }
    MarkInCode(r, i);
    hide Mark;
    QuietAfter(r, i, n);
  }

  lemma MaskedLineIsQuiet(s: string, inBlock: bool)
    ensures var r := Blank(s, Mark(s, 0, inBlock).flags);
            Quiet(r, 0) && Blank(r, Mark(r, 0, false).flags) == r
  {
    hide Mark;
    var f := Mark(s, 0, inBlock).flags;
    RegionsEnd(s, 0, inBlock);
    SecondWalk(s, Blank(s, f), 0, inBlock);
  }

  /** Masking masked lines changes nothing and leaves no block comment open. */
  lemma {:induction false} MaskingIsIdempotent(lines: seq<string>, inBlock: bool)
    ensures var once := Mask(lines, inBlock).lines;
            Mask(once, false) == Masked(once, false)
  {
    hide Mark, Blank;
    if lines != [] {
      var init, s := lines[..|lines| - 1], lines[|lines| - 1];
      MaskingIsIdempotent(init, inBlock);
      var front := Mask(init, inBlock);
      MaskedLineIsQuiet(s, front.inBlock);
      var once := Mask(lines, inBlock).lines;
      assert once[..|once| - 1] == front.lines;
    }
  }

  /** Every line keeps its length, and a character that changes becomes a space. */
  lemma {:induction false} MaskingKeepsColumns(lines: seq<string>, inBlock: bool, l: nat)
    requires l < |lines|
    ensures var r := Mask(lines, inBlock).lines[l];
            |r| == |lines[l]| && forall k :: 0 <= k < |r| ==> r[k] == lines[l][k] || r[k] == ' '
  {
    hide Mark;
    var init := lines[..|lines| - 1];
    if l < |lines| - 1 { MaskingKeepsColumns(init, inBlock, l); }
  }

  // -------------------------------------------------------- what is a comment

  /** Code without a quote or a slash. */
  predicate Bare(a: string) { forall k :: 0 <= k < |a| ==> a[k] !in {'/', '"', '\''} }

  /** Text that does not close a block comment. */
  predicate Closeless(c: string) { forall k :: 0 <= k < |c| ==> !At(c, k, '*', '/') }

  /** A whole literal, quotes included. */
  predicate Literal(l: string) { |l| >= 2 && l[0] in {'"', '\''} && Closing(l, 1, l[0]) == Some(|l|) }

  /** The backslashes in a row that end just before K, back to I. */
  function Slashes(s: string, i: nat, k: nat): nat
    requires k <= |s|
  {
    if k > i && s[k - 1] == '\\' then 1 + Slashes(s, i, k - 1) else 0
  }

  /** A quote at K that is not escaped: an even number of backslashes before it. */
  predicate Unescaped(s: string, i: nat, k: nat, quote: char)
  {
    i <= k < |s| && s[k] == quote && Slashes(s, i, k) % 2 == 0
  }

  /** A literal closes at the first quote behind its opening that is not escaped. */
  predicate ClosesAt(s: string, i: nat, quote: char, e: nat)
  {
    e > 0 && Unescaped(s, i, e - 1, quote) && forall k :: i <= k < e - 1 ==> !Unescaped(s, i, k, quote)
  }

  lemma {:induction false} FirstUnescaped(s: string, i: nat, j: nat, quote: char)
    requires i <= j && quote != '\\'
    requires j <= |s| ==> Slashes(s, i, j) % 2 == 0
    requires forall k :: i <= k < j ==> !Unescaped(s, i, k, quote)
    ensures match Closing(s, j, quote)
            case Some(e) => ClosesAt(s, i, quote, e)
            case None => forall k :: i <= k < |s| ==> !Unescaped(s, i, k, quote)
    decreases |s| - j
  {
    if j < |s| {
      if s[j] == '\\' {
        assert j + 1 <= |s| && Slashes(s, i, j + 1) == Slashes(s, i, j) + 1;
        FirstUnescaped(s, i, j + 2, quote);
      } else if s[j] != quote {
        FirstUnescaped(s, i, j + 1, quote);
      }
    }
  }

  /** Where a literal ends, escapes of quotes and of backslashes included, and that
      it does not when every quote that follows is escaped. */
  lemma LiteralCloses(s: string, i: nat, quote: char, e: nat)
    requires quote != '\\' && i <= |s|
    ensures Closing(s, i, quote) == Some(e) <==> ClosesAt(s, i, quote, e)
    ensures Closing(s, i, quote) == None <==> forall k :: i <= k < |s| ==> !Unescaped(s, i, k, quote)
  {
    FirstUnescaped(s, i, i, quote);
  }

  lemma QuoteAlone(s: string, i: nat)
    requires i < |s| && s[i] in {'"', '\''} && Closing(s, i + 1, s[i]).None?
    ensures Mark(s, i, false) == After(Fill(1, false), Mark(s, i + 1, false))
  {
    assert [false] == Fill(1, false);
  }

  lemma NoClosingQuote(x: string, b: string, q: char)
    requires q in {'"', '\''} && forall k :: 0 <= k < |b| ==> !Unescaped(b, 0, k, q)
    ensures Closing(x + b, |x|, q) == None
  {
    LiteralCloses(b, 0, q, 0);
    ClosingShifts(x, b, 0, q);
  }

  /** A quote that does not close on its line is ordinary text. */
  lemma UnclosedQuoteIsText(a: string, q: char, b: string)
    requires Bare(a) && q in {'"', '\''} && forall k :: 0 <= k < |b| ==> !Unescaped(b, 0, k, q)
    ensures Mark(a + [q] + b, 0, false) == After(Fill(|a| + 1, false), Mark(b, 0, false))
  {
    hide *;
    var s := a + [q] + b;
    QuoteBehind(a, q, b);
    BareIsCode(s, |a|);
    NoClosingQuote(a + [q], b, q);
    QuoteAlone(s, |a|);
    FillTwice(|a|, 1, false, Mark(s, |a| + 1, false));
    MarkShifts(a + [q], b, 0, false);
  }

  lemma QuoteBehind(a: string, q: char, b: string)
    ensures var s := a + [q] + b;
            |s| == |a| + 1 + |b| && |a + [q]| == |a| + 1 && s[..|a|] == a && s[|a|] == q
  {
  }

  lemma {:induction false} ClosingShifts(x: string, b: string, j: nat, quote: char)
    ensures Closing(x + b, |x| + j, quote)
         == match Closing(b, j, quote) case Some(e) => Some(|x| + e) case None => None
    decreases |b| - j
  {
    if j < |b| {
      assert (x + b)[|x| + j] == b[j];
      if b[j] == '\\' { ClosingShifts(x, b, j + 2, quote); }
      else if b[j] != quote { ClosingShifts(x, b, j + 1, quote); }
    }
  }

  /** What a line marks from a position on does not depend on what stands before. */
  lemma {:induction false} MarkShifts(x: string, b: string, i: nat, inBlock: bool)
    requires i <= |b|
    ensures Mark(x + b, |x| + i, inBlock) == Mark(b, i, inBlock)
    decreases |b| - i, !inBlock
  {
    hide Closing, Mark;
    var s := x + b;
    if i == |b| {
      AtEnd(s, inBlock);
      AtEnd(b, inBlock);
    } else if inBlock {
      MarkInBlock(s, |x| + i);
      MarkInBlock(b, i);
      MarkShifts(x, b, i + if At(b, i, '*', '/') then 2 else 1, !At(b, i, '*', '/'));
    } else {
      MarkInCode(s, |x| + i);
      MarkInCode(b, i);
      ClosingShifts(x, b, i + 1, b[i]);
      if At(b, i, '/', '*') { MarkShifts(x, b, i, true); }
      else if At(b, i, '/', '/') { AtEnd(s, false); AtEnd(b, false); }
      else if b[i] == '"' || b[i] == '\'' { MarkShifts(x, b, i + Step(b, i), false); }
      else { MarkShifts(x, b, i + 1, false); }
    }
  }

  lemma AtEnd(s: string, inBlock: bool)
    ensures Mark(s, |s|, inBlock) == Marks([], inBlock)
  {
  }

  lemma FillTwice(n: nat, k: nat, b: bool, m: Marks)
    ensures After(Fill(n, b), After(Fill(k, b), m)) == After(Fill(n + k, b), m)
  {
    assert Fill(n, b) + (Fill(k, b) + m.flags) == Fill(n + k, b) + m.flags;
  }

  lemma FillLast(n: nat, b: bool, inBlock: bool)
    ensures After(Fill(n, b), Marks([], inBlock)) == Marks(Fill(n, b), inBlock)
  {
    assert Fill(n, b) + [] == Fill(n, b);
  }

  lemma {:induction false} BareIsCode(s: string, n: nat)
    requires n <= |s| && Bare(s[..n])
    ensures Mark(s, 0, false) == After(Fill(n, false), Mark(s, n, false))
  {
    hide Mark;
    if n == 0 {
      assert Fill(0, false) + Mark(s, 0, false).flags == Mark(s, 0, false).flags;
    } else {
      assert s[..n - 1] == s[..n][..n - 1];
      BareIsCode(s, n - 1);
      assert s[n - 1] == s[..n][n - 1];
      MarkInCode(s, n - 1);
      FillTwice(n - 1, 1, false, Mark(s, n, false));
    }
  }

  lemma {:induction false} StaysInBlock(s: string, i: nat, n: nat)
    requires i + n <= |s| && forall k :: i <= k < i + n ==> !At(s, k, '*', '/')
    ensures Mark(s, i, true) == After(Fill(n, true), Mark(s, i + n, true))
    decreases n
  {
    hide Mark;
    if n == 0 {
      assert Fill(0, true) + Mark(s, i, true).flags == Mark(s, i, true).flags;
    } else {
      MarkInBlock(s, i);
      StaysInBlock(s, i + 1, n - 1);
      FillTwice(1, n - 1, true, Mark(s, i + n, true));
    }
  }

  /** No close begins in the text C of a comment. */
  lemma NoClose(x: string, c: string, y: string, k: nat)
    requires Closeless(c) && (y == "" || y[0] != '/') && |x| <= k < |x| + |c|
    ensures !At(x + c + y, k, '*', '/')
  {
    assert !At(c, k - |x|, '*', '/');
  }

  /** The opening is no close, and neither is anything up to the end of the text. */
  lemma NoCloseFrom(a: string, c: string, y: string)
    requires Closeless(c) && (y == "" || y[0] != '/') && !(c != "" && c[0] == '/')
    ensures var s := a + "/*" + c + y;
            forall k :: |a| <= k < |a| + 2 + |c| ==> !At(s, k, '*', '/')
  {
    var s := a + "/*" + c + y;
    assert s[|a|] == '/' && (|a| + 2 < |s| ==> s[|a| + 2] != '/');
    assert !At(s, |a|, '*', '/') && !At(s, |a| + 1, '*', '/');
    forall k | |a| + 2 <= k < |a| + 2 + |c|
      ensures !At(s, k, '*', '/')
    {
      NoClose(a + "/*", c, y, k);
    }
  }

  /** A block comment is blanked from its opening to its close, what stands
      before it is kept and what follows is read as code, unless its text begins
      with a slash: then the three characters of the opening close it. */
  lemma BlockCommentIsBlanked(a: string, c: string, b: string)
    requires Bare(a) && Closeless(c)
    ensures var s := a + "/*" + c + "*/" + b;
            var n := |a| + if c != "" && c[0] == '/' then 3 else 4 + |c|;
            && Mark(s, 0, false) == After(Fill(|a|, false), After(Fill(n - |a|, true), Mark(s, n, false)))
            && (c == "" || c[0] != '/' ==> Mark(s, n, false) == Mark(b, 0, false))
  {
    hide Mark, Fill, After;
    var s := a + "/*" + c + "*/" + b;
    assert s[..|a|] == a;
    BareIsCode(s, |a|);
    MarkInCode(s, |a|);
    assert At(s, |a|, '/', '*');
    if c != "" && c[0] == '/' {
      StaysInBlock(s, |a|, 1);
      assert At(s, |a| + 1, '*', '/');
      MarkInBlock(s, |a| + 1);
      FillTwice(1, 2, true, Mark(s, |a| + 3, false));
    } else {
      var n := |a| + 2 + |c|;
      NoCloseFrom(a, c, "*/" + b);
      assert a + "/*" + c + ("*/" + b) == s;
      StaysInBlock(s, |a|, n - |a|);
      assert At(s, n, '*', '/');
      MarkInBlock(s, n);
      FillTwice(n - |a|, 2, true, Mark(s, n + 2, false));
      assert s == (a + "/*" + c + "*/") + b;
      MarkShifts(a + "/*" + c + "*/", b, 0, false);
    }
  }

  lemma InBlockToEnd(s: string, i: nat, n: nat)
    requires i + n == |s| && forall k :: i <= k < |s| ==> !At(s, k, '*', '/')
    ensures Mark(s, i, true) == Marks(Fill(n, true), true)
  {
    hide Mark, Fill, After;
    StaysInBlock(s, i, n);
    AtEnd(s, true);
    FillLast(n, true, true);
  }

  lemma OpenComment(s: string, a: string, c: string)
    requires s == a + "/*" + c && Bare(a) && Closeless(c) && !(c != "" && c[0] == '/')
    ensures Mark(s, |a|, false) == Marks(Fill(2 + |c|, true), true) && |a| < |s| && Bare(s[..|a|])
  {
    hide Mark, Fill, After, Bare, Closeless, At;
    Opens(a, c);
    assert forall k :: |a| <= k < |s| ==> !At(s, k, '*', '/') by {
      NoCloseFrom(a, c, "");
      Nothing(s);
    }
    MarkInCode(s, |a|);
    InBlockToEnd(s, |a|, 2 + |c|);
  }

  /** A block comment that does not close on its line runs to the end of it and
      the next line starts inside it. */
  lemma OpenCommentIsBlanked(a: string, c: string)
    requires Bare(a) && Closeless(c) && !(c != "" && c[0] == '/')
    ensures Mark(a + "/*" + c, 0, false) == After(Fill(|a|, false), Marks(Fill(2 + |c|, true), true))
  {
    hide *;
    OpenComment(a + "/*" + c, a, c);
    BareIsCode(a + "/*" + c, |a|);
  }

  lemma Nothing(s: string)
    ensures s + "" == s
  {
  }

  lemma Opens(a: string, c: string)
    requires Bare(a)
    ensures var s := a + "/*" + c;
            |a| < |s| && Bare(s[..|a|]) && At(s, |a|, '/', '*')
  {
    assert (a + "/*" + c)[..|a|] == a;
  }

  /** A line inside a block comment is blanked up to the first close. */
  lemma BlockCommentCloses(c: string, b: string)
    requires Closeless(c)
    ensures Mark(c + "*/" + b, 0, true) == After(Fill(|c| + 2, true), Mark(b, 0, false))
  {
    hide Mark, Fill, After, Closeless, At;
    var s := c + "*/" + b;
    assert "" + c + ("*/" + b) == s;
    forall k | 0 <= k < |c|
      ensures !At(s, k, '*', '/')
    {
      NoClose("", c, "*/" + b, k);
    }
    StaysInBlock(s, 0, |c|);
    Closes(c, b);
    MarkInBlock(s, |c|);
    FillTwice(|c|, 2, true, Mark(s, |c| + 2, false));
    assert s == (c + "*/") + b;
    MarkShifts(c + "*/", b, 0, false);
  }

  lemma Closes(c: string, b: string)
    ensures At(c + "*/" + b, |c|, '*', '/')
  {
  }

  /** A line that does not close the block comment it is in is blanked whole. */
  lemma BlockCommentGoesOn(c: string)
    requires Closeless(c)
    ensures Mark(c, 0, true) == Marks(Fill(|c|, true), true)
  {
    hide Mark, Fill, At;
    InBlockToEnd(c, 0, |c|);
  }

  lemma LineCommentIsBlanked(a: string, c: string)
    requires Bare(a)
    ensures Mark(a + "//" + c, 0, false) == After(Fill(|a|, false), Marks(Fill(2 + |c|, true), false))
  {
    hide Mark, Fill, After;
    var s := a + "//" + c;
    assert s[..|a|] == a;
    BareIsCode(s, |a|);
    MarkInCode(s, |a|);
    assert At(s, |a|, '/', '/');
    AtEnd(s, false);
    FillLast(2 + |c|, true, false);
  }

  /** A literal is kept whatever it holds, a comment opener too. */
  lemma LiteralIsKept(a: string, l: string, b: string)
    requires Bare(a) && Literal(l)
    ensures Mark(a + l + b, 0, false) == After(Fill(|a| + |l|, false), Mark(b, 0, false))
  {
    hide Mark, Fill, After;
    var s := a + l + b;
    assert s[..|a|] == a;
    BareIsCode(s, |a|);
    MarkInCode(s, |a|);
    ClosedStays(l, l + b, 1, l[0]);
    ClosingShifts(a, l + b, 1, l[0]);
    assert a + (l + b) == s && s[|a|] == l[0];
    assert Step(s, |a|) == |l|;
    FillTwice(|a|, |l|, false, Mark(s, |a| + |l|, false));
    assert s == (a + l) + b;
    MarkShifts(a + l, b, 0, false);
  }
}
