/** cleanDocContent of components/GoogleDriveSearch.js: the chain of
    replacements that tidies a document description, one function per
    replacement. Each pattern is global and is applied left to right, taking
    the longest match at each position, as JavaScript's String.replace does.

    As written, the step that removes white space before a newline also
    swallows every blank line, so the step after it, which caps runs of
    newlines at one blank line, never finds anything to do.
    CleanDocContentAsWritten keeps that behaviour; CleanDocContent removes
    only spaces and tabs before a newline, as the step's own comment says. */
module DocCleanup {
  import opened Wrappers
  import opened Strings

  /** The length of the leading run of characters satisfying p. */
  function RunLength(s: string, p: char -> bool): (n: nat)
    ensures n <= |s|
    ensures n < |s| ==> !p(s[n])
    decreases |s|
  {
    if |s| > 0 && p(s[0]) then 1 + RunLength(s[1..], p) else 0
  }

  /** Every character of the run satisfies p. */
  lemma {:induction false} RunHolds(s: string, p: char -> bool, i: int)
    requires 0 <= i < RunLength(s, p)
    ensures p(s[i])
    decreases |s|
  {
    if i > 0 {
      RunHolds(s[1..], p, i - 1);
    }
  }

  /** The run of a suffix that starts inside the run is the rest of the run. */
  lemma {:induction false} RunSuffix(s: string, p: char -> bool, m: nat)
    requires m <= RunLength(s, p)
    ensures RunLength(s[m..], p) == RunLength(s, p) - m
    decreases m
  {
    if m > 0 {
      RunSuffix(s[1..], p, m - 1);
      assert s[1..][m - 1..] == s[m..];
    }
  }

  predicate IsTab(c: char) { c == '\t' }
  predicate IsNewline(c: char) { c == '\n' }
  /** [ \t] */
  predicate IsBlank(c: char) { c == ' ' || c == '\t' }

  /** [\x00-\x08\x0B\x0C\x0E-\x1F]: the control characters other than tab,
      line feed and carriage return. */
  predicate IsStrippedControl(c: char) {
    c <= '\U{0008}' || c == '\U{000B}' || c == '\U{000C}' || ('\U{000E}' <= c <= '\U{001F}')
  }

  predicate KeepsChar(c: char) { !IsStrippedControl(c) }

  /** A character the cleaned text may hold: no carriage return, no tab and
      no stripped control character. */
  predicate IsTidy(c: char) { c != '\r' && c != '\t' && !IsStrippedControl(c) }

  predicate AllTidy(s: string) { forall i :: 0 <= i < |s| ==> IsTidy(s[i]) }

  /** s[i] satisfies first and s[i + 1] satisfies second. */
  predicate PairAt(s: string, i: int, first: char -> bool, second: char -> bool)
    requires 0 <= i < |s| - 1
  {
    first(s[i]) && second(s[i + 1])
  }

  predicate NoPair(s: string, first: char -> bool, second: char -> bool) {
    forall i :: 0 <= i < |s| - 1 ==> !PairAt(s, i, first, second)
  }

  /** No two newlines are adjacent: no blank line. */
  predicate NoBlankLines(s: string) { NoPair(s, IsNewline, IsNewline) }

  /** No space or tab stands right before a newline. */
  predicate NoBlankBeforeBreaks(s: string) { NoPair(s, IsBlank, IsNewline) }

  /** No two spaces or tabs are adjacent. */
  predicate NoBlankPairs(s: string) { NoPair(s, IsBlank, IsBlank) }

  /** Positions i, i + 1 and i + 2 all hold a newline. */
  predicate BreakTripleAt(s: string, i: int)
    requires 0 <= i < |s| - 2
  {
    s[i] == '\n' && s[i + 1] == '\n' && s[i + 2] == '\n'
  }

  /** No more than one blank line anywhere. */
  predicate NoBreakTriples(s: string) {
    forall i :: 0 <= i < |s| - 2 ==> !BreakTripleAt(s, i)
  }

  // ---------------------------------------------------------------------
  // pieces

  lemma SliceTidy(s: string, lo: nat, hi: nat)
    requires lo <= hi <= |s| && AllTidy(s)
    ensures AllTidy(s[lo..hi]) && (hi == |s| ==> AllTidy(s[lo..]))
  {
    assert forall i :: 0 <= i < hi - lo ==> s[lo..hi][i] == s[lo + i];
    assert hi == |s| ==> s[lo..hi] == s[lo..];
  }

  lemma ConcatTidy(a: string, b: string)
    requires AllTidy(a) && AllTidy(b)
    ensures AllTidy(a + b)
  {
    assert forall i :: |a| <= i < |a + b| ==> (a + b)[i] == b[i - |a|];
  }

  /** Two texts without a pair make one without a pair, unless the pair
      straddles the join. */
  lemma ConcatNoPair(a: string, b: string, first: char -> bool, second: char -> bool)
    requires NoPair(a, first, second) && NoPair(b, first, second)
    requires |a| > 0 && |b| > 0 ==> !(first(a[|a| - 1]) && second(b[0]))
    ensures NoPair(a + b, first, second)
  {
    var r := a + b;
    forall i | 0 <= i < |r| - 1 ensures !PairAt(r, i, first, second) {
      if i < |a| - 1 {
        assert !PairAt(a, i, first, second);
      } else if i >= |a| {
        assert !PairAt(b, i - |a|, first, second);
      }
    }
  }

  lemma SliceNoPair(s: string, lo: nat, hi: nat, first: char -> bool, second: char -> bool)
    requires lo <= hi <= |s| && NoPair(s, first, second)
    ensures NoPair(s[lo..hi], first, second)
    ensures hi == |s| ==> NoPair(s[lo..], first, second)
  {
    assert hi == |s| ==> s[lo..hi] == s[lo..];
    forall i | 0 <= i < hi - lo - 1 ensures !PairAt(s[lo..hi], i, first, second) {
      assert !PairAt(s, lo + i, first, second);
    }
  }

  /** A text whose characters after the first never satisfy second has no
      pair. */
  lemma NoSecondNoPair(s: string, first: char -> bool, second: char -> bool)
    requires forall i :: 1 <= i < |s| ==> !second(s[i])
    ensures NoPair(s, first, second)
  {
    forall i | 0 <= i < |s| - 1 ensures !PairAt(s, i, first, second) {
      assert !second(s[i + 1]);
    }
  }

  /** Two texts without three newlines in a row make one without, unless
      the three straddle the join. */
  lemma ConcatNoTriples(a: string, b: string)
    requires NoBreakTriples(a) && NoBreakTriples(b)
    requires |a| > 0 && |b| > 0 && a[|a| - 1] == '\n' && b[0] == '\n' ==>
      (|a| == 1 || a[|a| - 2] != '\n') && (|b| == 1 || b[1] != '\n')
    ensures NoBreakTriples(a + b)
  {
    var r := a + b;
    forall i | 0 <= i < |r| - 2 ensures !BreakTripleAt(r, i) {
      if i < |a| - 2 {
        assert !BreakTripleAt(a, i);
      } else if i >= |a| {
        assert !BreakTripleAt(b, i - |a|);
      }
    }
  }

  lemma SliceNoTriples(s: string, lo: nat, hi: nat)
    requires lo <= hi <= |s| && NoBreakTriples(s)
    ensures NoBreakTriples(s[lo..hi])
    ensures hi == |s| ==> NoBreakTriples(s[lo..])
  {
    assert hi == |s| ==> s[lo..hi] == s[lo..];
    forall i | 0 <= i < hi - lo - 2 ensures !BreakTripleAt(s[lo..hi], i) {
      assert !BreakTripleAt(s, lo + i);
    }
  }

  /** A text without a blank line has no three newlines in a row. */
  lemma NoPairsNoTriples(s: string)
    requires NoBlankLines(s)
    ensures NoBreakTriples(s)
  {
    forall i | 0 <= i < |s| - 2 ensures !BreakTripleAt(s, i) {
      assert !PairAt(s, i, IsNewline, IsNewline);
    }
  }

  // ---------------------------------------------------------------------
  // the steps

  /** .replace(/\r\n/g, '\n').replace(/\r/g, '\n'): a CR LF pair and a lone
      CR each become one LF. */
  function UnifyBreaks(s: string): (r: string)
    ensures forall i :: 0 <= i < |r| ==> r[i] != '\r'
    decreases |s|
  {
    if |s| == 0 then ""
    else if s[0] == '\r' && |s| > 1 && s[1] == '\n' then "\n" + UnifyBreaks(s[2..])
    else if s[0] == '\r' then "\n" + UnifyBreaks(s[1..])
    else [s[0]] + UnifyBreaks(s[1..])
  }

  /** .replace(/[\x00-\x08\x0B\x0C\x0E-\x1F]/g, '') */
  function DropControls(s: string): (r: string)
    ensures forall i :: 0 <= i < |r| ==> !IsStrippedControl(r[i])
    ensures (forall i :: 0 <= i < |s| ==> s[i] != '\r') ==> forall i :: 0 <= i < |r| ==> r[i] != '\r'
  {
    KeepFrom(s, KeepsChar);
    Keep(s, KeepsChar)
  }

  /** .replace(/\t+/g, ' '): each run of tabs becomes one space. */
  function TabsToSpace(s: string): (r: string)
    ensures (forall i :: 0 <= i < |s| ==> s[i] != '\r' && !IsStrippedControl(s[i])) ==> AllTidy(r)
    decreases |s|
  {
    if |s| == 0 then ""
    else if s[0] == '\t' then " " + TabsToSpace(s[RunLength(s, IsTab)..])
    else [s[0]] + TabsToSpace(s[1..])
  }

  /** The position of the last newline in s, or -1. */
  function LastBreak(s: string): (k: int)
    ensures -1 <= k < |s|
    ensures k >= 0 ==> s[k] == '\n'
    decreases |s|
  {
    if |s| == 0 then -1
    else if s[|s| - 1] == '\n' then |s| - 1
    else LastBreak(s[..|s| - 1])
  }

  /** No newline comes after the last one. */
  lemma {:induction false} LastBreakIsLast(s: string, i: int)
    requires LastBreak(s) < i < |s|
    ensures s[i] != '\n'
    decreases |s|
  {
    if s[|s| - 1] != '\n' && i < |s| - 1 {
      LastBreakIsLast(s[..|s| - 1], i);
    }
  }

  /** .replace(/\s+\n/g, '\n') as written. */
  function StripBeforeBreaksAsWritten(s: string): (r: string)
  {
    StripRunsBeforeBreaks(s, IsJsSpace)
  }

  /** .replace(/S+\n/g, '\n') for a class S of space characters that holds
      the newline, \s here: at each position the step puts out a piece and
      resumes further on. */
  function StripRunsBeforeBreaks(s: string, space: char -> bool): (r: string)
    decreases |s|
  {
    if |s| == 0 then ""
    else AsWrittenPiece(s, space) + StripRunsBeforeBreaks(s[AsWrittenNext(s, space)..], space)
  }

  /** At a run of space characters the pattern takes the run up to its last
      newline, provided that newline is not the run's first character, and
      puts one newline in its place; otherwise the run, or the one character
      that is not a space, is kept. */
  function AsWrittenPiece(s: string, space: char -> bool): (piece: string)
    requires |s| > 0
    ensures |piece| > 0
  {
    if !space(s[0]) then [s[0]]
    else
      var n := RunLength(s, space);
      if LastBreak(s[..n]) >= 1 then "\n" else s[..n]
  }

  /** Where the as-written step resumes after the piece. */
  function AsWrittenNext(s: string, space: char -> bool): (m: nat)
    requires |s| > 0
    ensures 1 <= m <= |s|
  {
    if !space(s[0]) then 1
    else
      var n := RunLength(s, space);
      var k := LastBreak(s[..n]);
      if k >= 1 then k + 1 else n
  }

  lemma {:induction false} StripAsWrittenTidy(s: string, space: char -> bool)
    requires AllTidy(s)
    ensures AllTidy(StripRunsBeforeBreaks(s, space))
    decreases |s|
  {
    if |s| > 0 {
      var m := AsWrittenNext(s, space);
      SliceTidy(s, m, |s|);
      StripAsWrittenTidy(s[m..], space);
      assert AllTidy(AsWrittenPiece(s, space)) by {
        assert IsTidy('\n');
        if space(s[0]) {
          SliceTidy(s, 0, RunLength(s, space));
        }
      }
      ConcatTidy(AsWrittenPiece(s, space), StripRunsBeforeBreaks(s[m..], space));
    }
  }

  /** A piece starts with a newline only where the text does, or where the
      leading run of space characters holds a newline after its first
      character. */
  lemma AsWrittenPieceStart(s: string, space: char -> bool)
    requires |s| > 0 && AsWrittenPiece(s, space)[0] == '\n'
    ensures s[0] == '\n' || LastBreak(s[..RunLength(s, space)]) >= 1
  {
  }

  /** Past the last newline of a leading run, the step's result does not
      start with a newline. */
  lemma StripAsWrittenAfterLastBreak(s: string, space: char -> bool, n: nat, k: int)
    requires space('\n')
    requires n == RunLength(s, space) && k == LastBreak(s[..n]) && 0 <= k
    ensures var tail := StripRunsBeforeBreaks(s[k + 1..], space);
      |tail| > 0 ==> tail[0] != '\n'
  {
    var rest := s[k + 1..];
    if |rest| > 0 && AsWrittenPiece(rest, space)[0] == '\n' {
      AsWrittenPieceStart(rest, space);
      RunSuffix(s, space, k + 1);
      var m := RunLength(rest, space);
      var j := LastBreak(rest[..m]);
      if j >= 1 {
        assert s[..n][k + 1 + j] == rest[..m][j];
        LastBreakIsLast(s[..n], k + 1 + j);
      } else {
        assert m > 0;
        assert s[..n][k + 1] == rest[0];
        LastBreakIsLast(s[..n], k + 1);
      }
    }
  }

  /** The piece has no blank line, and a piece that ends in a newline is
      followed by a result that does not start with one. */
  lemma AsWrittenPieceJoins(s: string, space: char -> bool)
    requires |s| > 0 && space('\n')
    ensures NoBlankLines(AsWrittenPiece(s, space))
    ensures var piece := AsWrittenPiece(s, space);
      var tail := StripRunsBeforeBreaks(s[AsWrittenNext(s, space)..], space);
      piece[|piece| - 1] == '\n' && |tail| > 0 ==> tail[0] != '\n'
  {
    if space(s[0]) {
      AsWrittenRunJoins(s, space, RunLength(s, space));
    } else {
      assert AsWrittenPiece(s, space) == [s[0]];
      assert NoPair([s[0]], IsNewline, IsNewline);
    }
  }

  /** AsWrittenPieceJoins for a text that starts with a space character. */
  lemma AsWrittenRunJoins(s: string, space: char -> bool, n: nat)
    requires |s| > 0 && space('\n') && space(s[0]) && n == RunLength(s, space)
    ensures NoBlankLines(AsWrittenPiece(s, space))
    ensures var piece := AsWrittenPiece(s, space);
      var tail := StripRunsBeforeBreaks(s[AsWrittenNext(s, space)..], space);
      piece[|piece| - 1] == '\n' && |tail| > 0 ==> tail[0] != '\n'
  {
    var k := LastBreak(s[..n]);
    if k >= 1 {
      assert AsWrittenPiece(s, space) == "\n" && AsWrittenNext(s, space) == k + 1;
      assert NoPair("\n", IsNewline, IsNewline);
      StripAsWrittenAfterLastBreak(s, space, n, k);
    } else {
      assert AsWrittenPiece(s, space) == s[..n] && AsWrittenNext(s, space) == n;
      AsWrittenKeptRun(s, space, n, k);
    }
  }

  /** A run kept whole holds no newline after its first character. */
  lemma AsWrittenKeptRun(s: string, space: char -> bool, n: nat, k: int)
    requires |s| > 0 && space(s[0]) && space('\n')
    requires n == RunLength(s, space) && k == LastBreak(s[..n]) && k < 1
    ensures NoBlankLines(s[..n])
    ensures s[n - 1] == '\n' ==>
      var tail := StripRunsBeforeBreaks(s[n..], space);
      |tail| > 0 ==> tail[0] != '\n'
  {
    var head := s[..n];
    forall i | 1 <= i < |head| ensures !IsNewline(head[i]) {
      LastBreakIsLast(head, i);
    }
    NoSecondNoPair(head, IsNewline, IsNewline);
    if s[n - 1] == '\n' {
      assert head[n - 1] == '\n';
      StripAsWrittenAfterLastBreak(s, space, n, k);
    }
  }

  /** As written, the step leaves no blank line behind: no two newlines are
      adjacent in its result. */
  lemma {:induction false} StripAsWrittenNoBlankLines(s: string, space: char -> bool)
    requires space('\n')
    ensures NoBlankLines(StripRunsBeforeBreaks(s, space))
    decreases |s|
  {
    if |s| > 0 {
      var m := AsWrittenNext(s, space);
      StripAsWrittenNoBlankLines(s[m..], space);
      AsWrittenPieceJoins(s, space);
      ConcatNoPair(AsWrittenPiece(s, space), StripRunsBeforeBreaks(s[m..], space), IsNewline, IsNewline);
    }
  }

  /** .replace(/[ \t]+\n/g, '\n'): the spaces and tabs before a newline go. */
  function StripBlanksBeforeBreaks(s: string): (r: string)
    decreases |s|
  {
    if |s| == 0 then ""
    else
      var n := RunLength(s, IsBlank);
      if n == 0 then [s[0]] + StripBlanksBeforeBreaks(s[1..])
      else if n < |s| && s[n] == '\n' then "\n" + StripBlanksBeforeBreaks(s[n + 1..])
      else s[..n] + StripBlanksBeforeBreaks(s[n..])
  }

  lemma {:induction false} StripBlanksTidy(s: string)
    requires AllTidy(s)
    ensures AllTidy(StripBlanksBeforeBreaks(s))
    decreases |s|
  {
    if |s| > 0 {
      assert IsTidy('\n');
      var n := RunLength(s, IsBlank);
      if n == 0 {
        StripBlanksTidy(s[1..]);
        ConcatTidy([s[0]], StripBlanksBeforeBreaks(s[1..]));
      } else if n < |s| && s[n] == '\n' {
        StripBlanksTidy(s[n + 1..]);
        ConcatTidy("\n", StripBlanksBeforeBreaks(s[n + 1..]));
      } else {
        StripBlanksTidy(s[n..]);
        ConcatTidy(s[..n], StripBlanksBeforeBreaks(s[n..]));
      }
    }
  }

  /** The corrected step keeps a first character that is not a space or
      tab. */
  lemma StripBlanksHead(s: string)
    requires |s| > 0 && !IsBlank(s[0])
    ensures |StripBlanksBeforeBreaks(s)| > 0 && StripBlanksBeforeBreaks(s)[0] == s[0]
  {
  }

  /** The corrected step leaves no space or tab right before a newline. */
  lemma {:induction false} NoBlankBeforeBreak(s: string)
    ensures NoBlankBeforeBreaks(StripBlanksBeforeBreaks(s))
    decreases |s|
  {
    if |s| > 0 {
      var n := RunLength(s, IsBlank);
      if n == 0 {
        NoBlankBeforeBreak(s[1..]);
        ConcatNoPair([s[0]], StripBlanksBeforeBreaks(s[1..]), IsBlank, IsNewline);
      } else if n < |s| && s[n] == '\n' {
        NoBlankBeforeBreak(s[n + 1..]);
        ConcatNoPair("\n", StripBlanksBeforeBreaks(s[n + 1..]), IsBlank, IsNewline);
      } else {
        NoBlankBeforeBreak(s[n..]);
        var head := s[..n];
        forall i | 1 <= i < |head| ensures !IsNewline(head[i]) {
          RunHolds(s, IsBlank, i);
        }
        NoSecondNoPair(head, IsBlank, IsNewline);
        if n < |s| {
          StripBlanksHead(s[n..]);
        }
        ConcatNoPair(head, StripBlanksBeforeBreaks(s[n..]), IsBlank, IsNewline);
      }
    }
  }

  /** Without a space or tab before a newline there is nothing for the
      corrected step to remove. */
  lemma {:induction false} StripBlanksUnchanged(s: string)
    requires NoBlankBeforeBreaks(s)
    ensures StripBlanksBeforeBreaks(s) == s
    decreases |s|
  {
    if |s| > 0 {
      var n := RunLength(s, IsBlank);
      if n > 0 && n < |s| && s[n] == '\n' {
        RunHolds(s, IsBlank, n - 1);
        assert PairAt(s, n - 1, IsBlank, IsNewline);
      }
      var k := if n == 0 then 1 else n;
      SliceNoPair(s, k, |s|, IsBlank, IsNewline);
      StripBlanksUnchanged(s[k..]);
      assert s == s[..k] + s[k..];
    }
  }

  /** .replace(/\n{3,}/g, '\n\n'): three or more newlines in a row become
      two. */
  function CapBreaks(s: string): (r: string)
    decreases |s|
  {
    if |s| == 0 then ""
    else
      var n := RunLength(s, IsNewline);
      if n == 0 then [s[0]] + CapBreaks(s[1..])
      else (if n >= 3 then "\n\n" else s[..n]) + CapBreaks(s[n..])
  }

  lemma {:induction false} CapBreaksTidy(s: string)
    requires AllTidy(s)
    ensures AllTidy(CapBreaks(s))
    decreases |s|
  {
    if |s| > 0 {
      assert IsTidy('\n');
      var n := RunLength(s, IsNewline);
      var k := if n == 0 then 1 else n;
      CapBreaksTidy(s[k..]);
      ConcatTidy(if n == 0 then [s[0]] else if n >= 3 then "\n\n" else s[..n], CapBreaks(s[k..]));
    }
  }

  /** CapBreaks starts with a newline exactly when its input does, and
      keeps any other first character. */
  lemma CapBreaksHead(s: string)
    requires |s| > 0
    ensures |CapBreaks(s)| > 0 && (CapBreaks(s)[0] == '\n' <==> s[0] == '\n')
    ensures s[0] != '\n' ==> CapBreaks(s) == [s[0]] + CapBreaks(s[1..])
  {
  }

  /** After CapBreaks no three newlines are adjacent. */
  lemma {:induction false} CapBreaksNoTriples(s: string)
    ensures NoBreakTriples(CapBreaks(s))
    decreases |s|
  {
    if |s| > 0 {
      var n := RunLength(s, IsNewline);
      var k := if n == 0 then 1 else n;
      CapBreaksNoTriples(s[k..]);
      if n > 0 && n < |s| {
        CapBreaksHead(s[n..]);
      }
      ConcatNoTriples(if n == 0 then [s[0]] else if n >= 3 then "\n\n" else s[..n], CapBreaks(s[k..]));
    }
  }

  /** Without three newlines in a row there is nothing for CapBreaks to
      do. */
  lemma {:induction false} CapBreaksUnchanged(s: string)
    requires NoBreakTriples(s)
    ensures CapBreaks(s) == s
    decreases |s|
  {
    if |s| > 0 {
      var n := RunLength(s, IsNewline);
      if n >= 3 {
        RunHolds(s, IsNewline, 1);
        RunHolds(s, IsNewline, 2);
        assert BreakTripleAt(s, 0);
        assert false;
      } else {
        var k := if n == 0 then 1 else n;
        SliceNoTriples(s, k, |s|);
        CapBreaksUnchanged(s[k..]);
        assert CapBreaks(s) == s[..k] + CapBreaks(s[k..]);
        assert s == s[..k] + s[k..];
      }
    }
  }

  /** CapBreaks only shortens runs of newlines, so it puts no space or tab
      before a newline. */
  lemma {:induction false} CapBreaksKeepsNoBlankBefore(s: string)
    requires NoBlankBeforeBreaks(s)
    ensures NoBlankBeforeBreaks(CapBreaks(s))
    decreases |s|
  {
    if |s| > 0 {
      var n := RunLength(s, IsNewline);
      var k := if n == 0 then 1 else n;
      SliceNoPair(s, k, |s|, IsBlank, IsNewline);
      CapBreaksKeepsNoBlankBefore(s[k..]);
      if n == 0 {
        var tail := CapBreaks(s[1..]);
        if |s| > 1 {
          CapBreaksHead(s[1..]);
          assert !PairAt(s, 0, IsBlank, IsNewline);
          assert IsBlank(s[0]) ==> tail[0] != '\n';
        }
        assert NoPair([s[0]], IsBlank, IsNewline);
        ConcatNoPair([s[0]], tail, IsBlank, IsNewline);
      } else {
        var head := if n >= 3 then "\n\n" else s[..n];
        assert NoPair(head, IsBlank, IsNewline) by {
          forall i | 0 <= i < |head| - 1 ensures !PairAt(head, i, IsBlank, IsNewline) {
            if n < 3 {
              RunHolds(s, IsNewline, i);
            }
          }
        }
        ConcatNoPair(head, CapBreaks(s[n..]), IsBlank, IsNewline);
      }
    }
  }

  /** .replace(/[ \t]{2,}/g, ' '): two or more spaces and tabs in a row
      become one space. */
  function CollapseBlanks(s: string): (r: string)
    decreases |s|
  {
    if |s| == 0 then ""
    else
      var n := RunLength(s, IsBlank);
      if n >= 2 then " " + CollapseBlanks(s[n..])
      else [s[0]] + CollapseBlanks(s[1..])
  }

  lemma {:induction false} CollapseTidy(s: string)
    requires AllTidy(s)
    ensures AllTidy(CollapseBlanks(s))
    decreases |s|
  {
    if |s| > 0 {
      assert IsTidy(' ');
      var n := RunLength(s, IsBlank);
      var k := if n >= 2 then n else 1;
      CollapseTidy(s[k..]);
      ConcatTidy(if n >= 2 then " " else [s[0]], CollapseBlanks(s[k..]));
    }
  }

  /** A character other than a space or tab passes through CollapseBlanks
      as it is, and a space or tab leads to a space or tab. */
  lemma CollapseHead(s: string)
    requires |s| > 0
    ensures !IsBlank(s[0]) ==> CollapseBlanks(s) == [s[0]] + CollapseBlanks(s[1..])
    ensures IsBlank(s[0]) ==> |CollapseBlanks(s)| > 0 && IsBlank(CollapseBlanks(s)[0])
  {
  }

  /** After CollapseBlanks no two spaces or tabs are adjacent. */
  lemma {:induction false} CollapseNoBlankPairs(s: string)
    ensures NoBlankPairs(CollapseBlanks(s))
    decreases |s|
  {
    if |s| > 0 {
      var n := RunLength(s, IsBlank);
      var k := if n >= 2 then n else 1;
      CollapseNoBlankPairs(s[k..]);
      if IsBlank(s[0]) && k < |s| {
        assert !IsBlank(s[k]) by {
          if n < 2 {
            assert RunLength(s[1..], IsBlank) == 0;
          }
        }
        CollapseHead(s[k..]);
      }
      ConcatNoPair(if n >= 2 then " " else [s[0]], CollapseBlanks(s[k..]), IsBlank, IsBlank);
    }
  }

  /** CollapseBlanks neither makes nor breaks a run of newlines, so it keeps
      a text without blank lines without them. */
  lemma {:induction false} CollapseKeepsNoBlankLines(s: string)
    requires NoBlankLines(s)
    ensures NoBlankLines(CollapseBlanks(s))
    decreases |s|
  {
    if |s| > 0 {
      var n := RunLength(s, IsBlank);
      var k := if n >= 2 then n else 1;
      SliceNoPair(s, k, |s|, IsNewline, IsNewline);
      CollapseKeepsNoBlankLines(s[k..]);
      if s[0] == '\n' && |s| > 1 {
        assert !PairAt(s, 0, IsNewline, IsNewline);
        CollapseHead(s[1..]);
      }
      ConcatNoPair(if n >= 2 then " " else [s[0]], CollapseBlanks(s[k..]), IsNewline, IsNewline);
    }
  }

  /** CollapseBlanks puts no space or tab before a newline. */
  lemma {:induction false} CollapseKeepsNoBlankBefore(s: string)
    requires NoBlankBeforeBreaks(s)
    ensures NoBlankBeforeBreaks(CollapseBlanks(s))
    decreases |s|
  {
    if |s| > 0 {
      var n := RunLength(s, IsBlank);
      var k := if n >= 2 then n else 1;
      SliceNoPair(s, k, |s|, IsBlank, IsNewline);
      CollapseKeepsNoBlankBefore(s[k..]);
      if IsBlank(s[0]) && k < |s| {
        RunHolds(s, IsBlank, k - 1);
        assert !PairAt(s, k - 1, IsBlank, IsNewline);
        CollapseHead(s[k..]);
      }
      ConcatNoPair(if n >= 2 then " " else [s[0]], CollapseBlanks(s[k..]), IsBlank, IsNewline);
    }
  }

  /** CollapseBlanks makes no three newlines in a row. */
  lemma {:induction false} CollapseKeepsNoTriples(s: string)
    requires NoBreakTriples(s)
    ensures NoBreakTriples(CollapseBlanks(s))
    decreases |s|
  {
    if |s| > 0 {
      var n := RunLength(s, IsBlank);
      var k := if n >= 2 then n else 1;
      SliceNoTriples(s, k, |s|);
      CollapseKeepsNoTriples(s[k..]);
      if s[0] == '\n' && |s| > 1 {
        CollapseHead(s[1..]);
        if s[1] == '\n' && |s| > 2 {
          assert !BreakTripleAt(s, 0);
          CollapseHead(s[2..]);
        }
      }
      ConcatNoTriples(if n >= 2 then " " else [s[0]], CollapseBlanks(s[k..]));
    }
  }

  /** Without two adjacent spaces or tabs there is nothing for
      CollapseBlanks to do. */
  lemma {:induction false} CollapseUnchanged(s: string)
    requires NoBlankPairs(s)
    ensures CollapseBlanks(s) == s
    decreases |s|
  {
    if |s| > 0 {
      if |s| > 1 {
        assert !PairAt(s, 0, IsBlank, IsBlank);
        assert RunLength(s, IsBlank) < 2 by {
          if IsBlank(s[0]) {
            assert !IsBlank(s[1..][0]);
          }
        }
      }
      SliceNoPair(s, 1, |s|, IsBlank, IsBlank);
      CollapseUnchanged(s[1..]);
      assert s == [s[0]] + s[1..];
    }
  }

  /** The trimmed text is a run of the text, so it keeps the text's
      character and pair properties. */
  lemma TrimKeeps(s: string)
    ensures AllTidy(s) ==> AllTidy(Trim(s))
    ensures NoBlankLines(s) ==> NoBlankLines(Trim(s))
    ensures NoBreakTriples(s) ==> NoBreakTriples(Trim(s))
    ensures NoBlankBeforeBreaks(s) ==> NoBlankBeforeBreaks(Trim(s))
    ensures NoBlankPairs(s) ==> NoBlankPairs(Trim(s))
  {
    var o := TrimOffset(s);
    var hi := o + |Trim(s)|;
    TrimChars(s);
    assert Trim(s) == s[o..hi];
    if NoBlankLines(s) {
      SliceNoPair(s, o, hi, IsNewline, IsNewline);
    }
    if NoBlankBeforeBreaks(s) {
      SliceNoPair(s, o, hi, IsBlank, IsNewline);
    }
    if NoBlankPairs(s) {
      SliceNoPair(s, o, hi, IsBlank, IsBlank);
    }
    if NoBreakTriples(s) {
      SliceNoTriples(s, o, hi);
    }
  }

  // ---------------------------------------------------------------------
  // the chain

  /** The steps up to the one that removes white space before newlines. */
  function Prepared(text: string): (r: string)
    ensures AllTidy(r)
  {
    TabsToSpace(DropControls(UnifyBreaks(text)))
  }

  /** cleanDocContent as written: null or undefined give "". The result is
      tidy and trimmed, and holds no blank line at all. */
  function CleanDocContentAsWritten(text: Option<string>): (r: string)
    ensures AllTidy(r)
    ensures |r| > 0 ==> !IsJsSpace(r[0]) && !IsJsSpace(r[|r| - 1])
    ensures NoBlankLines(r)
  {
    if text.None? then ""
    else
      var stripped := StripBeforeBreaksAsWritten(Prepared(text.value));
      StripAsWrittenTidy(Prepared(text.value), IsJsSpace);
      assert IsJsSpace('\n');
      StripAsWrittenNoBlankLines(Prepared(text.value), IsJsSpace);
      NoPairsNoTriples(stripped);
      CapBreaksUnchanged(stripped);
      var collapsed := CollapseBlanks(CapBreaks(stripped));
      CollapseTidy(stripped);
      CollapseKeepsNoBlankLines(stripped);
      TrimKeeps(collapsed);
      Trim(collapsed)
  }

  /** What the corrected cleanup leaves: tidy, trimmed, no space or tab
      before a newline or next to another, no three newlines in a row. */
  predicate Cleaned(s: string) {
    && AllTidy(s)
    && (|s| > 0 ==> !IsJsSpace(s[0]) && !IsJsSpace(s[|s| - 1]))
    && NoBlankBeforeBreaks(s)
    && NoBlankPairs(s)
    && NoBreakTriples(s)
  }

  /** cleanDocContent with spaces and tabs, not all white space, removed
      before a newline. The result is tidy and trimmed, no space or tab
      stands before a newline or next to another, and no more than one blank
      line separates two lines. */
  function CleanDocContent(text: Option<string>): (r: string)
    ensures Cleaned(r)
  {
    if text.None? then ""
    else
      var stripped := StripBlanksBeforeBreaks(Prepared(text.value));
      StripBlanksTidy(Prepared(text.value));
      NoBlankBeforeBreak(Prepared(text.value));
      var capped := CapBreaks(stripped);
      CapBreaksTidy(stripped);
      CapBreaksNoTriples(stripped);
      CapBreaksKeepsNoBlankBefore(stripped);
      var collapsed := CollapseBlanks(capped);
      CollapseTidy(capped);
      CollapseKeepsNoTriples(capped);
      CollapseKeepsNoBlankBefore(capped);
      CollapseNoBlankPairs(capped);
      TrimKeeps(collapsed);
      Trim(collapsed)
  }

  lemma {:induction false} UnifyBreaksUnchanged(s: string)
    requires forall i :: 0 <= i < |s| ==> s[i] != '\r'
    ensures UnifyBreaks(s) == s
    decreases |s|
  {
    if |s| > 0 {
      UnifyBreaksUnchanged(s[1..]);
      assert s == [s[0]] + s[1..];
    }
  }

  lemma {:induction false} TabsToSpaceUnchanged(s: string)
    requires forall i :: 0 <= i < |s| ==> s[i] != '\t'
    ensures TabsToSpace(s) == s
    decreases |s|
  {
    if |s| > 0 {
      TabsToSpaceUnchanged(s[1..]);
      assert s == [s[0]] + s[1..];
    }
  }

  /** Tidy text passes the first steps unchanged. */
  lemma PreparedUnchanged(s: string)
    requires AllTidy(s)
    ensures Prepared(s) == s
  {
    UnifyBreaksUnchanged(s);
    KeepUnchanged(s, KeepsChar);
    TabsToSpaceUnchanged(s);
  }

  /** Cleaned text is left as it is. */
  lemma CleanedUnchanged(s: string)
    requires Cleaned(s)
    ensures CleanDocContent(Some(s)) == s
  {
    PreparedUnchanged(s);
    StripBlanksUnchanged(s);
    CapBreaksUnchanged(s);
    CollapseUnchanged(s);
    if |s| > 0 {
      TrimUnchanged(s);
    }
  }

  /** Cleaning twice is cleaning once. */
  lemma CleanDocContentIdempotent(text: Option<string>)
    ensures CleanDocContent(Some(CleanDocContent(text))) == CleanDocContent(text)
  {
    CleanedUnchanged(CleanDocContent(text));
  }

  /** A paragraph break: as written it is lost. */
  // ---------------------------------------------------------------------
  // what the cleanup keeps: every step only drops, replaces or moves white
  // space and control characters, so the visible characters '!'..'~' come
  // through unchanged and in order

  lemma {:induction false} UnifyBreaksVisible(s: string)
    ensures Keep(UnifyBreaks(s), IsVisible) == Keep(s, IsVisible)
    decreases |s|
  {
    if |s| > 0 {
      if s[0] == '\r' && |s| > 1 && s[1] == '\n' {
        UnifyBreaksVisible(s[2..]);
        InvisiblePrefix("\n", UnifyBreaks(s[2..]));
        KeepSkip(s, 2, IsVisible);
      } else if s[0] == '\r' {
        UnifyBreaksVisible(s[1..]);
        InvisiblePrefix("\n", UnifyBreaks(s[1..]));
        KeepSkip(s, 1, IsVisible);
      } else {
        UnifyBreaksVisible(s[1..]);
        KeepHead(s[0], UnifyBreaks(s[1..]), IsVisible);
        KeepHead(s[0], s[1..], IsVisible);
        assert [s[0]] + s[1..] == s;
      }
    }
  }

  lemma DropControlsVisible(s: string)
    ensures Keep(DropControls(s), IsVisible) == Keep(s, IsVisible)
  {
    KeepWiderFirst(s, KeepsChar);
  }

  lemma {:induction false} TabsToSpaceVisible(s: string)
    ensures Keep(TabsToSpace(s), IsVisible) == Keep(s, IsVisible)
    decreases |s|
  {
    if |s| > 0 {
      if s[0] == '\t' {
        var n := RunLength(s, IsTab);
        forall i | 0 <= i < n ensures !IsVisible(s[i]) {
          RunHolds(s, IsTab, i);
        }
        TabsToSpaceVisible(s[n..]);
        InvisiblePrefix(" ", TabsToSpace(s[n..]));
        KeepSkip(s, n, IsVisible);
      } else {
        TabsToSpaceVisible(s[1..]);
        KeepHead(s[0], TabsToSpace(s[1..]), IsVisible);
        KeepHead(s[0], s[1..], IsVisible);
        assert [s[0]] + s[1..] == s;
      }
    }
  }

  /** The as-written step, for any class of space characters none of which
      is visible (\s is such a class). */
  lemma {:induction false} StripRunsVisible(s: string, space: char -> bool)
    requires forall c :: space(c) ==> !IsVisible(c)
    ensures Keep(StripRunsBeforeBreaks(s, space), IsVisible) == Keep(s, IsVisible)
    decreases |s|
  {
    if |s| > 0 {
      var m := AsWrittenNext(s, space);
      var piece := AsWrittenPiece(s, space);
      var rest := StripRunsBeforeBreaks(s[m..], space);
      StripRunsVisible(s[m..], space);
      KeepConcat(piece, rest, IsVisible);
      if !space(s[0]) {
        KeepHead(s[0], s[1..], IsVisible);
        assert [s[0]] + s[1..] == s;
        KeepHead(s[0], "", IsVisible);
        assert [s[0]] + "" == piece;
      } else {
        var n := RunLength(s, space);
        forall i | 0 <= i < n ensures !IsVisible(s[i]) {
          RunHolds(s, space, i);
        }
        assert m <= n;
        KeepSkip(s, m, IsVisible);
        InvisiblePrefix(piece, rest);
      }
    }
  }

  lemma {:induction false} StripBlanksVisible(s: string)
    ensures Keep(StripBlanksBeforeBreaks(s), IsVisible) == Keep(s, IsVisible)
    decreases |s|
  {
    if |s| > 0 {
      var n := RunLength(s, IsBlank);
      forall i | 0 <= i < n ensures !IsVisible(s[i]) {
        RunHolds(s, IsBlank, i);
      }
      if n == 0 {
        StripBlanksVisible(s[1..]);
        KeepHead(s[0], StripBlanksBeforeBreaks(s[1..]), IsVisible);
        KeepHead(s[0], s[1..], IsVisible);
        assert [s[0]] + s[1..] == s;
      } else if n < |s| && s[n] == '\n' {
        StripBlanksVisible(s[n + 1..]);
        InvisiblePrefix("\n", StripBlanksBeforeBreaks(s[n + 1..]));
        KeepSkip(s, n + 1, IsVisible);
      } else {
        StripBlanksVisible(s[n..]);
        InvisiblePrefix(s[..n], StripBlanksBeforeBreaks(s[n..]));
        KeepSkip(s, n, IsVisible);
      }
    }
  }

  lemma {:induction false} CapBreaksVisible(s: string)
    ensures Keep(CapBreaks(s), IsVisible) == Keep(s, IsVisible)
    decreases |s|
  {
    if |s| > 0 {
      var n := RunLength(s, IsNewline);
      if n == 0 {
        CapBreaksVisible(s[1..]);
        KeepHead(s[0], CapBreaks(s[1..]), IsVisible);
        KeepHead(s[0], s[1..], IsVisible);
        assert [s[0]] + s[1..] == s;
      } else {
        forall i | 0 <= i < n ensures !IsVisible(s[i]) {
          RunHolds(s, IsNewline, i);
        }
        CapBreaksVisible(s[n..]);
        InvisiblePrefix(if n >= 3 then "\n\n" else s[..n], CapBreaks(s[n..]));
        KeepSkip(s, n, IsVisible);
      }
    }
  }

  lemma {:induction false} CollapseBlanksVisible(s: string)
    ensures Keep(CollapseBlanks(s), IsVisible) == Keep(s, IsVisible)
    decreases |s|
  {
    if |s| > 0 {
      var n := RunLength(s, IsBlank);
      if n >= 2 {
        forall i | 0 <= i < n ensures !IsVisible(s[i]) {
          RunHolds(s, IsBlank, i);
        }
        CollapseBlanksVisible(s[n..]);
        InvisiblePrefix(" ", CollapseBlanks(s[n..]));
        KeepSkip(s, n, IsVisible);
      } else {
        CollapseBlanksVisible(s[1..]);
        KeepHead(s[0], CollapseBlanks(s[1..]), IsVisible);
        KeepHead(s[0], s[1..], IsVisible);
        assert [s[0]] + s[1..] == s;
      }
    }
  }

  lemma PreparedVisible(t: string)
    ensures Keep(Prepared(t), IsVisible) == Keep(t, IsVisible)
  {
    UnifyBreaksVisible(t);
    DropControlsVisible(UnifyBreaks(t));
    TabsToSpaceVisible(DropControls(UnifyBreaks(t)));
  }

  /** The corrected cleanup keeps every visible character of the text, in
      order; only white space and control characters change. */
  lemma CleanDocContentVisible(t: string)
    ensures Keep(CleanDocContent(Some(t)), IsVisible) == Keep(t, IsVisible)
  {
    var prepared := Prepared(t);
    var stripped := StripBlanksBeforeBreaks(prepared);
    var capped := CapBreaks(stripped);
    var collapsed := CollapseBlanks(capped);
    PreparedVisible(t);
    StripBlanksVisible(prepared);
    CapBreaksVisible(stripped);
    CollapseBlanksVisible(capped);
    TrimKeepsVisible(collapsed);
  }

  /** The chain as written keeps every visible character too: what it loses
      are the blank lines. */
  lemma CleanDocContentAsWrittenVisible(t: string)
    ensures Keep(CleanDocContentAsWritten(Some(t)), IsVisible) == Keep(t, IsVisible)
  {
    var prepared := Prepared(t);
    var stripped := StripBeforeBreaksAsWritten(prepared);
    var capped := CapBreaks(stripped);
    var collapsed := CollapseBlanks(capped);
    PreparedVisible(t);
    StripRunsVisible(prepared, IsJsSpace);
    CapBreaksVisible(stripped);
    CollapseBlanksVisible(capped);
    TrimKeepsVisible(collapsed);
  }

  lemma ParagraphBreakLostAsWritten()
    ensures CleanDocContentAsWritten(Some("a\n\nb")) == "a\nb"
  {
    var s := "a\n\nb";
    var t := "a\nb";
    PlainExample();
    PreparedUnchanged(s);
    StripAsWrittenExample();
    CapBreaksUnchanged(t);
    CollapseUnchanged(t);
    TrimUnchanged(t);
  }

  /** A paragraph break: the corrected cleanup keeps it. */
  lemma ParagraphBreakKept()
    ensures CleanDocContent(Some("a\n\nb")) == "a\n\nb"
  {
    PlainExample();
    CleanedUnchanged("a\n\nb");
  }

  lemma PlainExample()
    ensures Cleaned("a\n\nb") && Cleaned("a\nb")
  {
    assert IsTidy('a') && IsTidy('b') && IsTidy('\n');
    assert !IsJsSpace('a') && !IsJsSpace('b');
    var s := "a\n\nb";
    assert !BreakTripleAt(s, 0) && !BreakTripleAt(s, 1);
  }

  lemma StripAsWrittenExample()
    ensures StripBeforeBreaksAsWritten("a\n\nb") == "a\nb"
  {
    var s := "a\n\nb";
    assert AsWrittenPiece(s, IsJsSpace) == "a" && AsWrittenNext(s, IsJsSpace) == 1;
    assert s[1..] == "\n\nb";
    assert RunLength("\n\nb", IsJsSpace) == 2 by {
      assert "\n\nb"[1..] == "\nb" && "\nb"[1..] == "b";
      assert RunLength("b", IsJsSpace) == 0;
    }
    assert "\n\nb"[..2] == "\n\n";
    assert LastBreak("\n\n") == 1;
    assert AsWrittenPiece("\n\nb", IsJsSpace) == "\n" && AsWrittenNext("\n\nb", IsJsSpace) == 2;
    assert "\n\nb"[2..] == "b";
    assert StripRunsBeforeBreaks("b", IsJsSpace) == "b" by {
      assert AsWrittenPiece("b", IsJsSpace) == "b" && AsWrittenNext("b", IsJsSpace) == 1;
      assert "b"[1..] == "";
    }
  }
}
