/** Character classes and string operations with the JavaScript meaning the
    source relies on: String.prototype.split on one character or on a run of
    line breaks, Array.prototype.join, String.prototype.trim, the regular
    expression class \s, and ASCII case mapping. Strings are sequences of
    Unicode scalar values. */
module Strings {

  /** One byte of a file buffer. */
  type Byte = b: int | 0 <= b < 256

  function Min(a: int, b: int): int { if a <= b then a else b }

  /** The class [\x20-\x7E]. */
  predicate IsPrintable(c: char) { ' ' <= c <= '~' }

  /** The class [\r\n]. */
  predicate IsLineBreak(c: char) { c == '\r' || c == '\n' }

  predicate IsAsciiLetter(c: char) { 'a' <= c <= 'z' || 'A' <= c <= 'Z' }

  predicate IsAsciiDigit(c: char) { '0' <= c <= '9' }

  /** The class [\x21-\x7E]: the printable ASCII characters other than the
      space, which are also the printable ones outside \s. */
  predicate IsVisible(c: char) { '!' <= c <= '~' }

  /** The class [a-zA-Z0-9]. */
  predicate IsAsciiAlnum(c: char) { IsAsciiLetter(c) || IsAsciiDigit(c) }

  /** The class \s of JavaScript regular expressions, which is also what
      String.prototype.trim removes: WhiteSpace and LineTerminator. */
  predicate IsJsSpace(c: char) {
    if c < '\U{00A0}' then c == ' ' || '\t' <= c <= '\r' else IsWideSpace(c)
  }

  /** The white space of \s outside ASCII. */
  predicate IsWideSpace(c: char) {
    || c == '\U{00A0}' || c == '\U{1680}' || ('\U{2000}' <= c <= '\U{200A}')
    || c == '\U{2028}' || c == '\U{2029}' || c == '\U{202F}' || c == '\U{205F}'
    || c == '\U{3000}' || c == '\U{FEFF}'
  }

  function UpperChar(c: char): char {
    if 'a' <= c <= 'z' then (c as int - 32) as char else c
  }

  function LowerChar(c: char): char {
    if 'A' <= c <= 'Z' then (c as int + 32) as char else c
  }

  /** toUpperCase, for ASCII letters. */
  function Upper(s: string): string {
    seq(|s|, i requires 0 <= i < |s| => UpperChar(s[i]))
  }

  /** toLowerCase, for ASCII letters. */
  function Lower(s: string): string {
    seq(|s|, i requires 0 <= i < |s| => LowerChar(s[i]))
  }

  predicate StartsWith(s: string, prefix: string) {
    |prefix| <= |s| && s[..|prefix|] == prefix
  }

  predicate EndsWith(s: string, suffix: string) {
    |suffix| <= |s| && s[|s| - |suffix|..] == suffix
  }

  /** String.prototype.includes. */
  predicate Contains(s: string, part: string)
    decreases |s|
  {
    StartsWith(s, part) || (|s| > 0 && Contains(s[1..], part))
  }

  /** The characters of s that satisfy keep, in order: s.replace(/[^…]/g, ''). */
  function Keep(s: string, keep: char -> bool): (r: string)
    ensures |r| <= |s|
    ensures forall i :: 0 <= i < |r| ==> keep(r[i])
    decreases |s|
  {
    if |s| == 0 then ""
    else if keep(s[0]) then [s[0]] + Keep(s[1..], keep)
    else Keep(s[1..], keep)
  }

  lemma {:induction false} KeepUnchanged(s: string, keep: char -> bool)
    requires forall i :: 0 <= i < |s| ==> keep(s[i])
    ensures Keep(s, keep) == s
    decreases |s|
  {
    if |s| > 0 {
      KeepUnchanged(s[1..], keep);
    }
  }

  /** Keeping from a concatenation keeps from each part. */
  lemma {:induction false} KeepConcat(a: string, b: string, keep: char -> bool)
    ensures Keep(a + b, keep) == Keep(a, keep) + Keep(b, keep)
    decreases |a|
  {
    if |a| > 0 {
      assert (a + b)[1..] == a[1..] + b;
      KeepConcat(a[1..], b, keep);
    } else {
      assert a + b == b;
    }
  }

  /** A prefix none of whose characters is kept contributes nothing. */
  lemma {:induction false} KeepSkip(s: string, n: nat, keep: char -> bool)
    requires n <= |s|
    requires forall i :: 0 <= i < n ==> !keep(s[i])
    ensures Keep(s, keep) == Keep(s[n..], keep)
    decreases n
  {
    if n > 0 {
      assert s[1..][n - 1..] == s[n..];
      KeepSkip(s[1..], n - 1, keep);
    }
  }

  /** Keeping from a string that starts with c. */
  lemma KeepHead(c: char, t: string, keep: char -> bool)
    ensures Keep([c] + t, keep) == (if keep(c) then [c] else "") + Keep(t, keep)
  {
    assert ([c] + t)[1..] == t;
  }

  /** Characters none of which is visible add nothing visible in front. */
  lemma InvisiblePrefix(p: string, t: string)
    requires forall i :: 0 <= i < |p| ==> !IsVisible(p[i])
    ensures Keep(p + t, IsVisible) == Keep(t, IsVisible)
  {
    KeepSkip(p + t, |p|, IsVisible);
    assert (p + t)[|p|..] == t;
  }

  /** Dropping characters that are never visible drops no visible one. */
  lemma {:induction false} KeepWiderFirst(s: string, wide: char -> bool)
    requires forall c :: IsVisible(c) ==> wide(c)
    ensures Keep(Keep(s, wide), IsVisible) == Keep(s, IsVisible)
    decreases |s|
  {
    if |s| > 0 {
      KeepWiderFirst(s[1..], wide);
      if wide(s[0]) {
        KeepHead(s[0], Keep(s[1..], wide), IsVisible);
      }
    }
  }

  /** Every character Keep keeps comes from s. */
  lemma {:induction false} KeepFrom(s: string, keep: char -> bool)
    ensures forall i :: 0 <= i < |Keep(s, keep)| ==> Keep(s, keep)[i] in s
    decreases |s|
  {
    if |s| > 0 {
      KeepFrom(s[1..], keep);
      assert forall c :: c in s[1..] ==> c in s;
    }
  }

  /** Every character c of s, replaced by with when it is equal to c0. */
  function ReplaceChar(s: string, c0: char, with: char): (r: string)
    ensures |r| == |s|
    ensures forall i :: 0 <= i < |s| ==> r[i] == (if s[i] == c0 then with else s[i])
  {
    seq(|s|, i requires 0 <= i < |s| => if s[i] == c0 then with else s[i])
  }

  // ---------------------------------------------------------------------
  // split and join

  /** s.split(sep) for a one-character separator. */
  function Split(s: string, sep: char): (r: seq<string>)
    ensures |r| >= 1
    ensures forall i :: 0 <= i < |r| ==> sep !in r[i]
    decreases |s|
  {
    if |s| == 0 then [""]
    else
      var rest := Split(s[1..], sep);
      if s[0] == sep then [""] + rest
      else [[s[0]] + rest[0]] + rest[1..]
  }

  /** The first piece of a split is the text before the first separator. */
  lemma {:induction false} SplitHead(s: string, sep: char)
    ensures |Split(s, sep)[0]| <= |s|
    ensures s[..|Split(s, sep)[0]|] == Split(s, sep)[0]
    ensures |Split(s, sep)[0]| < |s| ==> s[|Split(s, sep)[0]|] == sep
    decreases |s|
  {
    if |s| > 0 && s[0] != sep {
      SplitHead(s[1..], sep);
    }
  }

  /** parts.join(sep). */
  function Join(parts: seq<string>, sep: string): string
    decreases |parts|
  {
    if |parts| == 0 then ""
    else if |parts| == 1 then parts[0]
    else parts[0] + sep + Join(parts[1..], sep)
  }

  lemma {:induction false} SplitAfterPiece(a: string, t: string, sep: char)
    requires sep !in a
    ensures Split(a + t, sep) == [a + Split(t, sep)[0]] + Split(t, sep)[1..]
    decreases |a|
  {
    var x := Split(t, sep);
    if |a| > 0 {
      var u := a + t;
      assert a[0] in a;
      assert u[0] == a[0] && u[0] != sep && u[1..] == a[1..] + t;
      assert sep !in a[1..] by {
        forall i | 0 <= i < |a| - 1 ensures a[1..][i] != sep {
          assert a[1..][i] == a[i + 1] && a[i + 1] in a;
        }
      }
      SplitAfterPiece(a[1..], t, sep);
      var rest := Split(u[1..], sep);
      assert rest[0] == a[1..] + x[0] && rest[1..] == x[1..];
      assert Split(u, sep) == [[a[0]] + rest[0]] + rest[1..];
      assert [a[0]] + (a[1..] + x[0]) == a + x[0];
    } else {
      assert a + t == t;
      assert a + x[0] == x[0];
      assert [x[0]] + x[1..] == x;
    }
  }

  /** Splitting a join gives the parts back when no part holds the separator. */
  lemma {:induction false} SplitOfJoin(parts: seq<string>, sep: char)
    requires |parts| >= 1
    requires forall i :: 0 <= i < |parts| ==> sep !in parts[i]
    ensures Split(Join(parts, [sep]), sep) == parts
    decreases |parts|
  {
    if |parts| == 1 {
      SplitAfterPiece(parts[0], "", sep);
      assert parts[0] + "" == parts[0];
    } else {
      var rest := Join(parts[1..], [sep]);
      SplitOfJoin(parts[1..], sep);
      assert Join(parts, [sep]) == parts[0] + ([sep] + rest);
      SplitAfterPiece(parts[0], [sep] + rest, sep);
      assert ([sep] + rest)[1..] == rest;
      assert Split([sep] + rest, sep) == [""] + parts[1..];
      assert parts[0] + "" == parts[0];
    }
  }

  lemma {:induction false} JoinConsSplit(s: string, sep: char)
    requires |s| > 0
    ensures Join(Split(s, sep), [sep]) == (if s[0] == sep then [sep] + Join(Split(s[1..], sep), [sep])
                                           else [s[0]] + Join(Split(s[1..], sep), [sep]))
  {
    var rest := Split(s[1..], sep);
    if s[0] == sep {
      assert Split(s, sep) == [""] + rest;
      assert ([""] + rest)[1..] == rest;
    } else {
      var first := [s[0]] + rest[0];
      assert Split(s, sep) == [first] + rest[1..];
      if |rest| == 1 {
        assert Join([first] + rest[1..], [sep]) == first;
      } else {
        assert ([first] + rest[1..])[1..] == rest[1..];
        assert Join(rest, [sep]) == rest[0] + [sep] + Join(rest[1..], [sep]);
      }
    }
  }

  /** Joining a split gives the string back. */
  lemma {:induction false} JoinOfSplit(s: string, sep: char)
    ensures Join(Split(s, sep), [sep]) == s
    decreases |s|
  {
    if |s| > 0 {
      JoinConsSplit(s, sep);
      JoinOfSplit(s[1..], sep);
      assert s == [s[0]] + s[1..];
    }
  }

  /** Joining the first m parts gives a prefix of joining all of them. */
  lemma {:induction false} JoinOfPrefix(parts: seq<string>, m: nat, sep: string)
    requires m <= |parts|
    ensures StartsWith(Join(parts, sep), Join(parts[..m], sep))
    decreases |parts|
  {
    if m == 0 {
    } else if m == |parts| {
      assert parts[..m] == parts;
    } else if m == 1 {
      assert parts[..1] == [parts[0]];
      assert Join(parts, sep) == parts[0] + (sep + Join(parts[1..], sep));
    } else {
      JoinOfPrefix(parts[1..], m - 1, sep);
      assert parts[..m][1..] == parts[1..][..m - 1];
      var head := parts[0] + sep;
      assert Join(parts[..m], sep) == head + Join(parts[1..][..m - 1], sep);
      assert Join(parts, sep) == head + Join(parts[1..], sep);
    }
  }

  // ---------------------------------------------------------------------
  // split(/[\r\n]+/)

  /** The length of the leading run of line breaks. */
  function LeadingBreaks(s: string): (n: nat)
    ensures n <= |s|
    ensures forall i :: 0 <= i < n ==> IsLineBreak(s[i])
    ensures n < |s| ==> !IsLineBreak(s[n])
    decreases |s|
  {
    if |s| > 0 && IsLineBreak(s[0]) then
      var n := 1 + LeadingBreaks(s[1..]);
      assert forall i :: 1 <= i < n ==> s[i] == s[1..][i - 1];
      n
    else 0
  }

  /** s.split(/[\r\n]+/): the pieces between maximal runs of CR and LF; a
      leading or trailing run yields an empty first or last piece. */
  function SplitLineRuns(s: string): (r: seq<string>)
    ensures |r| >= 1
    ensures forall i, j :: 0 <= i < |r| && 0 <= j < |r[i]| ==> !IsLineBreak(r[i][j])
    decreases |s|
  {
    if |s| == 0 then [""]
    else if IsLineBreak(s[0]) then [""] + SplitLineRuns(s[LeadingBreaks(s)..])
    else
      var rest := SplitLineRuns(s[1..]);
      assert forall j :: 0 <= j < |rest[0]| ==> !IsLineBreak(rest[0][j]);
      [[s[0]] + rest[0]] + rest[1..]
  }

  lemma {:induction false} SplitLineRunsAfterPiece(a: string, t: string)
    requires forall j :: 0 <= j < |a| ==> !IsLineBreak(a[j])
    ensures SplitLineRuns(a + t) == [a + SplitLineRuns(t)[0]] + SplitLineRuns(t)[1..]
    decreases |a|
  {
    var x := SplitLineRuns(t);
    if |a| > 0 {
      var u := a + t;
      assert u[0] == a[0] && u[1..] == a[1..] + t;
      assert forall j :: 0 <= j < |a[1..]| ==> !IsLineBreak(a[1..][j]);
      SplitLineRunsAfterPiece(a[1..], t);
      var rest := SplitLineRuns(u[1..]);
      assert rest == [a[1..] + x[0]] + x[1..];
      assert SplitLineRuns(u) == [[a[0]] + rest[0]] + rest[1..];
      assert [a[0]] + (a[1..] + x[0]) == a + x[0];
    } else {
      assert a + t == t;
      assert a + x[0] == x[0];
      assert [x[0]] + x[1..] == x;
    }
  }

  /** Splitting lines joined by "\n" at line-break runs gives the lines back,
      when every line is non-empty and holds no line break. */
  lemma {:induction false} SplitLineRunsOfJoin(lines: seq<string>)
    requires |lines| >= 1
    requires forall i :: 0 <= i < |lines| ==> |lines[i]| > 0
    requires forall i, j :: 0 <= i < |lines| && 0 <= j < |lines[i]| ==> !IsLineBreak(lines[i][j])
    ensures SplitLineRuns(Join(lines, "\n")) == lines
    decreases |lines|
  {
    if |lines| == 1 {
      SplitLineRunsAfterPiece(lines[0], "");
      assert lines[0] + "" == lines[0];
    } else {
      var rest := Join(lines[1..], "\n");
      SplitLineRunsOfJoin(lines[1..]);
      assert Join(lines, "\n") == lines[0] + ("\n" + rest);
      SplitLineRunsAfterPiece(lines[0], "\n" + rest);
      assert rest[0] == lines[1][0] by {
        if |lines[1..]| == 1 {
        } else {
          assert rest == lines[1] + "\n" + Join(lines[2..], "\n");
        }
      }
      assert LeadingBreaks("\n" + rest) == 1 by {
        assert ("\n" + rest)[1..] == rest;
      }
      assert SplitLineRuns("\n" + rest) == [""] + lines[1..];
      assert lines[0] + "" == lines[0];
    }
  }

  /** The visible characters of a list of lines, in order. */
  function VisibleOfLines(lines: seq<string>): string
    decreases |lines|
  {
    if |lines| == 0 then "" else Keep(lines[0], IsVisible) + VisibleOfLines(lines[1..])
  }

  lemma LinesConcatAssoc(a: seq<string>, b: seq<string>, c: seq<string>)
    ensures a + (b + c) == (a + b) + c
  {
  }

  lemma VisibleOfCons(line: string, lines: seq<string>)
    ensures VisibleOfLines([line] + lines) == Keep(line, IsVisible) + VisibleOfLines(lines)
  {
    assert ([line] + lines)[1..] == lines;
  }

  /** Splitting at line-break runs loses no visible character and adds
      none. */
  lemma {:induction false} SplitLineRunsVisible(s: string)
    ensures VisibleOfLines(SplitLineRuns(s)) == Keep(s, IsVisible)
    decreases |s|
  {
    if |s| > 0 {
      if IsLineBreak(s[0]) {
        var n := LeadingBreaks(s);
        var pieces := SplitLineRuns(s);
        SplitLineRunsVisible(s[n..]);
        KeepSkip(s, n, IsVisible);
        assert pieces[1..] == SplitLineRuns(s[n..]);
        assert Keep(pieces[0], IsVisible) == "";
      } else {
        var rest := SplitLineRuns(s[1..]);
        var pieces := SplitLineRuns(s);
        SplitLineRunsVisible(s[1..]);
        assert pieces[0] == [s[0]] + rest[0] && pieces[1..] == rest[1..];
        assert ([s[0]] + rest[0])[1..] == rest[0];
        assert VisibleOfLines(rest) == Keep(rest[0], IsVisible) + VisibleOfLines(rest[1..]);
      }
    }
  }

  // ---------------------------------------------------------------------
  // whitespace

  /** The length of the leading run of \s characters. */
  function LeadingSpaces(s: string): (n: nat)
    ensures n <= |s|
    ensures forall i :: 0 <= i < n ==> IsJsSpace(s[i])
    ensures n < |s| ==> !IsJsSpace(s[n])
    decreases |s|
  {
    if |s| > 0 && IsJsSpace(s[0]) then
      var n := 1 + LeadingSpaces(s[1..]);
      assert forall i :: 1 <= i < n ==> s[i] == s[1..][i - 1];
      n
    else 0
  }

  /** The length of the trailing run of \s characters. */
  function TrailingSpaces(s: string): (n: nat)
    ensures n <= |s|
    ensures forall i :: |s| - n <= i < |s| ==> IsJsSpace(s[i])
    ensures n < |s| ==> !IsJsSpace(s[|s| - n - 1])
    decreases |s|
  {
    if |s| > 0 && IsJsSpace(s[|s| - 1]) then 1 + TrailingSpaces(s[..|s| - 1]) else 0
  }

  /** Positions i and i + 1 of s both hold \s characters. */
  predicate SpacePairAt(s: string, i: int)
    requires 0 <= i < |s| - 1
  {
    IsJsSpace(s[i]) && IsJsSpace(s[i + 1])
  }

  /** No two \s characters are adjacent in s. */
  predicate NoSpaceRuns(s: string) {
    forall i :: 0 <= i < |s| - 1 ==> !SpacePairAt(s, i)
  }

  /** s.replace(/\s+/g, ' '): every maximal run of \s characters becomes one
      space. */
  function CollapseSpaces(s: string): (r: string)
    ensures |r| == 0 <==> |s| == 0
    ensures |s| > 0 ==> (IsJsSpace(r[0]) <==> IsJsSpace(s[0]))
    ensures forall i :: 0 <= i < |r| ==> r[i] == ' ' || r[i] in s
    ensures forall i :: 0 <= i < |r| ==> (IsJsSpace(r[i]) ==> r[i] == ' ')
    ensures NoSpaceRuns(r)
    ensures Keep(r, IsVisible) == Keep(s, IsVisible)
    decreases |s|
  {
    if |s| == 0 then ""
    else if IsJsSpace(s[0]) then
      var n := LeadingSpaces(s);
      var rest := s[n..];
      assert forall c :: c in rest ==> c in s;
      var tail := CollapseSpaces(rest);
      ConsKeepsNoSpaceRuns(' ', tail);
      KeepSkip(s, n, IsVisible);
      assert (" " + tail)[1..] == tail;
      " " + tail
    else
      var tail := CollapseSpaces(s[1..]);
      ConsKeepsNoSpaceRuns(s[0], tail);
      assert ([s[0]] + tail)[1..] == tail;
      [s[0]] + tail
  }

  /** The replacement read one character at a time, left to right: a \s
      character right after another is dropped, any other \s character
      becomes a space, and every other character is kept. afterSpace says
      whether the character before s was \s. */
  function Squeeze(s: string, afterSpace: bool): string
    decreases |s|
  {
    if |s| == 0 then ""
    else if IsJsSpace(s[0]) then
      (if afterSpace then "" else " ") + Squeeze(s[1..], true)
    else [s[0]] + Squeeze(s[1..], false)
  }

  /** After a \s character, a further run of \s characters changes nothing. */
  lemma {:induction false} SqueezeSkip(s: string, n: nat)
    requires n <= |s|
    requires forall i :: 0 <= i < n ==> IsJsSpace(s[i])
    ensures Squeeze(s, true) == Squeeze(s[n..], true)
    decreases n
  {
    if n > 0 {
      assert s[1..][n - 1..] == s[n..];
      SqueezeSkip(s[1..], n - 1);
    }
  }

  /** Collapsing the maximal runs of \s is the one-pass reading: so each
      maximal run becomes exactly one space, and nothing else changes. */
  lemma {:induction false} CollapseSpacesIsSqueeze(s: string)
    ensures CollapseSpaces(s) == Squeeze(s, false)
    decreases |s|
  {
    if |s| > 0 {
      if IsJsSpace(s[0]) {
        var n := LeadingSpaces(s);
        assert s[1..][n - 1..] == s[n..];
        SqueezeSkip(s[1..], n - 1);
        CollapseSpacesIsSqueeze(s[n..]);
        if n < |s| {
          assert !IsJsSpace(s[n..][0]);
        }
      } else {
        CollapseSpacesIsSqueeze(s[1..]);
      }
    }
  }

  /** A worked case of the replacement: a leading space is kept as one
      space, and a run of a space and a tab becomes one space. */
  lemma CollapseExample()
    ensures CollapseSpaces(" a \t b") == " a b"
  {
    CollapseSpacesIsSqueeze(" a \t b");
    SqueezeExample();
  }

  lemma SqueezeExample()
    ensures Squeeze(" a \t b", false) == " a b"
  {
    assert IsJsSpace(' ') && IsJsSpace('\t') && !IsJsSpace('a') && !IsJsSpace('b');
    assert " a \t b"[1..] == "a \t b" && "a \t b"[1..] == " \t b";
    assert " \t b"[1..] == "\t b" && "\t b"[1..] == " b" && " b"[1..] == "b";
    assert Squeeze("b", true) == "b";
    assert Squeeze(" b", true) == "b";
    assert Squeeze("\t b", true) == "b";
    assert Squeeze(" \t b", false) == " b";
    assert Squeeze("a \t b", true) == "a b";
  }

  lemma ConsKeepsNoSpaceRuns(c: char, t: string)
    requires NoSpaceRuns(t)
    requires |t| > 0 && IsJsSpace(c) ==> !IsJsSpace(t[0])
    ensures NoSpaceRuns([c] + t)
  {
    var r := [c] + t;
    forall i | 0 <= i < |r| - 1
      ensures !SpacePairAt(r, i)
    {
      if i > 0 {
        assert r[i] == t[i - 1] && r[i + 1] == t[i];
        assert !SpacePairAt(t, i - 1);
      }
    }
  }

  /** A string in which every \s character is a single space between two
      characters that are not \s is left alone by CollapseSpaces. */
  lemma {:induction false} CollapseSpacesUnchanged(s: string)
    requires forall i :: 0 <= i < |s| ==> (IsJsSpace(s[i]) ==> s[i] == ' ')
    requires NoSpaceRuns(s)
    ensures CollapseSpaces(s) == s
    decreases |s|
  {
    if |s| > 0 {
      if IsJsSpace(s[0]) {
        if |s| > 1 {
          assert !SpacePairAt(s, 0);
        }
        assert LeadingSpaces(s) == 1 by {
          assert LeadingSpaces(s[1..]) == 0;
        }
      }
      forall i | 0 <= i < |s| - 2
        ensures !SpacePairAt(s[1..], i)
      {
        assert !SpacePairAt(s, i + 1);
      }
      CollapseSpacesUnchanged(s[1..]);
      assert s == [s[0]] + s[1..];
    }
  }

  /** String.prototype.trim: r is s with its leading and trailing \s runs
      removed. */
  function Trim(s: string): (r: string)
    ensures |r| <= |s|
    ensures TrimOffset(s) + |r| <= |s|
    ensures r == s[TrimOffset(s)..TrimOffset(s) + |r|]
    ensures forall i :: 0 <= i < TrimOffset(s) ==> IsJsSpace(s[i])
    ensures forall i :: TrimOffset(s) + |r| <= i < |s| ==> IsJsSpace(s[i])
    ensures |r| > 0 ==> !IsJsSpace(r[0]) && !IsJsSpace(r[|r| - 1])
    ensures |r| == 0 <==> forall i :: 0 <= i < |s| ==> IsJsSpace(s[i])
  {
    var a := LeadingSpaces(s);
    if a == |s| then "" else s[a..|s| - TrailingSpaces(s)]
  }

  /** How many characters Trim removes from the start of s. */
  function TrimOffset(s: string): nat {
    LeadingSpaces(s)
  }

  /** Trimming drops no character that is not \s. */
  lemma TrimKeepsVisible(s: string)
    ensures Keep(Trim(s), IsVisible) == Keep(s, IsVisible)
  {
    var r := Trim(s);
    var o := TrimOffset(s);
    var hi := o + |r|;
    var rest := s[o..];
    var tail := s[hi..];
    KeepSkip(s, o, IsVisible);
    assert rest == r + tail;
    KeepConcat(r, tail, IsVisible);
    KeepSkip(tail, |tail|, IsVisible);
    assert tail[|tail|..] == "";
  }

  /** A string that neither starts nor ends with \s is its own trim. */
  lemma TrimUnchanged(s: string)
    requires |s| > 0 && !IsJsSpace(s[0]) && !IsJsSpace(s[|s| - 1])
    ensures Trim(s) == s
  {
    assert s[0..|s|] == s;
  }

  /** Trim(s) is the run of s that starts at TrimOffset(s). */
  lemma TrimChars(s: string)
    ensures forall i :: 0 <= i < |Trim(s)| ==> Trim(s)[i] == s[TrimOffset(s) + i]
  {
  }

  // ---------------------------------------------------------------------
  // searching

  /** Array.prototype.findIndex: the first index whose element satisfies p,
      or -1. */
  function FirstIndexWhere(xs: seq<string>, p: string -> bool): (k: int)
    ensures -1 <= k < |xs|
    ensures k == -1 <==> forall i :: 0 <= i < |xs| ==> !p(xs[i])
    ensures k >= 0 ==> p(xs[k]) && forall j :: 0 <= j < k ==> !p(xs[j])
    decreases |xs|
  {
    if |xs| == 0 then -1
    else if p(xs[0]) then 0
    else
      var k := FirstIndexWhere(xs[1..], p);
      if k == -1 then -1 else k + 1
  }

  /** The lines up to and including the first marked one, or the first
      budget lines when none is marked. */
  function KeepThrough(lines: seq<string>, marked: string -> bool, budget: nat): (r: seq<string>)
    ensures |r| <= |lines| && r == lines[..|r|]
    ensures forall k :: 0 <= k < |lines| && marked(lines[k])
                        && (forall j :: 0 <= j < k ==> !marked(lines[j]))
                        ==> r == lines[..k + 1]
    ensures (forall j :: 0 <= j < |lines| ==> !marked(lines[j]))
            ==> r == lines[..Min(budget, |lines|)]
  {
    var k := FirstIndexWhere(lines, marked);
    if k >= 0 then lines[..k + 1] else lines[..Min(budget, |lines|)]
  }

  /** More than budget lines are kept only through a marked last line; with
      no marked line, at most budget are kept. */
  lemma KeepThroughBound(lines: seq<string>, marked: string -> bool, budget: nat)
    ensures var r := KeepThrough(lines, marked, budget);
      && (|r| > budget ==> marked(r[|r| - 1]))
      && ((forall i :: 0 <= i < |r| ==> !marked(r[i])) ==> |r| <= budget)
  {
    var k := FirstIndexWhere(lines, marked);
    var r := KeepThrough(lines, marked, budget);
    if k >= 0 {
      assert r[k] == lines[k];
    }
  }

  /** Cutting again keeps what the first cut kept. */
  lemma KeepThroughIdempotent(lines: seq<string>, marked: string -> bool, budget: nat)
    ensures KeepThrough(KeepThrough(lines, marked, budget), marked, budget) == KeepThrough(lines, marked, budget)
  {
    var r := KeepThrough(lines, marked, budget);
    var k := FirstIndexWhere(lines, marked);
    var k2 := FirstIndexWhere(r, marked);
    assert forall j :: 0 <= j < |r| ==> r[j] == lines[j];
    if k >= 0 {
      assert r == lines[..k + 1];
      assert k2 == k;
      assert r[..k + 1] == r;
    } else {
      assert r == lines[..Min(budget, |lines|)];
      assert k2 == -1;
      assert r[..Min(budget, |r|)] == r;
    }
  }

  // ---------------------------------------------------------------------
  // numbers

  function DigitChar(d: nat): char
    requires d < 10
  {
    ('0' as int + d) as char
  }

  /** The decimal text of a natural number, as a template literal renders it. */
  function NatToString(n: nat): (s: string)
    ensures |s| >= 1
    ensures forall i :: 0 <= i < |s| ==> IsAsciiDigit(s[i])
    ensures |s| > 1 ==> s[0] != '0'
    decreases n
  {
    if n < 10 then [DigitChar(n)] else NatToString(n / 10) + [DigitChar(n % 10)]
  }

  /** The value of a string of decimal digits. */
  function DigitsValue(s: string): nat
    requires forall i :: 0 <= i < |s| ==> IsAsciiDigit(s[i])
    decreases |s|
  {
    if |s| == 0 then 0
    else
      assert IsAsciiDigit(s[|s| - 1]);
      10 * DigitsValue(s[..|s| - 1]) + (s[|s| - 1] as int - '0' as int)
  }

  lemma {:induction false} NatToStringValue(n: nat)
    ensures DigitsValue(NatToString(n)) == n
    decreases n
  {
    if n >= 10 {
      NatToStringValue(n / 10);
      var s := NatToString(n);
      assert s[..|s| - 1] == NatToString(n / 10);
    }
  }
}
