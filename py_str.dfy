/**
 * The Python `str` operations the text-analysis pipeline relies on, modelled over
 * ASCII: `strip`, `lower`, `isupper`, `startswith`/`endswith`, the substring test
 * `in`, `split(sep)`, whitespace `split()`, `splitlines()`, `join` and the slice `s[:n]`.
 */
module PyStr {

  /** `str.isspace` on one ASCII character: tab, line feed, vertical tab, form feed,
      carriage return, the four separators 0x1C-0x1F and the space. */
  predicate IsSpace(c: char) {
    c == ' ' || ('\t' <= c <= '\r') || ('\U{1C}' <= c <= '\U{1F}')
  }

  /** `not s.strip()`: the string holds whitespace only (or nothing). */
  predicate IsBlank(s: string) {
    forall i | 0 <= i < |s| :: IsSpace(s[i])
  }

  /** `s.strip()`: the string without its leading and trailing whitespace. */
  function Strip(s: string): (r: string)
    ensures |r| <= |s|
    ensures r == [] <==> IsBlank(s)
    ensures r != [] ==> !IsSpace(r[0]) && !IsSpace(r[|r| - 1])
    ensures forall c | c in r :: c in s
    decreases |s|
  {
    if s != [] && IsSpace(s[0]) then
      assert forall i | 1 <= i < |s| :: s[i] == s[1..][i - 1];
      assert forall c | c in s[1..] :: c in s;
      Strip(s[1..])
    else if s != [] && IsSpace(s[|s| - 1]) then
      assert forall i | 0 <= i < |s| - 1 :: s[i] == s[..|s| - 1][i];
      assert forall c | c in s[..|s| - 1] :: c in s;
      Strip(s[..|s| - 1])
    else s
  }

  /** `s.strip()` is a contiguous slice of `s` with only whitespace cut at either end. */
  lemma {:induction false} StripSlice(s: string) returns (i: nat, j: nat)
    ensures i <= j <= |s| && Strip(s) == s[i..j]
    ensures IsBlank(s[..i]) && IsBlank(s[j..])
    decreases |s|
  {
    if s != [] && IsSpace(s[0]) {
      var i', j' := StripSlice(s[1..]);
      SliceAfterSpace(s, i', j');
      i, j := i' + 1, j' + 1;
    } else if s != [] && IsSpace(s[|s| - 1]) {
      i, j := StripSlice(s[..|s| - 1]);
      SliceBeforeSpace(s, i, j);
    } else {
      i, j := 0, |s|;
      assert s[0..|s|] == s;
    }
  }

  /** A slice of `s[1..]` with blank ends, seen in `s` when `s` starts with whitespace. */
  lemma SliceAfterSpace(s: string, i: nat, j: nat)
    requires s != [] && IsSpace(s[0]) && i <= j <= |s| - 1
    requires IsBlank(s[1..][..i]) && IsBlank(s[1..][j..])
    ensures s[1..][i..j] == s[i + 1..j + 1]
    ensures IsBlank(s[..i + 1]) && IsBlank(s[j + 1..])
  {
    assert s[1..][j..] == s[j + 1..];
    var front := s[..i + 1];
    forall k | 0 <= k < |front|
      ensures IsSpace(front[k])
    {
      if k > 0 {
        assert front[k] == s[1..][..i][k - 1];
      }
    }
  }

  /** A slice of `s[..|s| - 1]` with blank ends, seen in `s` when `s` ends with
      whitespace. */
  lemma SliceBeforeSpace(s: string, i: nat, j: nat)
    requires s != [] && IsSpace(s[|s| - 1]) && i <= j <= |s| - 1
    requires IsBlank(s[..|s| - 1][..i]) && IsBlank(s[..|s| - 1][j..])
    ensures s[..|s| - 1][i..j] == s[i..j]
    ensures IsBlank(s[..i]) && IsBlank(s[j..])
  {
    assert s[..|s| - 1][..i] == s[..i];
    var back := s[j..];
    forall k | 0 <= k < |back|
      ensures IsSpace(back[k])
    {
      if k < |back| - 1 {
        assert back[k] == s[..|s| - 1][j..][k];
      }
    }
  }

  /** Stripping a string that has no whitespace at either end leaves it unchanged. */
  lemma StripUnchanged(s: string)
    requires s != [] ==> !IsSpace(s[0]) && !IsSpace(s[|s| - 1])
    ensures Strip(s) == s
  {
  }

  /** `c.lower()` on one ASCII character. */
  function LowerChar(c: char): char {
    if 'A' <= c <= 'Z' then (c as int + 32) as char else c
  }

  /** `s.lower()` */
  function Lower(s: string): (r: string)
    ensures |r| == |s|
    ensures forall i | 0 <= i < |s| :: r[i] == LowerChar(s[i])
  {
    seq(|s|, i requires 0 <= i < |s| => LowerChar(s[i]))
  }

  /** `s.isupper()`: at least one cased character and no lower-case one. */
  predicate IsUpper(s: string) {
    (exists i | 0 <= i < |s| :: 'A' <= s[i] <= 'Z') &&
    (forall i | 0 <= i < |s| :: !('a' <= s[i] <= 'z'))
  }

  /** `s.startswith(prefix)` */
  predicate StartsWith(s: string, prefix: string) {
    |prefix| <= |s| && s[..|prefix|] == prefix
  }

  /** `s.startswith(prefixes)` with a tuple of prefixes. */
  predicate StartsWithAny(s: string, prefixes: seq<string>) {
    exists k | 0 <= k < |prefixes| :: StartsWith(s, prefixes[k])
  }

  /** `s.endswith(suffix)` */
  predicate EndsWith(s: string, suffix: string) {
    |suffix| <= |s| && s[|s| - |suffix|..] == suffix
  }

  /** `sub` occurs in `s` starting at index `i`. */
  predicate OccursAt(s: string, sub: string, i: nat) {
    i + |sub| <= |s| && s[i..i + |sub|] == sub
  }

  /** `sub in s`: `sub` occurs somewhere in `s` (the empty string occurs everywhere). */
  predicate Contains(s: string, sub: string) {
    exists i: nat | i <= |s| :: OccursAt(s, sub, i)
  }

  lemma TakeDrop<T>(xs: seq<T>, n: nat)
    requires n <= |xs|
    ensures xs[..n] + xs[n..] == xs
  {
  }

  lemma AppendAssoc<T>(a: seq<T>, b: seq<T>, c: seq<T>)
    ensures (a + b) + c == a + (b + c)
  {
  }

  /** An element of `xs[1..]` is the element of `xs` one position further on. */
  lemma IndexOfTail<T>(xs: seq<T>, i: nat)
    requires i + 1 < |xs|
    ensures xs[1..][i] == xs[i + 1]
  {
  }

  /** A slice of `xs[1..]` is the slice of `xs` one position further on. */
  lemma SliceOfTail<T>(xs: seq<T>, a: nat, b: nat)
    requires a <= b < |xs|
    ensures xs[1..][a..b] == xs[a + 1..b + 1]
  {
  }

  /** `xs[:n]` for a non-negative `n`, on strings and lists alike. */
  function Take<T>(xs: seq<T>, n: nat): (r: seq<T>)
    ensures |r| <= n && |r| <= |xs|
    ensures r == xs[..|r|]
    ensures |xs| <= n ==> r == xs
    ensures n < |xs| ==> |r| == n
  {
    if |xs| <= n then xs else xs[..n]
  }

  /** `sep.join(parts)` */
  function Join(parts: seq<string>, sep: string): string {
    if |parts| == 0 then []
    else if |parts| == 1 then parts[0]
    else parts[0] + sep + Join(parts[1..], sep)
  }

  /** `s.split(sep)` for a non-empty separator: the pieces between the leftmost
      non-overlapping occurrences of `sep`, scanning from the left. */
  function Split(s: string, sep: string): (r: seq<string>)
    requires sep != []
    ensures |r| >= 1
    decreases |s|
  {
    if |s| < |sep| then [s]
    else if s[..|sep|] == sep then [[]] + Split(s[|sep|..], sep)
    else
      var rest := Split(s[1..], sep);
      [[s[0]] + rest[0]] + rest[1..]
  }

  /** A string in which `sep` never occurs is split into itself alone. */
  lemma {:induction false} SplitWithoutSeparator(s: string, sep: string)
    requires sep != []
    requires !Contains(s, sep)
    ensures Split(s, sep) == [s]
    decreases |s|
  {
    if |s| >= |sep| {
      assert !OccursAt(s, sep, 0);
      assert s[0..0 + |sep|] == s[..|sep|];
      assert !Contains(s[1..], sep) by {
        forall i: nat ensures !OccursAt(s[1..], sep, i) {
          assert !OccursAt(s, sep, i + 1);
          if i + |sep| <= |s[1..]| {
            assert s[1..][i..i + |sep|] == s[i + 1..i + 1 + |sep|];
          }
        }
      }
      SplitWithoutSeparator(s[1..], sep);
      assert [s[0]] + s[1..] == s;
    }
  }

  /** Splitting `p + [c] + rest` on the one-character separator `[c]`, when `p` does not
      hold `c`, yields `p` followed by the pieces of `rest`. */
  lemma {:induction false} SplitAfterPiece(p: string, c: char, rest: string)
    requires c !in p
    ensures Split(p + [c] + rest, [c]) == [p] + Split(rest, [c])
    decreases |p|
  {
    var s := p + [c] + rest;
    if p == [] {
      assert s[..1] == [c];
      assert s[1..] == rest;
    } else {
      assert s[..1] != [c] by { assert s[0] == p[0]; }
      assert s[1..] == p[1..] + [c] + rest;
      SplitAfterPiece(p[1..], c, rest);
      assert [p[0]] + p[1..] == p;
    }
  }

  /** A join of two or more parts, unfolded at its first part. */
  lemma JoinCons(parts: seq<string>, sep: string)
    requires |parts| >= 2
    ensures Join(parts, sep) == parts[0] + sep + Join(parts[1..], sep)
  {
  }

  /** Round trip: joining the pieces of `s.split(sep)` with `sep` gives back `s`. */
  lemma {:induction false} JoinSplit(s: string, sep: string)
    requires sep != []
    ensures Join(Split(s, sep), sep) == s
    decreases |s|
  {
    if |s| >= |sep| {
      if s[..|sep|] == sep {
        JoinSplit(s[|sep|..], sep);
        JoinAfterSeparator(s, sep);
      } else {
        JoinSplit(s[1..], sep);
        JoinAfterChar(s, sep);
      }
    }
  }

  /** The step of `JoinSplit` where `s` starts with the separator. */
  lemma JoinAfterSeparator(s: string, sep: string)
    requires sep != [] && |s| >= |sep| && s[..|sep|] == sep
    requires Join(Split(s[|sep|..], sep), sep) == s[|sep|..]
    ensures Join(Split(s, sep), sep) == s
  {
    var rest := Split(s[|sep|..], sep);
    assert Split(s, sep) == [[]] + rest;
    JoinCons([[]] + rest, sep);
    assert ([[]] + rest)[1..] == rest;
    assert Join(Split(s, sep), sep) == [] + sep + s[|sep|..];
    TakeDrop(s, |sep|);
  }

  /** The step of `JoinSplit` where `s` does not start with the separator. */
  lemma JoinAfterChar(s: string, sep: string)
    requires sep != [] && |s| >= |sep| && s[..|sep|] != sep
    requires Join(Split(s[1..], sep), sep) == s[1..]
    ensures Join(Split(s, sep), sep) == s
  {
    var rest := Split(s[1..], sep);
    var r := [[s[0]] + rest[0]] + rest[1..];
    assert Split(s, sep) == r;
    if |rest| >= 2 {
      JoinCons(r, sep);
      JoinCons(rest, sep);
      assert r[1..] == rest[1..];
      AppendAssoc([s[0]], rest[0], sep);
      AppendAssoc([s[0]], rest[0] + sep, Join(rest[1..], sep));
      assert Join(r, sep) == [s[0]] + s[1..];
    } else {
      assert Join(r, sep) == [s[0]] + rest[0];
    }
    TakeDrop(s, 1);
    assert s[..1] == [s[0]];
  }

  /** Round trip: splitting `"c".join(parts)` on `c` recovers the parts, provided
      there is at least one part and no part holds `c`. */
  lemma {:induction false} SplitJoin(parts: seq<string>, c: char)
    requires |parts| >= 1
    requires forall k | 0 <= k < |parts| :: c !in parts[k]
    ensures Split(Join(parts, [c]), [c]) == parts
  {
    if |parts| == 1 {
      assert !Contains(parts[0], [c]) by {
        forall i: nat ensures !OccursAt(parts[0], [c], i) {
          if i + 1 <= |parts[0]| {
            assert parts[0][i..i + 1][0] == parts[0][i];
          }
        }
      }
      SplitWithoutSeparator(parts[0], [c]);
    } else {
      SplitJoin(parts[1..], c);
      SplitAfterPiece(parts[0], c, Join(parts[1..], [c]));
      assert [parts[0]] + parts[1..] == parts;
    }
  }

  /** No piece of a split on the one-character separator `[c]` holds `c`. */
  lemma {:induction false} SplitPiecesExclude(s: string, c: char)
    ensures forall k | 0 <= k < |Split(s, [c])| :: c !in Split(s, [c])[k]
    decreases |s|
  {
    if |s| >= 1 {
      SplitPiecesExclude(s[1..], c);
      if s[..1] != [c] {
        assert s[0] != c;
        var rest := Split(s[1..], [c]);
        assert Split(s, [c]) == [[s[0]] + rest[0]] + rest[1..];
        assert forall k | 1 <= k < |Split(s, [c])| :: Split(s, [c])[k] == rest[k];
      }
    }
  }

  /** No two line feeds stand next to each other. */
  predicate NoBlankLineBreak(s: string) {
    forall i | 0 <= i < |s| - 1 :: !(s[i] == '\n' && s[i + 1] == '\n')
  }

  /** A string without adjacent line feeds does not contain `"\n\n"`. */
  lemma NoParagraphBreak(s: string)
    requires NoBlankLineBreak(s)
    ensures !Contains(s, "\n\n")
  {
    forall i: nat | i <= |s| ensures !OccursAt(s, "\n\n", i) {
      if i + 2 <= |s| {
        assert s[i..i + 2][0] == s[i] && s[i..i + 2][1] == s[i + 1];
      }
    }
  }

  /** Gluing `a`, a line feed and `b` creates no adjacent line feeds when neither part has
      any, `a` does not end with a line feed and `b` does not start with one. */
  lemma NoBlankLineBreakGlue(a: string, b: string)
    requires NoBlankLineBreak(a) && NoBlankLineBreak(b)
    requires a != [] && a[|a| - 1] != '\n'
    requires b == [] || b[0] != '\n'
    ensures NoBlankLineBreak(a + "\n" + b)
  {
    var s := a + "\n" + b;
    forall i | 0 <= i < |s| - 1 ensures !(s[i] == '\n' && s[i + 1] == '\n') {
      if i < |a| - 1 {
        assert s[i] == a[i] && s[i + 1] == a[i + 1];
      } else if i == |a| - 1 {
        assert s[i] == a[i];
      } else if i == |a| {
        assert s[i + 1] == b[0];
      } else {
        assert s[i] == b[i - |a| - 1] && s[i + 1] == b[i - |a|];
      }
    }
  }

  /** `"\n".join(lines)` of non-empty lines without line feeds has no adjacent line feeds
      and starts with the first line's first character. */
  lemma {:induction false} JoinLinesNoBlankLine(lines: seq<string>)
    requires |lines| >= 1
    requires forall k | 0 <= k < |lines| :: lines[k] != [] && '\n' !in lines[k]
    ensures NoBlankLineBreak(Join(lines, "\n"))
    ensures Join(lines, "\n") != [] && Join(lines, "\n")[0] == lines[0][0]
  {
    if |lines| == 1 {
      assert forall i | 0 <= i < |lines[0]| :: lines[0][i] != '\n';
    } else {
      JoinLinesNoBlankLine(lines[1..]);
      assert forall i | 0 <= i < |lines[0]| :: lines[0][i] != '\n';
      NoBlankLineBreakGlue(lines[0], Join(lines[1..], "\n"));
    }
  }

  /** A non-empty line that starts with no whitespace and holds no line feed. */
  predicate CleanLine(line: string) {
    line != [] && !IsSpace(line[0]) && '\n' !in line
  }

  /** Stripping a line without line feeds leaves it blank or clean. */
  lemma StripNoLineFeed(line: string)
    requires '\n' !in line
    ensures Strip(line) == [] || CleanLine(Strip(line))
  {
  }

  /** The lines, each followed by a line feed: the text that `text += line + "\n"` builds. */
  function Body(lines: seq<string>): (r: string)
    ensures |r| >= |lines|
  {
    if lines == [] then [] else lines[0] + "\n" + Body(lines[1..])
  }

  /** `Body` unfolded at its first line. */
  lemma BodyCons(line: string, lines: seq<string>)
    ensures Body([line] + lines) == line + "\n" + Body(lines)
  {
    assert ([line] + lines)[1..] == lines;
  }

  /** Appending `line + "\n"` to the text built from `lines` adds one more line to them. */
  lemma BodySnoc(lines: seq<string>, line: string)
    ensures Body(lines) + line + "\n" == Body(lines + [line])
  {
    BodyAppend(lines, [line]);
    assert Body([line]) == line + "\n" + Body([]);
  }

  lemma {:induction false} BodyAppend(a: seq<string>, b: seq<string>)
    ensures Body(a + b) == Body(a) + Body(b)
  {
    if a != [] {
      assert (a + b)[1..] == a[1..] + b;
      BodyAppend(a[1..], b);
    } else {
      assert a + b == b;
    }
  }

  /** The body of non-empty lines without line feeds has no adjacent line feeds. */
  lemma {:induction false} BodyNoBlankLine(lines: seq<string>)
    requires forall k | 0 <= k < |lines| :: lines[k] != [] && '\n' !in lines[k]
    ensures NoBlankLineBreak(Body(lines))
    ensures lines != [] ==> Body(lines)[0] == lines[0][0]
  {
    if lines != [] {
      BodyNoBlankLine(lines[1..]);
      assert forall i | 0 <= i < |lines[0]| :: lines[0][i] != '\n';
      NoBlankLineBreakGlue(lines[0], Body(lines[1..]));
    }
  }

  /** The body is the lines joined with line feeds, followed by one more line feed:
      splitting it on line feeds gives the lines and a last, empty piece. */
  lemma {:induction false} SplitBody(lines: seq<string>)
    requires forall k | 0 <= k < |lines| :: '\n' !in lines[k]
    ensures Split(Body(lines), "\n") == lines + [[]]
  {
    BodyIsJoin(lines);
    SplitJoin(lines + [[]], '\n');
  }

  lemma {:induction false} BodyIsJoin(lines: seq<string>)
    ensures Body(lines) == Join(lines + [[]], "\n")
  {
    if lines != [] {
      BodyIsJoin(lines[1..]);
      assert (lines + [[]])[1..] == lines[1..] + [[]];
    }
  }

  /** `[x.strip() for x in xs if x.strip()]`: the stripped, non-blank entries in order. */
  function StrippedNonBlank(xs: seq<string>): (r: seq<string>)
    ensures |r| <= |xs|
    ensures forall k | 0 <= k < |r| :: r[k] != []
  {
    if xs == [] then []
    else (if Strip(xs[0]) != [] then [Strip(xs[0])] else []) + StrippedNonBlank(xs[1..])
  }

  /** Number of leading non-whitespace characters. */
  function WordLength(s: string): (n: nat)
    ensures n <= |s|
    ensures forall i | 0 <= i < n :: !IsSpace(s[i])
    ensures n < |s| ==> IsSpace(s[n])
    ensures |s| > 0 && !IsSpace(s[0]) ==> n >= 1
  {
    if |s| == 0 || IsSpace(s[0]) then 0 else 1 + WordLength(s[1..])
  }

  /** The string holds no whitespace character. */
  predicate NoSpace(w: string) {
    forall i | 0 <= i < |w| :: !IsSpace(w[i])
  }

  /** `s.split()`: the maximal runs of non-whitespace characters, in order. */
  function Words(s: string): (r: seq<string>)
    ensures forall k | 0 <= k < |r| :: r[k] != [] && NoSpace(r[k])
    decreases |s|
  {
    if s == [] then []
    else if IsSpace(s[0]) then Words(s[1..])
    else
      var n := WordLength(s);
      var w := s[..n];
      var rest := Words(s[n..]);
      assert NoSpace(w);
      var r := [w] + rest;
      assert forall k | 1 <= k < |r| :: r[k] == rest[k - 1];
      r
  }

  /** The characters at which `str.splitlines` breaks a line (ASCII part). */
  predicate IsLineBreak(c: char) {
    ('\n' <= c <= '\r') || ('\U{1C}' <= c <= '\U{1E}')
  }

  /** Index of the first line-break character, or `|s|` when there is none. */
  function LineEnd(s: string): (n: nat)
    ensures n <= |s|
    ensures forall i | 0 <= i < n :: !IsLineBreak(s[i])
    ensures n < |s| ==> IsLineBreak(s[n])
  {
    if |s| == 0 || IsLineBreak(s[0]) then 0 else 1 + LineEnd(s[1..])
  }

  /** `s.splitlines()`: the lines of `s` without their terminators; `"\r\n"` ends one line,
      and a terminator at the very end does not start an empty last line. */
  function SplitLines(s: string): (r: seq<string>)
    ensures forall k | 0 <= k < |r| :: forall i | 0 <= i < |r[k]| :: !IsLineBreak(r[k][i])
    decreases |s|
  {
    if s == [] then []
    else
      var n := LineEnd(s);
      if n == |s| then [s]
      else
        var width := if s[n] == '\r' && n + 1 < |s| && s[n + 1] == '\n' then 2 else 1;
        [s[..n]] + SplitLines(s[n + width..])
  }

  /** A word followed by whitespace (or by nothing) is read whole. */
  lemma {:induction false} WordLengthOfWord(w: string, t: string)
    requires NoSpace(w)
    requires t == [] || IsSpace(t[0])
    ensures WordLength(w + t) == |w|
  {
    if w != [] {
      assert (w + t)[1..] == w[1..] + t;
      WordLengthOfWord(w[1..], t);
    } else {
      assert w + t == t;
    }
  }

  /** Leading whitespace is skipped by `split()`. */
  lemma SkipSpace(t: string)
    ensures Words(" " + t) == Words(t)
  {
    assert (" " + t)[1..] == t;
  }

  /** Round trip: `" ".join(words).split()` gives the words back when each is non-empty and
      holds no whitespace. */
  lemma {:induction false} WordsJoin(ws: seq<string>)
    requires forall k | 0 <= k < |ws| :: ws[k] != [] && NoSpace(ws[k])
    ensures Words(Join(ws, " ")) == ws
  {
    if |ws| == 1 {
      WordLengthOfWord(ws[0], []);
      assert ws[0] + [] == ws[0];
      assert ws[0][|ws[0]|..] == [];
    } else if |ws| > 1 {
      var t := Join(ws[1..], " ");
      var s := ws[0] + " " + t;
      assert s == ws[0] + (" " + t);
      WordLengthOfWord(ws[0], " " + t);
      assert s[..|ws[0]|] == ws[0];
      assert s[|ws[0]|..] == " " + t;
      SkipSpace(t);
      WordsJoin(ws[1..]);
      assert [ws[0]] + ws[1..] == ws;
    }
  }

  /** A line without breaks followed by a line feed ends at that line feed. */
  lemma {:induction false} LineEndOfLine(line: string, t: string)
    requires forall i | 0 <= i < |line| :: !IsLineBreak(line[i])
    ensures LineEnd(line + "\n" + t) == |line|
  {
    if line != [] {
      assert (line + "\n" + t)[1..] == line[1..] + "\n" + t;
      LineEndOfLine(line[1..], t);
    }
  }

  /** Round trip: `splitlines` of lines without breaks, each ended by a line feed, gives
      the lines back. */
  lemma {:induction false} SplitLinesBody(lines: seq<string>)
    requires forall k | 0 <= k < |lines| :: forall i | 0 <= i < |lines[k]| :: !IsLineBreak(lines[k][i])
    ensures SplitLines(Body(lines)) == lines
  {
    if lines != [] {
      var s := Body(lines);
      var t := Body(lines[1..]);
      LineEndOfLine(lines[0], t);
      assert s[..|lines[0]|] == lines[0];
      assert s[|lines[0]| + 1..] == t;
      SplitLinesBody(lines[1..]);
      assert [lines[0]] + lines[1..] == lines;
    }
  }
}
