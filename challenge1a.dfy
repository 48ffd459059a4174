/**
 * `extract_sections` of Challenge_1a: every line of the text (by `splitlines`) is either
 * a heading, matched by a regular expression on its stripped form, or is appended
 * unstripped, with a line feed, to the text of the current section. Blank lines are
 * kept; a section whose text is blank is dropped.
 */
module Challenge1a {
  import opened PyStr

  /** A section of Challenge_1a: `{title, text}`. */
  datatype Section = Section(title: string, text: string)

  /** `\d` over ASCII. */
  predicate IsDigit(c: char) {
    '0' <= c <= '9'
  }

  /** `[A-Z]` */
  predicate IsCapital(c: char) {
    'A' <= c <= 'Z'
  }

  /** A full match of `^(\d+\.|[A-Z][A-Z\s]+)$`: one or more digits and a single dot, or
      a capital letter followed by one or more capitals or whitespace characters. A
      heading has at least two characters. */
  predicate IsHeading(s: string): (r: bool)
    ensures r ==> |s| >= 2
  {
    || (|s| >= 2 && s[|s| - 1] == '.' && forall i | 0 <= i < |s| - 1 :: IsDigit(s[i]))
    || (|s| >= 2 && IsCapital(s[0]) && forall i | 1 <= i < |s| :: IsCapital(s[i]) || IsSpace(s[i]))
  }

  /** The single-letter line "A" is not a heading, "A B" and "12." are. */
  lemma HeadingExamples()
    ensures !IsHeading("A") && IsHeading("A B") && IsHeading("12.") && !IsHeading("1.2.") && !IsHeading(".")
  {
    assert !IsDigit("1.2."[1]);
  }

  /** The two alternatives tell apart by the first character: a heading that starts with
      a digit is digits ending in its only dot, and any other starts with a capital and
      holds no dot and no digit. */
  lemma HeadingShape(s: string)
    requires IsHeading(s)
    ensures IsDigit(s[0]) ==> s[|s| - 1] == '.' && forall i | 0 <= i < |s| - 1 :: IsDigit(s[i])
    ensures !IsDigit(s[0]) ==> IsCapital(s[0]) && forall i | 0 <= i < |s| :: s[i] != '.' && !IsDigit(s[i])
  {
  }

  /** `if current["text"].strip(): sections.append(current)` */
  function Emit(title: string, text: string): seq<Section> {
    if Strip(text) != [] then [Section(title, text)] else []
  }

  /** The sections `extract_sections` emits for the remaining `lines`, given the current
      title and text. */
  function SegmentFrom(lines: seq<string>, title: string, text: string): seq<Section>
    decreases |lines|
  {
    if lines == [] then Emit(title, text)
    else if IsHeading(Strip(lines[0])) then Emit(title, text) + SegmentFrom(lines[1..], Strip(lines[0]), [])
    else SegmentFrom(lines[1..], title, text + lines[0] + "\n")
  }

  /** `extract_sections` on a list of lines. */
  function Segment(lines: seq<string>): seq<Section> {
    SegmentFrom(lines, "Introduction", [])
  }

  /** All section texts, concatenated in order. */
  function Texts(sections: seq<Section>): string {
    if sections == [] then [] else sections[0].text + Texts(sections[1..])
  }

  /** The lines that end up in some section text: each group of lines between two
      headings (the first group before any heading) is kept when its text is not blank. */
  function Kept(lines: seq<string>, group: seq<string>): seq<string>
    decreases |lines|
  {
    if lines == [] then (if Strip(Body(group)) != [] then group else [])
    else if IsHeading(Strip(lines[0])) then (if Strip(Body(group)) != [] then group else []) + Kept(lines[1..], [])
    else Kept(lines[1..], group + [lines[0]])
  }

  /** The lines that are not headings, in order. */
  function NonHeadingLines(lines: seq<string>): (r: seq<string>)
    ensures |r| <= |lines|
  {
    if lines == [] then []
    else (if IsHeading(Strip(lines[0])) then [] else [lines[0]]) + NonHeadingLines(lines[1..])
  }

  /** The lines that hold a non-whitespace character, in order. */
  function NonBlank(lines: seq<string>): (r: seq<string>)
    ensures |r| <= |lines|
  {
    if lines == [] then [] else (if IsBlank(lines[0]) then [] else [lines[0]]) + NonBlank(lines[1..])
  }

  /** The number of heading lines. */
  function Headings(lines: seq<string>): (n: nat)
    ensures n <= |lines|
  {
    if lines == [] then 0 else (if IsHeading(Strip(lines[0])) then 1 else 0) + Headings(lines[1..])
  }

  lemma TextsAppend(a: seq<Section>, b: seq<Section>)
    ensures Texts(a + b) == Texts(a) + Texts(b)
  {
    if a == [] {
      assert a + b == b;
    } else {
      assert (a + b)[1..] == a[1..] + b;
      TextsAppend(a[1..], b);
    }
  }

  lemma {:induction false} NonBlankAppend(a: seq<string>, b: seq<string>)
    ensures NonBlank(a + b) == NonBlank(a) + NonBlank(b)
  {
    if a == [] {
      assert a + b == b;
    } else {
      assert (a + b)[1..] == a[1..] + b;
      NonBlankAppend(a[1..], b);
    }
  }

  /** A blank text built from lines holds blank lines only. */
  lemma {:induction false} BlankBody(group: seq<string>)
    requires IsBlank(Body(group))
    ensures NonBlank(group) == []
  {
    if group != [] {
      var b := Body(group);
      assert b == group[0] + ("\n" + Body(group[1..]));
      assert forall i | 0 <= i < |group[0]| :: group[0][i] == b[i];
      assert forall i | 0 <= i < |Body(group[1..])| :: Body(group[1..])[i] == b[|group[0]| + 1 + i];
      BlankBody(group[1..]);
    }
  }

  /** What an emitted group contributes. */
  lemma EmitGroup(title: string, group: seq<string>)
    ensures Texts(Emit(title, Body(group))) == Body(if Strip(Body(group)) != [] then group else [])
    ensures NonBlank(if Strip(Body(group)) != [] then group else []) == NonBlank(group)
  {
    if Strip(Body(group)) == [] {
      BlankBody(group);
    } else {
      assert Texts(Emit(title, Body(group))) == Body(group) + Texts([]);
    }
  }

  /** The emitted texts are exactly the kept lines, each followed by a line feed. */
  lemma {:induction false} SegmentFromKept(lines: seq<string>, title: string, group: seq<string>)
    ensures Texts(SegmentFrom(lines, title, Body(group))) == Body(Kept(lines, group))
    decreases |lines|
  {
    EmitGroup(title, group);
    if lines != [] {
      var line := Strip(lines[0]);
      if IsHeading(line) {
        SegmentFromKept(lines[1..], line, []);
        TextsAppend(Emit(title, Body(group)), SegmentFrom(lines[1..], line, []));
        BodyAppend(if Strip(Body(group)) != [] then group else [], Kept(lines[1..], []));
      } else {
        SegmentFromKept(lines[1..], title, group + [lines[0]]);
        BodySnoc(group, lines[0]);
      }
    }
  }

  /** The kept lines lose no line with text: their non-blank lines are those of the group
      followed by the non-blank non-heading remaining lines, in order. */
  lemma {:induction false} KeptNonBlank(lines: seq<string>, group: seq<string>)
    ensures NonBlank(Kept(lines, group)) == NonBlank(group + NonHeadingLines(lines))
    decreases |lines|
  {
    if lines == [] {
      EmitGroup("", group);
      assert group + NonHeadingLines(lines) == group;
    } else if IsHeading(Strip(lines[0])) {
      KeptNonBlank(lines[1..], []);
      KeptNonBlankHeading(lines, group);
    } else {
      KeptNonBlank(lines[1..], group + [lines[0]]);
      KeptNonBlankText(lines, group);
    }
  }

  /** One step of `KeptNonBlank` at a line that is not a heading. */
  lemma KeptNonBlankText(lines: seq<string>, group: seq<string>)
    requires lines != [] && !IsHeading(Strip(lines[0]))
    requires NonBlank(Kept(lines[1..], group + [lines[0]]))
      == NonBlank((group + [lines[0]]) + NonHeadingLines(lines[1..]))
    ensures NonBlank(Kept(lines, group)) == NonBlank(group + NonHeadingLines(lines))
  {
    KeptText(lines, group);
    NonHeadingText(lines);
    Regroup(Kept(lines[1..], group + [lines[0]]), group, lines[0], NonHeadingLines(lines[1..]));
  }

  lemma Regroup(a: seq<string>, group: seq<string>, line: string, rest: seq<string>)
    requires NonBlank(a) == NonBlank((group + [line]) + rest)
    ensures NonBlank(a) == NonBlank(group + ([line] + rest))
  {
    assert (group + [line]) + rest == group + ([line] + rest);
  }

  lemma KeptText(lines: seq<string>, group: seq<string>)
    requires lines != [] && !IsHeading(Strip(lines[0]))
    ensures Kept(lines, group) == Kept(lines[1..], group + [lines[0]])
  {
  }

  lemma NonHeadingText(lines: seq<string>)
    requires lines != [] && !IsHeading(Strip(lines[0]))
    ensures NonHeadingLines(lines) == [lines[0]] + NonHeadingLines(lines[1..])
  {
  }

  /** One step of `KeptNonBlank` at a heading line. */
  lemma KeptNonBlankHeading(lines: seq<string>, group: seq<string>)
    requires lines != [] && IsHeading(Strip(lines[0]))
    requires NonBlank(Kept(lines[1..], [])) == NonBlank([] + NonHeadingLines(lines[1..]))
    ensures NonBlank(Kept(lines, group)) == NonBlank(group + NonHeadingLines(lines))
  {
    var kept := if Strip(Body(group)) != [] then group else [];
    var rest := NonHeadingLines(lines[1..]);
    assert Kept(lines, group) == kept + Kept(lines[1..], []);
    assert NonHeadingLines(lines) == rest;
    assert [] + rest == rest;
    EmitGroup("", group);
    NonBlankAppend(kept, Kept(lines[1..], []));
    NonBlankAppend(group, rest);
  }

  /** Every emitted section has non-blank text, and a title that is the one it was opened
      with (first section only) or a stripped heading. */
  ghost predicate WellSegmented(sections: seq<Section>, firstTitle: string) {
    forall k | 0 <= k < |sections| ::
      && Strip(sections[k].text) != []
      && ((k == 0 && sections[k].title == firstTitle) || IsHeading(sections[k].title))
  }

  lemma WellSegmentedAppend(a: seq<Section>, b: seq<Section>, title: string, heading: string)
    requires |a| <= 1 && WellSegmented(a, title)
    requires IsHeading(heading) && WellSegmented(b, heading)
    ensures WellSegmented(a + b, title)
  {
    var s := a + b;
    forall k | 0 <= k < |s|
      ensures (k == 0 && s[k].title == title) || IsHeading(s[k].title)
    {
      if k >= |a| {
        assert s[k] == b[k - |a|];
      }
    }
  }

  lemma {:induction false} SegmentFromShape(lines: seq<string>, title: string, text: string)
    ensures WellSegmented(SegmentFrom(lines, title, text), title)
    ensures |SegmentFrom(lines, title, text)| <= Headings(lines) + 1
    decreases |lines|
  {
    if lines != [] {
      var line := Strip(lines[0]);
      if IsHeading(line) {
        SegmentFromShape(lines[1..], line, []);
        WellSegmentedAppend(Emit(title, text), SegmentFrom(lines[1..], line, []), title, line);
      } else {
        SegmentFromShape(lines[1..], title, text + lines[0] + "\n");
      }
    }
  }

  /** A raw line that `extract_sections` treats as a heading. */
  predicate HeadingLine(line: string) {
    IsHeading(Strip(line))
  }

  /** The index of the first heading line at or after `from`, or `|lines|` when there is
      none. */
  function NextHeading(lines: seq<string>, from: nat): (r: nat)
    requires from <= |lines|
    ensures from <= r <= |lines|
    ensures r < |lines| ==> HeadingLine(lines[r])
    decreases |lines| - from
  {
    if from == |lines| || HeadingLine(lines[from]) then from else NextHeading(lines, from + 1)
  }

  /** No line before `NextHeading(lines, from)` is a heading. */
  lemma {:induction false} NextHeadingIsFirst(lines: seq<string>, from: nat, i: nat)
    requires from <= |lines| && from <= i < NextHeading(lines, from)
    ensures !HeadingLine(lines[i])
    decreases |lines| - from
  {
    if i > from {
      NextHeadingIsFirst(lines, from + 1, i);
    }
  }

  /** Dropping the first line shifts every heading index by one. */
  lemma {:induction false} NextHeadingShift(lines: seq<string>, from: nat)
    requires 1 <= from <= |lines|
    ensures NextHeading(lines, from) == 1 + NextHeading(lines[1..], from - 1)
    decreases |lines| - from
  {
    if from < |lines| {
      assert lines[1..][from - 1] == lines[from];
      if !HeadingLine(lines[from]) {
        NextHeadingShift(lines, from + 1);
      }
    }
  }

  /** `s` is the section opened with `title` and `text`: its text is that text followed
      by the lines before the first heading of `lines`, unstripped. */
  ghost predicate OpenedFirst(lines: seq<string>, title: string, text: string, s: Section) {
    s.title == title && s.text == text + Body(lines[..NextHeading(lines, 0)])
  }

  /** `s` is the section the heading line `lines[j]` opened: its title is that line
      stripped, and its text the lines between that heading and the next. */
  ghost predicate OpenedAt(lines: seq<string>, j: int, s: Section) {
    && 0 <= j < |lines| && HeadingLine(lines[j])
    && s.title == Strip(lines[j]) && s.text == Body(lines[j + 1..NextHeading(lines, j + 1)])
  }

  /** `s` is the section some heading line of `lines` opened. */
  ghost predicate OpenedByHeading(lines: seq<string>, s: Section) {
    exists j :: OpenedAt(lines, j, s)
  }

  lemma AtShift(lines: seq<string>, j: int, s: Section)
    requires lines != [] && OpenedAt(lines[1..], j, s)
    ensures OpenedAt(lines, j + 1, s)
  {
    var rest := lines[1..];
    var next := NextHeading(rest, j + 1);
    NextHeadingShift(lines, j + 2);
    SliceOfTail(lines, j + 1, next);
    IndexOfTail(lines, j);
    assert s.text == Body(lines[j + 2..NextHeading(lines, j + 2)]);
  }

  lemma ByHeadingShift(lines: seq<string>, s: Section)
    requires lines != [] && OpenedByHeading(lines[1..], s)
    ensures OpenedByHeading(lines, s)
  {
    var j :| OpenedAt(lines[1..], j, s);
    AtShift(lines, j, s);
  }

  /** Moving one line from the accumulated text into the body. */
  lemma TextCons(text: string, line: string, rest: seq<string>, x: string)
    requires x == (text + line + "\n") + Body(rest)
    ensures x == text + Body([line] + rest)
  {
    BodyCons(line, rest);
  }

  lemma FirstShiftText(lines: seq<string>, title: string, text: string, s: Section)
    requires lines != [] && !HeadingLine(lines[0])
    requires OpenedFirst(lines[1..], title, text + lines[0] + "\n", s)
    ensures OpenedFirst(lines, title, text, s)
  {
    var m := NextHeading(lines[1..], 0);
    NextHeadingShift(lines, 1);
    assert NextHeading(lines, 0) == m + 1;
    var rest := lines[1..][..m];
    assert s.text == (text + lines[0] + "\n") + Body(rest);
    assert lines[..m + 1] == [lines[0]] + rest;
    TextCons(text, lines[0], rest, s.text);
  }

  lemma FirstAfterHeading(lines: seq<string>, s: Section)
    requires lines != [] && HeadingLine(lines[0])
    requires OpenedFirst(lines[1..], Strip(lines[0]), [], s)
    ensures OpenedByHeading(lines, s)
  {
    NextHeadingShift(lines, 1);
    assert lines[1..NextHeading(lines, 1)] == lines[1..][..NextHeading(lines[1..], 0)];
    assert [] + Body(lines[1..][..NextHeading(lines[1..], 0)])
      == Body(lines[1..][..NextHeading(lines[1..], 0)]);
    assert OpenedAt(lines, 0, s);
  }

  /** Every emitted section is either the one opened before the first heading, or the one
      a heading line opened, titled by that stripped heading and holding exactly the
      lines up to the next heading. */
  lemma {:induction false} SectionOpened(lines: seq<string>, title: string, text: string, k: nat)
    requires k < |SegmentFrom(lines, title, text)|
    ensures OpenedFirst(lines, title, text, SegmentFrom(lines, title, text)[k])
      || OpenedByHeading(lines, SegmentFrom(lines, title, text)[k])
    decreases |lines|
  {
    var r := SegmentFrom(lines, title, text);
    if lines == [] {
      assert r[k] == Section(title, text);
      assert lines[..NextHeading(lines, 0)] == [];
      assert text + Body([]) == text;
    } else {
      var line := Strip(lines[0]);
      var rest := lines[1..];
      if IsHeading(line) {
        var e := Emit(title, text);
        if k < |e| {
          assert r[k] == Section(title, text);
          assert lines[..NextHeading(lines, 0)] == [];
          assert text + Body([]) == text;
        } else {
          var tail := SegmentFrom(rest, line, []);
          assert r[k] == tail[k - |e|];
          SectionOpened(rest, line, [], k - |e|);
          if OpenedFirst(rest, line, [], tail[k - |e|]) {
            FirstAfterHeading(lines, r[k]);
          } else {
            ByHeadingShift(lines, r[k]);
          }
        }
      } else {
        var text' := text + lines[0] + "\n";
        SectionOpened(rest, title, text', k);
        if OpenedFirst(rest, title, text', r[k]) {
          FirstShiftText(lines, title, text, r[k]);
        } else {
          ByHeadingShift(lines, r[k]);
        }
      }
    }
  }

  /** `extract_sections` on a whole text: every section is either "Introduction",
      holding the lines before the first heading, or is titled by the stripped heading
      line that opened it and holds exactly the lines, unstripped, up to the next
      heading. */
  lemma SegmentTitles(text: string)
    ensures var lines := SplitLines(text);
      forall k | 0 <= k < |Segment(lines)| ::
        OpenedFirst(lines, "Introduction", [], Segment(lines)[k]) || OpenedByHeading(lines, Segment(lines)[k])
  {
    var lines := SplitLines(text);
    forall k | 0 <= k < |Segment(lines)|
      ensures OpenedFirst(lines, "Introduction", [], Segment(lines)[k]) || OpenedByHeading(lines, Segment(lines)[k])
    {
      SectionOpened(lines, "Introduction", [], k);
    }
  }

  /** `extract_sections` on a whole text: the texts are the kept lines, which hold every
      line with text that is not a heading, in order; every section has text and a
      heading (or "Introduction") as title; and there is at most one section per heading
      plus one. */
  lemma SegmentText(text: string)
    ensures var lines := SplitLines(text);
      && Texts(Segment(lines)) == Body(Kept(lines, []))
      && NonBlank(Kept(lines, [])) == NonBlank(NonHeadingLines(lines))
      && WellSegmented(Segment(lines), "Introduction")
      && |Segment(lines)| <= Headings(lines) + 1
  {
    var lines := SplitLines(text);
    SegmentFromKept(lines, "Introduction", []);
    KeptNonBlank(lines, []);
    assert [] + NonHeadingLines(lines) == NonHeadingLines(lines);
    SegmentFromShape(lines, "Introduction", []);
  }

  lemma SegmentStep(lines: seq<string>, i: nat, title: string, text: string)
    requires i < |lines|
    ensures SegmentFrom(lines[i..], title, text) ==
      if IsHeading(Strip(lines[i])) then Emit(title, text) + SegmentFrom(lines[i + 1..], Strip(lines[i]), [])
      else SegmentFrom(lines[i + 1..], title, text + lines[i] + "\n")
  {
    assert lines[i..][1..] == lines[i + 1..];
  }

  lemma SegmentEnd(lines: seq<string>, title: string, text: string)
    ensures SegmentFrom(lines[|lines|..], title, text) == Emit(title, text)
  {
    assert lines[|lines|..] == [];
  }

  lemma HeadingStep(sections: seq<Section>, lines: seq<string>, i: nat, title: string, text: string,
                    goal: seq<Section>)
    requires i < |lines| && IsHeading(Strip(lines[i]))
    requires sections + SegmentFrom(lines[i..], title, text) == goal
    ensures (sections + Emit(title, text)) + SegmentFrom(lines[i + 1..], Strip(lines[i]), []) == goal
  {
    var rest := SegmentFrom(lines[i + 1..], Strip(lines[i]), []);
    SegmentStep(lines, i, title, text);
    assert sections + (Emit(title, text) + rest) == (sections + Emit(title, text)) + rest;
  }

  /** `extract_sections`: segments the lines of `text.splitlines()`. */
  method ExtractSections(text: string) returns (sections: seq<Section>)
    ensures sections == Segment(SplitLines(text))
  {
    sections := SegmentLines(SplitLines(text));
  }

  /** The loop of `extract_sections`. */
  method SegmentLines(lines: seq<string>) returns (sections: seq<Section>)
    ensures sections == Segment(lines)
  {
    ghost var goal := Segment(lines);
    sections := [];
    var title := "Introduction";
    var text := "";
    assert lines[0..] == lines;
    for i := 0 to |lines|
      invariant sections + SegmentFrom(lines[i..], title, text) == goal
    {
      var line := lines[i];
      if IsHeading(Strip(line)) {
        HeadingStep(sections, lines, i, title, text, goal);
        sections := AppendIfNonBlank(sections, title, text);
        title := Strip(line);
        text := "";
      } else {
        SegmentStep(lines, i, title, text);
        text := text + line + "\n";
      }
    }
    SegmentEnd(lines, title, text);
    sections := AppendIfNonBlank(sections, title, text);
  }

  /** `if current["text"].strip(): sections.append(current)` */
  method AppendIfNonBlank(sections: seq<Section>, title: string, text: string) returns (r: seq<Section>)
    ensures r == sections + Emit(title, text)
  {
    r := sections;
    if Strip(text) != [] {
      r := r + [Section(title, text)];
    }
  }
}
