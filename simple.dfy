/**
 * `process_pdfs_simple.py` of Challenge_1b: a segmenter that keeps headings out of the
 * section bodies, a ranker without the length bonus, a subsection analyser built from
 * comprehensions, and the persona/job resolution of `input.json`.
 */
module Simple {
  import opened PyStr
  import opened Ranking
  import opened Insights

  // ----- extract_sections_simple -----

  const Enumerators: seq<string> := ["1.", "2.", "3.", "4.", "5."]

  const StructuralWords: seq<string> := ["Chapter", "Section", "Part"]

  /** The heading rule: shorter than 100 characters, and upper-case, numbered 1. to 5.,
      ending with a colon, or starting with Chapter, Section or Part; a heading is never
      empty. */
  predicate IsHeading(line: string): (r: bool)
    ensures r ==> 0 < |line| < 100
  {
    && |line| < 100
    && (IsUpper(line) || StartsWithAny(line, Enumerators) || EndsWith(line, ":")
        || StartsWithAny(line, StructuralWords))
  }

  /** The section collected so far, appended only if its content has non-blank text. */
  function Emit(title: string, content: string): seq<Section> {
    if Strip(content) != [] then [Section(title, content, 1)] else []
  }

  /** The sections that `extract_sections_simple` emits for the remaining raw `lines`,
      given the current title and the content collected under it. */
  function SegmentFrom(lines: seq<string>, title: string, content: string): seq<Section>
    decreases |lines|
  {
    if lines == [] then Emit(title, content)
    else
      var line := Strip(lines[0]);
      if line == [] then SegmentFrom(lines[1..], title, content)
      else if IsHeading(line) then Emit(title, content) + SegmentFrom(lines[1..], line, [])
      else SegmentFrom(lines[1..], title, content + line + "\n")
  }

  /** `extract_sections_simple` on the lines of a text. */
  function Segment(lines: seq<string>): seq<Section> {
    SegmentFrom(lines, "Introduction", [])
  }

  /** The stripped lines that are neither blank nor headings, in order. */
  function TextLines(lines: seq<string>): (r: seq<string>)
    ensures |r| <= |lines|
  {
    if lines == [] then []
    else
      var line := Strip(lines[0]);
      (if line != [] && !IsHeading(line) then [line] else []) + TextLines(lines[1..])
  }

  /** The number of heading lines. */
  function Headings(lines: seq<string>): (n: nat)
    ensures n <= |lines|
  {
    if lines == [] then 0
    else (if Strip(lines[0]) != [] && IsHeading(Strip(lines[0])) then 1 else 0) + Headings(lines[1..])
  }

  /** All section contents, concatenated in order. */
  function Contents(sections: seq<Section>): string {
    if sections == [] then [] else sections[0].content + Contents(sections[1..])
  }

  predicate CleanLines(body: seq<string>) {
    forall k | 0 <= k < |body| :: CleanLine(body[k])
  }

  /** A collected content is blank exactly when no line has been collected. */
  lemma BodyBlank(body: seq<string>)
    requires CleanLines(body)
    ensures Strip(Body(body)) == [] <==> body == []
  {
    if body != [] {
      BodyNoBlankLine(body);
      assert !IsSpace(Body(body)[0]);
    }
  }

  /** Emitting collected lines keeps exactly their text. */
  lemma EmitBody(title: string, body: seq<string>)
    requires CleanLines(body)
    ensures Contents(Emit(title, Body(body))) == Body(body)
  {
    BodyBlank(body);
    if body != [] {
      assert Contents(Emit(title, Body(body))) == Body(body) + Contents([]);
    }
  }

  lemma ContentsAppend(a: seq<Section>, b: seq<Section>)
    ensures Contents(a + b) == Contents(a) + Contents(b)
  {
    if a == [] {
      assert a + b == b;
    } else {
      assert (a + b)[1..] == a[1..] + b;
      ContentsAppend(a[1..], b);
    }
  }

  /** How `SegmentFrom` consumes the line at index `i`. */
  lemma SegmentStep(lines: seq<string>, i: nat, title: string, content: string)
    requires i < |lines|
    ensures var line := Strip(lines[i]);
      SegmentFrom(lines[i..], title, content) ==
        if line == [] then SegmentFrom(lines[i + 1..], title, content)
        else if IsHeading(line) then Emit(title, content) + SegmentFrom(lines[i + 1..], line, [])
        else SegmentFrom(lines[i + 1..], title, content + line + "\n")
  {
    assert lines[i..][1..] == lines[i + 1..];
  }

  /** One step of `SegmentFromLossless` for a heading line. */
  lemma LosslessHeading(lines: seq<string>, title: string, body: seq<string>)
    requires lines != [] && Strip(lines[0]) != [] && IsHeading(Strip(lines[0]))
    requires CleanLines(body)
    requires Contents(SegmentFrom(lines[1..], Strip(lines[0]), [])) == Body(TextLines(lines[1..]))
    ensures Contents(SegmentFrom(lines, title, Body(body))) == Body(body + TextLines(lines))
  {
    var rest := SegmentFrom(lines[1..], Strip(lines[0]), []);
    SegmentStep(lines, 0, title, Body(body));
    assert lines[0..] == lines;
    assert SegmentFrom(lines, title, Body(body)) == Emit(title, Body(body)) + rest;
    ContentsAppend(Emit(title, Body(body)), rest);
    EmitBody(title, body);
    TextLinesHead(lines);
    assert TextLines(lines) == TextLines(lines[1..]);
    BodyAppend(body, TextLines(lines[1..]));
  }

  /** `TextLines` unfolded at the first line. */
  lemma TextLinesHead(lines: seq<string>)
    requires lines != []
    ensures TextLines(lines) ==
      (if Strip(lines[0]) != [] && !IsHeading(Strip(lines[0])) then [Strip(lines[0])] else []) + TextLines(lines[1..])
  {
  }

  /** One step of `SegmentFromLossless` for a blank line. */
  lemma LosslessBlank(lines: seq<string>, title: string, body: seq<string>)
    requires lines != [] && Strip(lines[0]) == []
    requires Contents(SegmentFrom(lines[1..], title, Body(body))) == Body(body + TextLines(lines[1..]))
    ensures Contents(SegmentFrom(lines, title, Body(body))) == Body(body + TextLines(lines))
  {
    SegmentStep(lines, 0, title, Body(body));
    assert lines[0..] == lines;
    TextLinesHead(lines);
    assert [] + TextLines(lines[1..]) == TextLines(lines[1..]);
  }

  /** One step of `SegmentFromLossless` for a line that joins the content. */
  lemma LosslessText(lines: seq<string>, title: string, body: seq<string>)
    requires lines != [] && Strip(lines[0]) != [] && !IsHeading(Strip(lines[0]))
    requires Contents(SegmentFrom(lines[1..], title, Body(body + [Strip(lines[0])])))
      == Body((body + [Strip(lines[0])]) + TextLines(lines[1..]))
    ensures Contents(SegmentFrom(lines, title, Body(body))) == Body(body + TextLines(lines))
  {
    var line := Strip(lines[0]);
    SegmentStep(lines, 0, title, Body(body));
    assert lines[0..] == lines;
    BodySnoc(body, line);
    TextLinesHead(lines);
    assert (body + [line]) + TextLines(lines[1..]) == body + ([line] + TextLines(lines[1..]));
  }

  /** Nothing is lost or reordered: the contents of the emitted sections, concatenated,
      are the collected content followed by every stripped non-blank non-heading
      remaining line, each ended by a line feed. */
  lemma {:induction false} SegmentFromLossless(lines: seq<string>, title: string, body: seq<string>)
    requires forall k | 0 <= k < |lines| :: '\n' !in lines[k]
    requires CleanLines(body)
    ensures Contents(SegmentFrom(lines, title, Body(body))) == Body(body + TextLines(lines))
    decreases |lines|
  {
    if lines == [] {
      EmitBody(title, body);
      assert body + TextLines(lines) == body;
    } else {
      var line := Strip(lines[0]);
      StripNoLineFeed(lines[0]);
      if line == [] {
        SegmentFromLossless(lines[1..], title, body);
        LosslessBlank(lines, title, body);
      } else if IsHeading(line) {
        SegmentFromLossless(lines[1..], line, []);
        assert [] + TextLines(lines[1..]) == TextLines(lines[1..]);
        LosslessHeading(lines, title, body);
      } else {
        SegmentFromLossless(lines[1..], title, body + [line]);
        LosslessText(lines, title, body);
      }
    }
  }

  /** Every emitted section has page 1, non-blank content that holds no blank line, and
      either the title it was opened with (first only) or a stripped heading as title. */
  ghost predicate WellSegmented(sections: seq<Section>, firstTitle: string) {
    forall k | 0 <= k < |sections| ::
      && sections[k].page == 1
      && Strip(sections[k].content) != []
      && NoBlankLineBreak(sections[k].content)
      && ((k == 0 && sections[k].title == firstTitle) || (CleanLine(sections[k].title) && IsHeading(sections[k].title)))
  }

  /** The emitted section of collected lines is well formed. */
  lemma EmitShape(title: string, body: seq<string>)
    requires CleanLines(body)
    ensures WellSegmented(Emit(title, Body(body)), title)
  {
    BodyBlank(body);
    if body != [] {
      BodyNoBlankLine(body);
    }
  }

  lemma WellSegmentedAppend(a: seq<Section>, b: seq<Section>, title: string, heading: string)
    requires |a| <= 1 && WellSegmented(a, title)
    requires CleanLine(heading) && IsHeading(heading) && WellSegmented(b, heading)
    ensures WellSegmented(a + b, title)
  {
    var s := a + b;
    forall k | 0 <= k < |s|
      ensures (k == 0 && s[k].title == title) || (CleanLine(s[k].title) && IsHeading(s[k].title))
    {
      if k >= |a| {
        assert s[k] == b[k - |a|];
      }
    }
  }

  lemma {:induction false} SegmentFromShape(lines: seq<string>, title: string, body: seq<string>)
    requires forall k | 0 <= k < |lines| :: '\n' !in lines[k]
    requires CleanLines(body)
    ensures WellSegmented(SegmentFrom(lines, title, Body(body)), title)
    decreases |lines|
  {
    if lines == [] {
      EmitShape(title, body);
    } else {
      var line := Strip(lines[0]);
      StripNoLineFeed(lines[0]);
      if line == [] {
        SegmentFromShape(lines[1..], title, body);
      } else if IsHeading(line) {
        SegmentFromShape(lines[1..], line, []);
        EmitShape(title, body);
        WellSegmentedAppend(Emit(title, Body(body)), SegmentFrom(lines[1..], line, Body([])), title, line);
      } else {
        SegmentFromShape(lines[1..], title, body + [line]);
        BodySnoc(body, line);
      }
    }
  }

  /** At most one section per heading line, plus the one opened before the first heading. */
  lemma {:induction false} SegmentFromCount(lines: seq<string>, title: string, content: string)
    ensures |SegmentFrom(lines, title, content)| <= Headings(lines) + 1
    decreases |lines|
  {
    if lines != [] {
      var line := Strip(lines[0]);
      if line == [] {
        SegmentFromCount(lines[1..], title, content);
      } else if IsHeading(line) {
        SegmentFromCount(lines[1..], line, []);
      } else {
        SegmentFromCount(lines[1..], title, content + line + "\n");
      }
    }
  }

  /** A raw line that the segmenter treats as a heading. */
  predicate HeadingLine(line: string) {
    Strip(line) != [] && IsHeading(Strip(line))
  }

  /** The index of the first heading line at or after `from`, or `|lines|` when there is
      none. */
  function NextHeading(lines: seq<string>, from: nat): (r: nat)
    requires from <= |lines|
    ensures from <= r <= |lines|
    ensures r < |lines| ==> HeadingLine(lines[r])
    decreases |lines| - from
  {
    if from == |lines| || HeadingLine(lines[from]) then from else NextHeading(lines, from + 1)
  }

  /** No line before `NextHeading(lines, from)` is a heading. */
  lemma {:induction false} NextHeadingIsFirst(lines: seq<string>, from: nat, i: nat)
    requires from <= |lines| && from <= i < NextHeading(lines, from)
    ensures !HeadingLine(lines[i])
    decreases |lines| - from
  {
    if i > from {
      NextHeadingIsFirst(lines, from + 1, i);
    }
  }

  /** Dropping the first line shifts every heading index by one. */
  lemma {:induction false} NextHeadingShift(lines: seq<string>, from: nat)
    requires 1 <= from <= |lines|
    ensures NextHeading(lines, from) == 1 + NextHeading(lines[1..], from - 1)
    decreases |lines| - from
  {
    if from < |lines| {
      assert lines[1..][from - 1] == lines[from];
      if !HeadingLine(lines[from]) {
        NextHeadingShift(lines, from + 1);
      }
    }
  }

  /** `s` is the section opened with `title` and `content`: its content is that content
      followed by the text lines before the first heading of `lines`. */
  ghost predicate OpenedFirst(lines: seq<string>, title: string, content: string, s: Section) {
    s.title == title && s.content == content + Body(TextLines(lines[..NextHeading(lines, 0)]))
  }

  /** `s` is the section the heading line `lines[j]` opened: its title is that line
      stripped, and its content the text lines between that heading and the next. */
  ghost predicate OpenedAt(lines: seq<string>, j: int, s: Section) {
    && 0 <= j < |lines| && HeadingLine(lines[j])
    && s.title == Strip(lines[j]) && s.content == Body(TextLines(lines[j + 1..NextHeading(lines, j + 1)]))
  }

  /** `s` is the section some heading line of `lines` opened. */
  ghost predicate OpenedByHeading(lines: seq<string>, s: Section) {
    exists j :: OpenedAt(lines, j, s)
  }

  lemma AtShift(lines: seq<string>, j: int, s: Section)
    requires lines != [] && OpenedAt(lines[1..], j, s)
    ensures OpenedAt(lines, j + 1, s)
  {
    var rest := lines[1..];
    var next := NextHeading(rest, j + 1);
    NextHeadingShift(lines, j + 2);
    SliceOfTail(lines, j + 1, next);
    IndexOfTail(lines, j);
    assert s.content == Body(TextLines(lines[j + 2..NextHeading(lines, j + 2)]));
  }

  lemma ByHeadingShift(lines: seq<string>, s: Section)
    requires lines != [] && OpenedByHeading(lines[1..], s)
    ensures OpenedByHeading(lines, s)
  {
    var j :| OpenedAt(lines[1..], j, s);
    AtShift(lines, j, s);
  }

  lemma FirstShiftBlank(lines: seq<string>, title: string, content: string, s: Section)
    requires lines != [] && Strip(lines[0]) == []
    requires OpenedFirst(lines[1..], title, content, s)
    ensures OpenedFirst(lines, title, content, s)
  {
    var m := NextHeading(lines[1..], 0);
    NextHeadingShift(lines, 1);
    assert NextHeading(lines, 0) == m + 1;
    var prefix := lines[..m + 1];
    assert prefix[0] == lines[0];
    assert prefix[1..] == lines[1..][..m];
    TextLinesHead(prefix);
    assert TextLines(prefix) == TextLines(lines[1..][..m]);
  }

  /** The text lines of a prefix that starts with a text line. */
  lemma TextLinesPrefix(lines: seq<string>, m: nat)
    requires m < |lines| && Strip(lines[0]) != [] && !IsHeading(Strip(lines[0]))
    ensures TextLines(lines[..m + 1]) == [Strip(lines[0])] + TextLines(lines[1..][..m])
  {
    var prefix := lines[..m + 1];
    assert prefix[0] == lines[0];
    assert prefix[1..] == lines[1..][..m];
    TextLinesHead(prefix);
  }

  lemma FirstShiftText(lines: seq<string>, title: string, content: string, s: Section)
    requires lines != [] && Strip(lines[0]) != [] && !IsHeading(Strip(lines[0]))
    requires OpenedFirst(lines[1..], title, content + Strip(lines[0]) + "\n", s)
    ensures OpenedFirst(lines, title, content, s)
  {
    var line := Strip(lines[0]);
    var m := NextHeading(lines[1..], 0);
    NextHeadingShift(lines, 1);
    assert NextHeading(lines, 0) == m + 1;
    var rest := TextLines(lines[1..][..m]);
    assert s.content == (content + line + "\n") + Body(rest);
    TextLinesPrefix(lines, m);
    ContentCons(content, line, rest, s.content);
  }

  /** Moving one text line from the accumulated content into the body. */
  lemma ContentCons(content: string, line: string, rest: seq<string>, x: string)
    requires x == (content + line + "\n") + Body(rest)
    ensures x == content + Body([line] + rest)
  {
    BodyCons(line, rest);
  }

  lemma FirstAfterHeading(lines: seq<string>, s: Section)
    requires lines != [] && HeadingLine(lines[0])
    requires OpenedFirst(lines[1..], Strip(lines[0]), [], s)
    ensures OpenedByHeading(lines, s)
  {
    NextHeadingShift(lines, 1);
    assert lines[1..NextHeading(lines, 1)] == lines[1..][..NextHeading(lines[1..], 0)];
    assert [] + Body(TextLines(lines[1..][..NextHeading(lines[1..], 0)]))
      == Body(TextLines(lines[1..][..NextHeading(lines[1..], 0)]));
    assert OpenedAt(lines, 0, s);
  }

  /** Every emitted section is either the one opened before the first heading, or the one
      a heading line opened, titled by that stripped heading and holding exactly the
      text lines up to the next heading. */
  lemma {:induction false} SectionOpened(lines: seq<string>, title: string, content: string, k: nat)
    requires k < |SegmentFrom(lines, title, content)|
    ensures OpenedFirst(lines, title, content, SegmentFrom(lines, title, content)[k])
      || OpenedByHeading(lines, SegmentFrom(lines, title, content)[k])
    decreases |lines|
  {
    var r := SegmentFrom(lines, title, content);
    if lines == [] {
      assert r[k] == Section(title, content, 1);
      assert lines[..NextHeading(lines, 0)] == [];
      assert content + Body(TextLines([])) == content;
    } else {
      var line := Strip(lines[0]);
      var rest := lines[1..];
      if line == [] {
        SectionOpened(rest, title, content, k);
        if OpenedFirst(rest, title, content, r[k]) {
          FirstShiftBlank(lines, title, content, r[k]);
        } else {
          ByHeadingShift(lines, r[k]);
        }
      } else if IsHeading(line) {
        var e := Emit(title, content);
        if k < |e| {
          assert r[k] == Section(title, content, 1);
          assert lines[..NextHeading(lines, 0)] == [];
          assert content + Body(TextLines([])) == content;
        } else {
          var tail := SegmentFrom(rest, line, []);
          assert r[k] == tail[k - |e|];
          SectionOpened(rest, line, [], k - |e|);
          if OpenedFirst(rest, line, [], tail[k - |e|]) {
            FirstAfterHeading(lines, r[k]);
          } else {
            ByHeadingShift(lines, r[k]);
          }
        }
      } else {
        var content' := content + line + "\n";
        SectionOpened(rest, title, content', k);
        if OpenedFirst(rest, title, content', r[k]) {
          FirstShiftText(lines, title, content, r[k]);
        } else {
          ByHeadingShift(lines, r[k]);
        }
      }
    }
  }

  /** `extract_sections_simple` on a whole text: every section is either "Introduction",
      holding the text lines before the first heading, or is titled by the stripped
      heading line that opened it and holds exactly the text lines up to the next
      heading. */
  lemma SegmentTitles(text: string)
    ensures var lines := Split(text, "\n");
      forall k | 0 <= k < |Segment(lines)| ::
        OpenedFirst(lines, "Introduction", [], Segment(lines)[k]) || OpenedByHeading(lines, Segment(lines)[k])
  {
    var lines := Split(text, "\n");
    forall k | 0 <= k < |Segment(lines)|
      ensures OpenedFirst(lines, "Introduction", [], Segment(lines)[k]) || OpenedByHeading(lines, Segment(lines)[k])
    {
      SectionOpened(lines, "Introduction", [], k);
    }
  }

  /** A heading directly followed by another heading opens a section that is never
      emitted: its content is still empty when the second heading arrives. */
  lemma HeadingAfterHeading(first: string, second: string, rest: seq<string>, title: string, content: string)
    requires Strip(first) != [] && IsHeading(Strip(first))
    requires Strip(second) != [] && IsHeading(Strip(second))
    ensures SegmentFrom([first, second] + rest, title, content)
      == Emit(title, content) + SegmentFrom(rest, Strip(second), [])
  {
    var lines := [first, second] + rest;
    assert lines[0] == first && lines[1] == second;
    assert lines[0..] == lines;
    assert lines[2..] == rest;
    var tail := SegmentFrom(lines[1..], Strip(first), []);
    SegmentStep(lines, 0, title, content);
    assert SegmentFrom(lines, title, content) == Emit(title, content) + tail;
    SegmentStep(lines, 1, Strip(first), []);
    assert Emit(Strip(first), []) == [];
    assert tail == SegmentFrom(rest, Strip(second), []);
  }

  /** `extract_sections_simple` on a whole text: lossless, well formed, and bounded by
      the number of headings. */
  lemma SegmentText(text: string)
    ensures var lines := Split(text, "\n");
      && Contents(Segment(lines)) == Body(TextLines(lines))
      && WellSegmented(Segment(lines), "Introduction")
      && |Segment(lines)| <= Headings(lines) + 1
  {
    var lines := Split(text, "\n");
    SplitPiecesExclude(text, '\n');
    SegmentFromLossless(lines, "Introduction", []);
    SegmentFromShape(lines, "Introduction", []);
    SegmentFromCount(lines, "Introduction", []);
    assert [] + TextLines(lines) == TextLines(lines);
  }

  /** Past the last line, only the collected section remains to be emitted. */
  lemma SegmentEnd(lines: seq<string>, title: string, content: string)
    ensures SegmentFrom(lines[|lines|..], title, content) == Emit(title, content)
  {
    assert lines[|lines|..] == [];
  }

  lemma BlankStep(sections: seq<Section>, lines: seq<string>, i: nat, title: string, content: string,
                  goal: seq<Section>)
    requires i < |lines| && Strip(lines[i]) == []
    requires sections + SegmentFrom(lines[i..], title, content) == goal
    ensures sections + SegmentFrom(lines[i + 1..], title, content) == goal
  {
    SegmentStep(lines, i, title, content);
  }

  lemma HeadingStep(sections: seq<Section>, lines: seq<string>, i: nat, title: string, content: string,
                    goal: seq<Section>)
    requires i < |lines| && Strip(lines[i]) != [] && IsHeading(Strip(lines[i]))
    requires sections + SegmentFrom(lines[i..], title, content) == goal
    ensures (sections + Emit(title, content)) + SegmentFrom(lines[i + 1..], Strip(lines[i]), []) == goal
  {
    var rest := SegmentFrom(lines[i + 1..], Strip(lines[i]), []);
    SegmentStep(lines, i, title, content);
    assert sections + (Emit(title, content) + rest) == (sections + Emit(title, content)) + rest;
  }

  lemma TextStep(sections: seq<Section>, lines: seq<string>, i: nat, title: string, content: string,
                 goal: seq<Section>)
    requires i < |lines| && Strip(lines[i]) != [] && !IsHeading(Strip(lines[i]))
    requires sections + SegmentFrom(lines[i..], title, content) == goal
    ensures sections + SegmentFrom(lines[i + 1..], title, content + Strip(lines[i]) + "\n") == goal
  {
    SegmentStep(lines, i, title, content);
  }

  /** `extract_sections_simple`: splits the text on line feeds, then segments the lines. */
  method ExtractSections(text: string) returns (sections: seq<Section>)
    ensures sections == Segment(Split(text, "\n"))
  {
    sections := SegmentLines(Split(text, "\n"));
  }

  /** The loop of `extract_sections_simple`: strips every line, skips blank ones, starts
      a fresh section at each heading and otherwise appends the line and a line feed to
      the current content. */
  method SegmentLines(lines: seq<string>) returns (sections: seq<Section>)
    ensures sections == Segment(lines)
  {
    ghost var goal := Segment(lines);
    sections := [];
    var currentTitle := "Introduction";
    var content := "";
    assert lines[0..] == lines;
    for i := 0 to |lines|
      invariant sections + SegmentFrom(lines[i..], currentTitle, content) == goal
    {
      var line := Strip(lines[i]);
      if line == [] {
        BlankStep(sections, lines, i, currentTitle, content, goal);
        continue;
      }
      if IsHeading(line) {
        HeadingStep(sections, lines, i, currentTitle, content, goal);
        sections := AppendIfNonBlank(sections, currentTitle, content);
        currentTitle := line;
        content := "";
      } else {
        TextStep(sections, lines, i, currentTitle, content, goal);
        content := content + line + "\n";
      }
    }
    SegmentEnd(lines, currentTitle, content);
    sections := AppendIfNonBlank(sections, currentTitle, content);
  }

  /** `if current_section["content"].strip(): sections.append(current_section)` */
  method AppendIfNonBlank(sections: seq<Section>, title: string, content: string) returns (r: seq<Section>)
    ensures r == sections + Emit(title, content)
  {
    r := sections;
    if Strip(content) != [] {
      r := r + [Section(title, content, 1)];
    }
  }

  // ----- rank_sections_simple -----

  /** The persona keyword table shared by `rank_sections_simple` and `rank_sections_fast`:
      six or eight keywords for a known persona, none for any other. */
  function RankKeywords(persona: string): (r: seq<string>)
    ensures r == [] <==> !KnownPersona(persona)
    ensures KnownPersona(persona) ==> 6 <= |r| <= 8
  {
    if persona == "Travel Planner" then ["travel", "trip", "destination", "hotel", "flight", "vacation"]
    else if persona == "Food Contractor" then
      ["menu", "food", "catering", "recipe", "ingredients", "breakfast", "lunch", "dinner"]
    else if persona == "Business Analyst" then ["business", "strategy", "market", "analysis", "financial", "revenue"]
    else if persona == "Student" then ["study", "education", "learning", "course", "assignment", "research"]
    else if persona == "Researcher" then ["research", "study", "analysis", "data", "findings", "methodology"]
    else []
  }

  /** Scoring without the length bonus. */
  function Policy(persona: string, job: string): ScorePolicy {
    ScorePolicy(RankKeywords(persona), job, false)
  }

  /** `rank_sections_simple`: every section scored, sorted stably by non-increasing score
      and numbered 1..N. */
  method RankSections(sections: seq<Section>, persona: string, job: string) returns (ranked: seq<RankedSection>)
    ensures IsRanking(sections, Policy(persona, job), ranked)
    ensures sections == [] ==> ranked == []
  {
    ranked := Ranking.RankSections(sections, Policy(persona, job));
  }

  /** With a persona outside the table, the score is the number of job words longer than
      three characters found in the lower-cased content. */
  lemma UnknownPersonaScore(s: Section, persona: string, job: string)
    requires !KnownPersona(persona)
    ensures SectionScore(s, Policy(persona, job)) == JobPoints(Words(Lower(job)), Lower(s.content))
  {
    NoKeywordsScore(s, Policy(persona, job));
  }

  /** No section earns more than five points per keyword plus one per job word. */
  lemma ScoreBound(s: Section, persona: string, job: string)
    ensures SectionScore(s, Policy(persona, job)) <= 5 * |RankKeywords(persona)| + |Words(Lower(job))|
  {
  }

  // ----- analyze_subsections_simple -----

  /** The insight for the paragraph at 1-based position `index`; its relevance is the
      number of key points. */
  function InsightOf(index: int, paragraph: string): (r: Insight)
    ensures r.paragraph == index && |r.content| <= 153
    ensures 0 <= r.relevanceScore == |r.keyPoints| <= 2
  {
    var keyPoints := ShortKeyPoints(paragraph);
    Insight(index, Excerpt(paragraph, 150), keyPoints, |keyPoints|)
  }

  /** What `analyze_subsections_simple` returns: the first three paragraphs longer than
      50 characters, numbered 1, 2, 3, each scored by its number of key points. */
  function Analysis(sectionContent: string): (r: seq<Insight>)
    ensures |r| <= 3
    ensures forall k | 0 <= k < |r| :: r[k].paragraph == k + 1 && r[k].relevanceScore == |r[k].keyPoints| <= 2
  {
    InsightsOf(Take(LongParagraphs(sectionContent), 3))
  }

  /** The insights of the paragraphs `ps`, numbered from 1 in order. */
  function InsightsOf(ps: seq<string>): (r: seq<Insight>)
    ensures |r| == |ps|
    ensures forall k | 0 <= k < |r| :: r[k] == InsightOf(k + 1, ps[k])
  {
    seq(|ps|, k requires 0 <= k < |ps| => InsightOf(k + 1, ps[k]))
  }

  /** One iteration of the paragraph loop of `analyze_subsections_simple`. */
  lemma AnalyzeStep(ps: seq<string>, i: nat)
    requires i < |ps|
    ensures InsightsOf(ps[..i + 1]) == InsightsOf(ps[..i]) + [InsightOf(i + 1, ps[i])]
  {
    var a, b := InsightsOf(ps[..i + 1]), InsightsOf(ps[..i]) + [InsightOf(i + 1, ps[i])];
    assert |a| == |b|;
    forall k | 0 <= k < |a|
      ensures a[k] == b[k]
    {
      if k < i {
        assert ps[..i + 1][k] == ps[..i][k];
      }
    }
  }

  /** `analyze_subsections_simple`. */
  method AnalyzeSubsections(sectionContent: string) returns (insights: seq<Insight>)
    ensures insights == Analysis(sectionContent)
  {
    var paragraphs := LongParagraphs(sectionContent);
    var first := Take(paragraphs, 3);
    insights := [];
    for i := 0 to |first|
      invariant insights == InsightsOf(first[..i])
    {
      var paragraph := first[i];
      var keyPoints := ShortKeyPoints(paragraph);
      var insight := Insight(i + 1, Excerpt(paragraph, 150), keyPoints, |keyPoints|);
      AnalyzeStep(first, i);
      insights := insights + [insight];
    }
    assert first[..|first|] == first;
  }

  /** The analysis reports exactly the first three long paragraphs (fewer if there are
      fewer), numbered consecutively from 1, each with an excerpt of at most 153
      characters, at most two key points of more than 20 characters, and a relevance
      equal to the number of key points. */
  lemma AnalysisShape(sectionContent: string)
    ensures var r := Analysis(sectionContent); var ps := LongParagraphs(sectionContent);
      && |r| == (if |ps| < 3 then |ps| else 3)
      && forall k | 0 <= k < |r| ::
        && r[k].paragraph == k + 1
        && |ps[k]| > 50
        && r[k] == InsightOf(k + 1, ps[k])
        && |r[k].content| <= 153
        && |r[k].keyPoints| <= 2
        && (forall j | 0 <= j < |r[k].keyPoints| :: |r[k].keyPoints[j]| > 20)
        && 0 <= r[k].relevanceScore == |r[k].keyPoints| <= 2
  {
    var ps := LongParagraphs(sectionContent);
    var first := Take(ps, 3);
    assert forall k | 0 <= k < |first| :: first[k] == ps[k];
  }

  /** For every section the segmenter emits, the analysis has one insight at most: the
      content holds no blank line, so it is a single paragraph. */
  lemma SegmentedSectionHasOneInsightAtMost(text: string, k: nat)
    requires k < |Segment(Split(text, "\n"))|
    ensures |Analysis(Segment(Split(text, "\n"))[k].content)| <= 1
  {
    SegmentText(text);
    FewParagraphs(Segment(Split(text, "\n"))[k].content);
  }

  // ----- persona and job from input.json -----

  datatype Option<T> = None | Some(value: T)

  /** A parsed JSON value (numbers are kept as integers). */
  datatype Json = JNull | JBool(b: bool) | JNum(n: int) | JStr(s: string) | JArr(items: seq<Json>)
                | JObj(fields: map<string, Json>)

  /** The persona and job the pipeline runs with; either may be any JSON value the file holds. */
  datatype Config = Config(persona: Json, job: Json)

  const Defaults := Config(JStr("Food Contractor"), JStr("Analyze document"))

  /** `d.get(key, default)` on a JSON object. */
  function Get(fields: map<string, Json>, key: string, default: Json): Json {
    if key in fields then fields[key] else default
  }

  /** The persona and job read from `input.json`; `None` stands for a missing or
      unparsable file. Calling `.get` on a value that is not an object raises, and the
      handler then resets both to their defaults. */
  function ResolveConfig(input: Option<Json>): (c: Config)
    ensures !(input.Some? && input.value.JObj?) ==> c == Defaults
  {
    match input
    case None => Defaults
    case Some(data) =>
      if !data.JObj? then Defaults
      else
        var personaData := Get(data.fields, "persona", Defaults.persona);
        var persona := if personaData.JObj? then Get(personaData.fields, "role", JStr("Food Contractor")) else personaData;
        var jobData := Get(data.fields, "job_to_be_done", JObj(map[]));
        if !jobData.JObj? then Defaults
        else Config(persona, Get(jobData.fields, "task", Defaults.job))
  }

  /** A string persona and a job object with a task are used as given, whatever other
      keys the document holds. */
  lemma ConfigFromStrings(data: map<string, Json>, persona: string, task: Json)
    requires "persona" in data && data["persona"] == JStr(persona)
    requires "job_to_be_done" in data && data["job_to_be_done"].JObj?
    requires "task" in data["job_to_be_done"].fields && data["job_to_be_done"].fields["task"] == task
    ensures ResolveConfig(Some(JObj(data))) == Config(JStr(persona), task)
  {
  }

  /** A persona object contributes its role, or "Food Contractor" when it has none; the
      job is the task of the job object, or the default job when the object or its task
      is missing. */
  lemma ConfigPersonaObject(data: map<string, Json>)
    requires "persona" in data && data["persona"].JObj?
    requires "job_to_be_done" !in data || data["job_to_be_done"].JObj?
    ensures ResolveConfig(Some(JObj(data))).job
      == if "job_to_be_done" in data && "task" in data["job_to_be_done"].fields
         then data["job_to_be_done"].fields["task"] else Defaults.job
    ensures ResolveConfig(Some(JObj(data))).persona
      == if "role" in data["persona"].fields then data["persona"].fields["role"] else JStr("Food Contractor")
  {
  }

  /** A `job_to_be_done` that is not an object discards the persona too. */
  lemma ConfigJobNotObject(data: map<string, Json>)
    requires "job_to_be_done" in data && !data["job_to_be_done"].JObj?
    ensures ResolveConfig(Some(JObj(data))) == Defaults
  {
  }
}
