/**
 * The web-application variant of the Challenge_1b pipeline
 * (`Challenge_1b/server/process_pdfs_webapp.py`): line-based section segmentation,
 * persona-driven ranking with a length bonus, and paragraph-level subsection analysis.
 */
module Webapp {
  import opened PyStr
  import opened Ranking
  import opened Insights

  const Enumerators: seq<string> := ["1.", "2.", "3.", "4.", "5.", "6.", "7.", "8.", "9.", "10."]
  const RomanEnumerators: seq<string> := ["I.", "II.", "III.", "IV.", "V.", "VI.", "VII.", "VIII.", "IX.", "X."]
  const StructuralWords: seq<string> := ["Chapter", "Section", "Part", "Introduction", "Conclusion", "Summary"]

  /** The heading test of `extract_sections`, clause by clause (the stripped line is
      given); an empty line is never a heading. */
  predicate IsHeading(line: string): (r: bool)
    ensures r ==> line != []
  {
    || IsUpper(line)
    || StartsWithAny(line, Enumerators)
    || StartsWithAny(line, RomanEnumerators)
    || (|line| < 100 && EndsWith(line, ":"))
    || (|line| < 80 && IsUpper(line))
    || StartsWithAny(line, StructuralWords)
  }

  lemma StartsWithAnyAppend(line: string, a: seq<string>, b: seq<string>)
    ensures StartsWithAny(line, a + b) <==> StartsWithAny(line, a) || StartsWithAny(line, b)
  {
    if StartsWithAny(line, a + b) {
      var k :| 0 <= k < |a + b| && StartsWith(line, (a + b)[k]);
      if k >= |a| {
        assert b[k - |a|] == (a + b)[k];
      }
    }
    if StartsWithAny(line, a) {
      var k :| 0 <= k < |a| && StartsWith(line, a[k]);
      assert (a + b)[k] == a[k];
    }
    if StartsWithAny(line, b) {
      var k :| 0 <= k < |b| && StartsWith(line, b[k]);
      assert (a + b)[|a| + k] == b[k];
    }
  }

  /** The fifth clause is subsumed by the first: a line is a heading exactly when it is
      upper case, starts with an enumerator, is a short line ending with a colon, or starts
      with a structural word. */
  lemma HeadingRule(line: string)
    ensures IsHeading(line) <==>
      || IsUpper(line)
      || StartsWithAny(line, Enumerators + RomanEnumerators)
      || (|line| < 100 && EndsWith(line, ":"))
      || StartsWithAny(line, StructuralWords)
  {
    StartsWithAnyAppend(line, Enumerators, RomanEnumerators);
  }

  /** The section that the lines collected so far make, if there are any. */
  function Flush(title: string, current: seq<string>): seq<Section> {
    if current == [] then [] else [Section(title, Join(current, "\n"), 1)]
  }

  /** The sections that `extract_sections` emits for the remaining raw `lines`, given the
      current title and the stripped lines collected under it. */
  function SegmentFrom(lines: seq<string>, title: string, current: seq<string>): seq<Section>
    decreases |lines|
  {
    if lines == [] then Flush(title, current)
    else
      var line := Strip(lines[0]);
      if line == [] then SegmentFrom(lines[1..], title, current)
      else if IsHeading(line) then Flush(title, current) + SegmentFrom(lines[1..], line, [line])
      else SegmentFrom(lines[1..], title, current + [line])
  }

  /** `extract_sections` on the lines of a text. */
  function Segment(lines: seq<string>): seq<Section> {
    SegmentFrom(lines, "Introduction", [])
  }

  /** The lines of every section's content, in order. */
  function ContentLines(sections: seq<Section>): seq<string> {
    if sections == [] then [] else Split(sections[0].content, "\n") + ContentLines(sections[1..])
  }

  /** A section opened by a heading: its title is its first line, which is a heading,
      and no later line is one. */
  predicate HeadingLed(s: Section) {
    var ls := Split(s.content, "\n");
    ls[0] == s.title && IsHeading(s.title) && forall j | 1 <= j < |ls| :: !IsHeading(ls[j])
  }

  /** The section of lines that precede the first heading: titled "Introduction",
      holding no heading at all. */
  predicate IntroLed(s: Section) {
    var ls := Split(s.content, "\n");
    s.title == "Introduction" && forall j | 0 <= j < |ls| :: !IsHeading(ls[j])
  }

  /** What holds of the collector between two lines of `extract_sections`. */
  predicate Collecting(title: string, current: seq<string>) {
    && (forall k | 0 <= k < |current| :: CleanLine(current[k]))
    && (forall j | 1 <= j < |current| :: !IsHeading(current[j]))
    && (current == [] ==> title == "Introduction")
    && (current != [] ==>
          (current[0] == title && IsHeading(title)) || (title == "Introduction" && !IsHeading(current[0])))
  }

  /** The section flushed from a collector is well formed and splits back into its lines. */
  lemma FlushProperties(title: string, current: seq<string>)
    requires Collecting(title, current)
    requires current != []
    ensures Split(Join(current, "\n"), "\n") == current
    ensures var s := Section(title, Join(current, "\n"), 1);
      && (HeadingLed(s) || IntroLed(s))
      && (IsHeading(current[0]) ==> HeadingLed(s))
      && NoBlankLineBreak(s.content) && s.content != [] && !IsSpace(s.content[0])
  {
    SplitJoin(current, '\n');
    JoinLinesNoBlankLine(current);
  }

  /** Every emitted section is non-empty, on page 1, starts with a non-space character,
      has no blank line, and is either heading-led or (first only) the introduction. */
  ghost predicate WellSegmented(sections: seq<Section>) {
    && (forall k | 0 <= k < |sections| ::
          && sections[k].page == 1
          && sections[k].content != [] && !IsSpace(sections[k].content[0])
          && NoBlankLineBreak(sections[k].content))
    && (forall k | 0 <= k < |sections| :: HeadingLed(sections[k]) || (k == 0 && IntroLed(sections[k])))
  }

  lemma {:induction false} SegmentFromShape(lines: seq<string>, title: string, current: seq<string>)
    requires forall k | 0 <= k < |lines| :: '\n' !in lines[k]
    requires Collecting(title, current)
    ensures WellSegmented(SegmentFrom(lines, title, current))
    ensures current != [] && IsHeading(current[0]) ==>
      forall k | 0 <= k < |SegmentFrom(lines, title, current)| :: HeadingLed(SegmentFrom(lines, title, current)[k])
    decreases |lines|
  {
    if current != [] {
      FlushProperties(title, current);
    }
    if lines != [] {
      var line := Strip(lines[0]);
      StripNoLineFeed(lines[0]);
      if line == [] {
        SegmentFromShape(lines[1..], title, current);
      } else if IsHeading(line) {
        SegmentFromShape(lines[1..], line, [line]);
      } else {
        SegmentFromShape(lines[1..], title, current + [line]);
      }
    }
  }

  lemma ContentLinesAppend(a: seq<Section>, b: seq<Section>)
    ensures ContentLines(a + b) == ContentLines(a) + ContentLines(b)
  {
    if a == [] {
      assert a + b == b;
    } else {
      assert (a + b)[1..] == a[1..] + b;
      ContentLinesAppend(a[1..], b);
    }
  }

  lemma {:induction false} StrippedNonBlankAppend(a: seq<string>, b: seq<string>)
    ensures StrippedNonBlank(a + b) == StrippedNonBlank(a) + StrippedNonBlank(b)
  {
    if a == [] {
      assert a + b == b;
    } else {
      assert (a + b)[1..] == a[1..] + b;
      StrippedNonBlankAppend(a[1..], b);
    }
  }

  /** The flushed section's content splits back into the collected lines. */
  lemma FlushLines(title: string, current: seq<string>)
    requires forall k | 0 <= k < |current| :: CleanLine(current[k])
    ensures ContentLines(Flush(title, current)) == current
  {
    if current != [] {
      SplitJoin(current, '\n');
      assert ContentLines(Flush(title, current)) == current + ContentLines([]);
    }
  }

  /** How `SegmentFrom` consumes the line at index `i`. */
  lemma SegmentStep(lines: seq<string>, i: nat, title: string, current: seq<string>)
    requires i < |lines|
    ensures var line := Strip(lines[i]);
      SegmentFrom(lines[i..], title, current) ==
        if line == [] then SegmentFrom(lines[i + 1..], title, current)
        else if IsHeading(line) then Flush(title, current) + SegmentFrom(lines[i + 1..], line, [line])
        else SegmentFrom(lines[i + 1..], title, current + [line])
  {
    assert lines[i..][1..] == lines[i + 1..];
  }

  /** The stripped, non-blank entries of a non-empty list, split at its head. */
  lemma StrippedNonBlankHead(lines: seq<string>)
    requires lines != []
    ensures StrippedNonBlank(lines) ==
      (if Strip(lines[0]) != [] then [Strip(lines[0])] else []) + StrippedNonBlank(lines[1..])
  {
  }

  /** One step of `SegmentFromLossless` for a blank line. */
  lemma LosslessBlank(lines: seq<string>, title: string, current: seq<string>)
    requires lines != [] && Strip(lines[0]) == []
    requires ContentLines(SegmentFrom(lines[1..], title, current)) == current + StrippedNonBlank(lines[1..])
    ensures ContentLines(SegmentFrom(lines, title, current)) == current + StrippedNonBlank(lines)
  {
    StrippedNonBlankHead(lines);
    SegmentStep(lines, 0, title, current);
    assert lines[0..] == lines;
  }

  /** One step of `SegmentFromLossless` for a heading line. */
  lemma LosslessHeading(lines: seq<string>, title: string, current: seq<string>)
    requires lines != [] && CleanLine(Strip(lines[0])) && IsHeading(Strip(lines[0]))
    requires forall k | 0 <= k < |current| :: CleanLine(current[k])
    requires ContentLines(SegmentFrom(lines[1..], Strip(lines[0]), [Strip(lines[0])]))
      == [Strip(lines[0])] + StrippedNonBlank(lines[1..])
    ensures ContentLines(SegmentFrom(lines, title, current)) == current + StrippedNonBlank(lines)
  {
    var line := Strip(lines[0]);
    var rest := SegmentFrom(lines[1..], line, [line]);
    StrippedNonBlankHead(lines);
    SegmentStep(lines, 0, title, current);
    assert lines[0..] == lines;
    ContentLinesAppend(Flush(title, current), rest);
    FlushLines(title, current);
  }

  /** One step of `SegmentFromLossless` for a line that continues the current section. */
  lemma LosslessText(lines: seq<string>, title: string, current: seq<string>)
    requires lines != [] && Strip(lines[0]) != [] && !IsHeading(Strip(lines[0]))
    requires ContentLines(SegmentFrom(lines[1..], title, current + [Strip(lines[0])]))
      == (current + [Strip(lines[0])]) + StrippedNonBlank(lines[1..])
    ensures ContentLines(SegmentFrom(lines, title, current)) == current + StrippedNonBlank(lines)
  {
    var line := Strip(lines[0]);
    StrippedNonBlankHead(lines);
    assert SegmentFrom(lines, title, current) == SegmentFrom(lines[1..], title, current + [line]);
    AppendAssoc(current, [line], StrippedNonBlank(lines[1..]));
  }

  /** Nothing is lost or reordered: the content lines of the emitted sections are the
      collected lines followed by every stripped, non-blank remaining line. */
  lemma {:induction false} SegmentFromLossless(lines: seq<string>, title: string, current: seq<string>)
    requires forall k | 0 <= k < |lines| :: '\n' !in lines[k]
    requires forall k | 0 <= k < |current| :: CleanLine(current[k])
    ensures ContentLines(SegmentFrom(lines, title, current)) == current + StrippedNonBlank(lines)
    decreases |lines|
  {
    if lines == [] {
      FlushLines(title, current);
    } else {
      var line := Strip(lines[0]);
      StripNoLineFeed(lines[0]);
      if line == [] {
        SegmentFromLossless(lines[1..], title, current);
        LosslessBlank(lines, title, current);
      } else if IsHeading(line) {
        SegmentFromLossless(lines[1..], line, [line]);
        LosslessHeading(lines, title, current);
      } else {
        SegmentFromLossless(lines[1..], title, current + [line]);
        LosslessText(lines, title, current);
      }
    }
  }

  /** In segmenter output, the first section is titled by the first content line when
      that line is a heading, and "Introduction" otherwise; there is no section exactly
      when there is no content line. */
  lemma FirstTitle(sections: seq<Section>, ls: seq<string>)
    requires WellSegmented(sections)
    requires ContentLines(sections) == ls
    ensures sections == [] <==> ls == []
    ensures ls != [] ==> sections[0].title == if IsHeading(ls[0]) then ls[0] else "Introduction"
  {
    if sections != [] {
      assert ContentLines(sections) == Split(sections[0].content, "\n") + ContentLines(sections[1..]);
      assert ls[0] == Split(sections[0].content, "\n")[0];
    }
  }

  /** Past the last line, only the collected section remains to be flushed. */
  lemma SegmentEnd(lines: seq<string>, title: string, current: seq<string>)
    ensures SegmentFrom(lines[|lines|..], title, current) == Flush(title, current)
  {
    assert lines[|lines|..] == [];
  }

  /** The loop of `extract_sections` at a blank line: nothing changes. */
  lemma BlankStep(sections: seq<Section>, lines: seq<string>, i: nat, title: string, current: seq<string>,
                  goal: seq<Section>)
    requires i < |lines| && Strip(lines[i]) == []
    requires sections + SegmentFrom(lines[i..], title, current) == goal
    ensures sections + SegmentFrom(lines[i + 1..], title, current) == goal
  {
    SegmentStep(lines, i, title, current);
  }

  /** The loop of `extract_sections` at a heading line: the section collected so far
      is flushed and a new one opens with the heading. */
  lemma HeadingStep(sections: seq<Section>, lines: seq<string>, i: nat, title: string, current: seq<string>,
                    goal: seq<Section>)
    requires i < |lines| && Strip(lines[i]) != [] && IsHeading(Strip(lines[i]))
    requires sections + SegmentFrom(lines[i..], title, current) == goal
    ensures (sections + Flush(title, current)) + SegmentFrom(lines[i + 1..], Strip(lines[i]), [Strip(lines[i])]) == goal
  {
    var line := Strip(lines[i]);
    var rest := SegmentFrom(lines[i + 1..], line, [line]);
    SegmentStep(lines, i, title, current);
    assert sections + (Flush(title, current) + rest) == (sections + Flush(title, current)) + rest;
  }

  /** The loop of `extract_sections` at any other line: the line joins the current section. */
  lemma TextStep(sections: seq<Section>, lines: seq<string>, i: nat, title: string, current: seq<string>,
                 goal: seq<Section>)
    requires i < |lines| && Strip(lines[i]) != [] && !IsHeading(Strip(lines[i]))
    requires sections + SegmentFrom(lines[i..], title, current) == goal
    ensures sections + SegmentFrom(lines[i + 1..], title, current + [Strip(lines[i])]) == goal
  {
    SegmentStep(lines, i, title, current);
  }

  /** `extract_sections`: splits the text on line feeds, then segments the lines. */
  method ExtractSections(text: string) returns (sections: seq<Section>)
    ensures sections == Segment(Split(text, "\n"))
  {
    sections := SegmentLines(Split(text, "\n"));
  }

  /** The loop of `extract_sections`: strips every line, skips blank ones, and opens a
      new section at each heading. */
  method SegmentLines(lines: seq<string>) returns (sections: seq<Section>)
    ensures sections == Segment(lines)
  {
    ghost var goal := Segment(lines);
    sections := [];
    var current: seq<string> := [];
    var currentTitle := "Introduction";
    assert lines[0..] == lines;
    for i := 0 to |lines|
      invariant sections + SegmentFrom(lines[i..], currentTitle, current) == goal
    {
      var line := Strip(lines[i]);
      if line == [] {
        BlankStep(sections, lines, i, currentTitle, current, goal);
        continue;
      }
      if IsHeading(line) {
        HeadingStep(sections, lines, i, currentTitle, current, goal);
        ghost var before := sections;
        if current != [] {
          sections := sections + [Section(currentTitle, Join(current, "\n"), 1)];
        }
        assert sections == before + Flush(currentTitle, current);
        currentTitle := line;
        current := [line];
      } else {
        TextStep(sections, lines, i, currentTitle, current, goal);
        current := current + [line];
      }
    }
    SegmentEnd(lines, currentTitle, current);
    if current != [] {
      sections := sections + [Section(currentTitle, Join(current, "\n"), 1)];
    }
  }

  /** The segmentation of a text loses no non-blank line, reorders nothing, and emits
      well-formed sections only. */
  lemma SegmentText(text: string)
    ensures ContentLines(Segment(Split(text, "\n"))) == StrippedNonBlank(Split(text, "\n"))
    ensures WellSegmented(Segment(Split(text, "\n")))
  {
    SplitPiecesExclude(text, '\n');
    SegmentFromLossless(Split(text, "\n"), "Introduction", []);
    SegmentFromShape(Split(text, "\n"), "Introduction", []);
  }

  // ----- rank_sections -----

  /** The persona keyword table of `rank_sections`: ten or eleven keywords for
      a known persona, none for any other. */
  function RankKeywords(persona: string): (r: seq<string>)
    ensures r == [] <==> !KnownPersona(persona)
    ensures KnownPersona(persona) ==> 10 <= |r| <= 11
  {
    if persona == "Travel Planner" then
      ["travel", "trip", "destination", "hotel", "flight", "booking", "itinerary", "tourist", "vacation", "holiday"]
    else if persona == "Food Contractor" then
      ["menu", "food", "catering", "recipe", "ingredients", "cooking", "meal", "breakfast", "lunch", "dinner", "restaurant"]
    else if persona == "Business Analyst" then
      ["business", "strategy", "market", "analysis", "financial", "revenue", "profit", "growth", "competition", "industry"]
    else if persona == "Student" then
      ["study", "education", "learning", "course", "assignment", "research", "academic", "university", "college", "school"]
    else if persona == "Researcher" then
      ["research", "study", "analysis", "data", "findings", "methodology", "results", "conclusion", "experiment", "survey"]
    else []
  }

  /** The webapp's scoring: its keyword table, the job description, and the length bonus. */
  function Policy(persona: string, job: string): ScorePolicy {
    ScorePolicy(RankKeywords(persona), job, true)
  }

  /** `rank_sections`: every section scored under the webapp policy, sorted stably by
      non-increasing score and numbered 1..N. */
  method RankSectionsFor(sections: seq<Section>, persona: string, job: string) returns (ranked: seq<RankedSection>)
    ensures IsRanking(sections, Policy(persona, job), ranked)
    ensures sections == [] ==> ranked == []
  {
    ranked := RankSections(sections, Policy(persona, job));
  }

  /** With an unknown persona a section earns only its job-word points and the length bonus. */
  lemma UnknownPersonaScore(s: Section, persona: string, job: string)
    requires !KnownPersona(persona)
    ensures SectionScore(s, Policy(persona, job))
      == JobPoints(Words(Lower(job)), Lower(s.content)) + (if |s.content| > 200 then 1 else 0)
  {
    assert RankKeywords(persona) == [];
    NoKeywordsScore(s, Policy(persona, job));
  }

  // ----- analyze_subsections -----

  /** The short keyword table of `analyze_subsections`. */
  function InsightKeywords(persona: string): (r: seq<string>)
    ensures |r| <= 5
  {
    if persona == "Travel Planner" then ["travel", "trip", "destination", "hotel", "flight"]
    else if persona == "Food Contractor" then ["menu", "food", "catering", "recipe", "ingredients"]
    else if persona == "Business Analyst" then ["business", "strategy", "market", "analysis", "financial"]
    else if persona == "Student" then ["study", "education", "learning", "course", "assignment"]
    else if persona == "Researcher" then ["research", "study", "analysis", "data", "findings"]
    else []
  }

  /** The short table is the first five keywords of the ranking table, persona by persona. */
  lemma InsightKeywordsArePrefix(persona: string)
    ensures InsightKeywords(persona) == Take(RankKeywords(persona), 5)
  {
  }

  /** Key points from the first sentences: every sentence longer than 20 characters
      (before stripping), stripped, in order. */
  function KeyPoints(sentences: seq<string>): (r: seq<string>)
    ensures |r| <= |sentences|
  {
    if sentences == [] then []
    else
      var last := sentences[|sentences| - 1];
      KeyPoints(sentences[..|sentences| - 1]) + (if |last| > 20 then [Strip(last)] else [])
  }

  /** Every key point is the stripped form of a sentence longer than 20 characters. */
  lemma {:induction false} KeyPointsFromSentences(sentences: seq<string>)
    ensures forall k | 0 <= k < |KeyPoints(sentences)| ::
      exists j | 0 <= j < |sentences| :: |sentences[j]| > 20 && KeyPoints(sentences)[k] == Strip(sentences[j])
  {
    if sentences != [] {
      var n := |sentences|;
      var init := sentences[..n - 1];
      var r := KeyPoints(sentences);
      KeyPointsFromSentences(init);
      forall k | 0 <= k < |r|
        ensures exists j | 0 <= j < n :: |sentences[j]| > 20 && r[k] == Strip(sentences[j])
      {
        if k < |KeyPoints(init)| {
          var j :| 0 <= j < |init| && |init[j]| > 20 && KeyPoints(init)[k] == Strip(init[j]);
          assert sentences[j] == init[j];
          assert r[k] == KeyPoints(init)[k];
        } else {
          assert |sentences[n - 1]| > 20 && r[k] == Strip(sentences[n - 1]);
        }
      }
      assert forall k | 0 <= k < |r| :: exists j | 0 <= j < |sentences| :: |sentences[j]| > 20 && r[k] == Strip(sentences[j]);
    } else {
      assert KeyPoints(sentences) == [];
    }
  }

  /** Conversely, every sentence longer than 20 characters gives a key point. */
  lemma {:induction false} KeyPointsCount(sentences: seq<string>)
    ensures |KeyPoints(sentences)| == |set j | 0 <= j < |sentences| && |sentences[j]| > 20|
  {
    if sentences != [] {
      var n := |sentences|;
      var init := sentences[..n - 1];
      KeyPointsCount(init);
      var a := set j | 0 <= j < n - 1 && |init[j]| > 20;
      var b := set j | 0 <= j < n && |sentences[j]| > 20;
      assert a == set j | 0 <= j < n - 1 && |sentences[j]| > 20;
      assert |KeyPoints(sentences)| == |KeyPoints(init)| + (if |sentences[n - 1]| > 20 then 1 else 0);
      if |sentences[n - 1]| > 20 {
        assert n - 1 !in a;
        assert b == a + {n - 1};
      } else {
        assert b == a;
      }
    }
  }

  /** The key-point loop of `analyze_subsections`. */
  method ExtractKeyPoints(sentences: seq<string>) returns (keyPoints: seq<string>)
    ensures keyPoints == KeyPoints(sentences)
  {
    keyPoints := [];
    for j := 0 to |sentences|
      invariant keyPoints == KeyPoints(sentences[..j])
    {
      assert sentences[..j + 1][..j] == sentences[..j];
      if |sentences[j]| > 20 {
        keyPoints := keyPoints + [Strip(sentences[j])];
      }
    }
    assert sentences[..|sentences|] == sentences;
  }

  /** The insight for the paragraph at 1-based position `index`. */
  function InsightOf(index: int, paragraph: string, keywords: seq<string>): Insight {
    Insight(index, Excerpt(paragraph, 200), KeyPoints(Take(Split(paragraph, ". "), 3)), Hits(keywords, Lower(paragraph)))
  }

  /** The caps of one insight. */
  lemma InsightBounds(index: int, paragraph: string, keywords: seq<string>)
    ensures var r := InsightOf(index, paragraph, keywords);
      |r.content| <= 203 && |r.keyPoints| <= 3 && 0 <= r.relevanceScore <= |keywords|
  {
  }

  /** The 1-based positions of the paragraphs of `ps` that have at least 50 characters,
      in order. */
  function LongNumbers(ps: seq<string>): (r: seq<int>)
    ensures |r| <= |ps|
    ensures forall k | 0 <= k < |r| :: 1 <= r[k] <= |ps|
    ensures forall k, l | 0 <= k < l < |r| :: r[k] < r[l]
  {
    if ps == [] then []
    else
      var n := |ps|;
      LongNumbers(ps[..n - 1]) + (if |ps[n - 1]| < 50 then [] else [n])
  }

  /** Every position listed holds a paragraph of at least 50 characters. */
  lemma {:induction false} LongNumberIsLong(ps: seq<string>, k: nat)
    requires k < |LongNumbers(ps)|
    ensures |ps[LongNumbers(ps)[k] - 1]| >= 50
  {
    var n := |ps|;
    var init := ps[..n - 1];
    var r0 := LongNumbers(init);
    if k < |r0| {
      LongNumberIsLong(init, k);
      assert LongNumbers(ps)[k] == r0[k];
      assert ps[r0[k] - 1] == init[r0[k] - 1];
    }
  }

  /** Every paragraph of at least 50 characters has its position listed, as the `k`-th
      entry. */
  lemma {:induction false} LongNumberListed(ps: seq<string>, j: nat) returns (k: nat)
    requires j < |ps| && |ps[j]| >= 50
    ensures k < |LongNumbers(ps)| && LongNumbers(ps)[k] == j + 1
  {
    var n := |ps|;
    var init := ps[..n - 1];
    var r0 := LongNumbers(init);
    if j < n - 1 {
      assert init[j] == ps[j];
      k := LongNumberListed(init, j);
      assert LongNumbers(ps)[k] == r0[k];
    } else {
      k := |r0|;
    }
  }

  /** The insights for the paragraphs `ps`: one per paragraph of at least 50 characters,
      numbered by its 1-based position among all of `ps`, in increasing order. */
  function InsightsOf(ps: seq<string>, keywords: seq<string>): (r: seq<Insight>)
    ensures |r| == |LongNumbers(ps)| <= |ps|
    ensures forall k | 0 <= k < |r| :: r[k].paragraph == LongNumbers(ps)[k]
  {
    var nums := LongNumbers(ps);
    seq(|nums|, k requires 0 <= k < |nums| => InsightOf(nums[k], ps[nums[k] - 1], keywords))
  }

  /** Every insight is the one of the paragraph it names, and that paragraph has at
      least 50 characters. */
  lemma InsightsFromParagraphs(ps: seq<string>, keywords: seq<string>)
    ensures forall k | 0 <= k < |InsightsOf(ps, keywords)| ::
      var r := InsightsOf(ps, keywords);
      |ps[r[k].paragraph - 1]| >= 50 && r[k] == InsightOf(r[k].paragraph, ps[r[k].paragraph - 1], keywords)
  {
    var nums := LongNumbers(ps);
    forall k | 0 <= k < |nums|
      ensures |ps[nums[k] - 1]| >= 50
    {
      LongNumberIsLong(ps, k);
    }
  }

  /** `r` holds an insight numbered `n`. */
  predicate Reported(r: seq<Insight>, n: int) {
    exists k | 0 <= k < |r| :: r[k].paragraph == n
  }

  /** No paragraph of at least 50 characters is skipped. */
  lemma InsightsComplete(ps: seq<string>, keywords: seq<string>)
    ensures forall j | 0 <= j < |ps| && |ps[j]| >= 50 :: Reported(InsightsOf(ps, keywords), j + 1)
  {
    var r := InsightsOf(ps, keywords);
    forall j | 0 <= j < |ps| && |ps[j]| >= 50
      ensures Reported(r, j + 1)
    {
      var k := LongNumberListed(ps, j);
      assert r[k].paragraph == j + 1;
    }
  }

  /** The caps of every insight of `ps`. */
  lemma InsightsBounds(ps: seq<string>, keywords: seq<string>)
    ensures forall k | 0 <= k < |InsightsOf(ps, keywords)| ::
      var r := InsightsOf(ps, keywords);
      |ps[r[k].paragraph - 1]| >= 50 && |r[k].content| <= 203 && |r[k].keyPoints| <= 3
      && 0 <= r[k].relevanceScore <= |keywords|
  {
    InsightsFromParagraphs(ps, keywords);
    var r := InsightsOf(ps, keywords);
    forall k | 0 <= k < |r|
      ensures |r[k].content| <= 203 && |r[k].keyPoints| <= 3 && 0 <= r[k].relevanceScore <= |keywords|
    {
      InsightBounds(r[k].paragraph, ps[r[k].paragraph - 1], keywords);
    }
  }

  /** What `analyze_subsections` returns: the insights of the first five paragraphs, at
      most five, numbered in increasing order within 1..5. */
  function Analysis(sectionContent: string, persona: string): (r: seq<Insight>)
    ensures |r| <= 5
    ensures forall k | 0 <= k < |r| :: 1 <= r[k].paragraph <= 5
    ensures forall k, l | 0 <= k < l < |r| :: r[k].paragraph < r[l].paragraph
  {
    InsightsOf(Take(Paragraphs(sectionContent), 5), InsightKeywords(persona))
  }

  /** `analyze_subsections` (the job description is accepted and not used). */
  method AnalyzeSubsections(sectionContent: string, persona: string, job: string) returns (insights: seq<Insight>)
    ensures insights == Analysis(sectionContent, persona)
  {
    var paragraphs := Paragraphs(sectionContent);
    var first := Take(paragraphs, 5);
    var keywords := InsightKeywords(persona);
    insights := [];
    for i := 0 to |first|
      invariant insights == InsightsOf(first[..i], keywords)
    {
      var paragraph := first[i];
      AnalyzeStep(first, i, keywords);
      if |paragraph| < 50 {
        continue;
      }
      var content := if |paragraph| > 200 then paragraph[..200] + "..." else paragraph;
      var insight := Insight(i + 1, content, [], 0);
      var sentences := Split(paragraph, ". ");
      var keyPoints := ExtractKeyPoints(Take(sentences, 3));
      insight := insight.(keyPoints := keyPoints);
      var score := CountHits(keywords, Lower(paragraph));
      insight := insight.(relevanceScore := score);
      insights := insights + [insight];
    }
    assert first[..|first|] == first;
  }

  /** One iteration of the paragraph loop of `analyze_subsections`. */
  lemma AnalyzeStep(ps: seq<string>, i: nat, keywords: seq<string>)
    requires i < |ps|
    ensures InsightsOf(ps[..i + 1], keywords)
      == InsightsOf(ps[..i], keywords) + (if |ps[i]| < 50 then [] else [InsightOf(i + 1, ps[i], keywords)])
  {
    LongNumbersStep(ps, i);
    InsightsOfPrefix(ps, i, keywords);
    var ra, rb := InsightsOf(ps[..i + 1], keywords), InsightsOf(ps[..i], keywords);
    if |ps[i]| < 50 {
      assert ra == ra[..|rb|];
    } else {
      assert ps[..i + 1][i] == ps[i];
      assert ra == ra[..|rb|] + [ra[|rb|]];
    }
  }

  /** One more paragraph adds its number to the kept ones when it is long enough. */
  lemma LongNumbersStep(ps: seq<string>, i: nat)
    requires i < |ps|
    ensures LongNumbers(ps[..i + 1]) == LongNumbers(ps[..i]) + (if |ps[i]| < 50 then [] else [i + 1])
  {
    assert ps[..i + 1][..i] == ps[..i];
  }

  /** The insights of the first `i` paragraphs begin the insights of the first `i + 1`. */
  lemma InsightsOfPrefix(ps: seq<string>, i: nat, keywords: seq<string>)
    requires i < |ps|
    requires LongNumbers(ps[..i + 1]) == LongNumbers(ps[..i]) + (if |ps[i]| < 50 then [] else [i + 1])
    ensures var ra, rb := InsightsOf(ps[..i + 1], keywords), InsightsOf(ps[..i], keywords);
      |rb| <= |ra| && ra[..|rb|] == rb
  {
    var a, b := ps[..i + 1], ps[..i];
    var na, nb := LongNumbers(a), LongNumbers(b);
    var ra, rb := InsightsOf(a, keywords), InsightsOf(b, keywords);
    forall k | 0 <= k < |rb|
      ensures ra[k] == rb[k]
    {
      assert na[k] == nb[k];
      assert a[nb[k] - 1] == b[nb[k] - 1];
    }
  }

  /** The caps of the analysis: at most five insights with strictly increasing paragraph
      numbers in 1..5, each from a paragraph of at least 50 characters, with an excerpt of
      at most 203 characters, at most three key points, and a relevance score in 0..5. */
  lemma AnalysisBounds(sectionContent: string, persona: string)
    ensures |Analysis(sectionContent, persona)| <= 5
    ensures var r := Analysis(sectionContent, persona);
      forall k, l | 0 <= k < l < |r| :: r[k].paragraph < r[l].paragraph
    ensures var r := Analysis(sectionContent, persona); var ps := Paragraphs(sectionContent);
      forall k | 0 <= k < |r| ::
        && 1 <= r[k].paragraph <= 5 && r[k].paragraph <= |ps|
        && |ps[r[k].paragraph - 1]| >= 50
        && |r[k].content| <= 203
        && |r[k].keyPoints| <= 3
        && 0 <= r[k].relevanceScore <= 5
  {
    var ps := Paragraphs(sectionContent);
    var first := Take(ps, 5);
    var keywords := InsightKeywords(persona);
    var r := InsightsOf(first, keywords);
    assert Analysis(sectionContent, persona) == r;
    InsightsBounds(first, keywords);
    forall k | 0 <= k < |r|
      ensures 1 <= r[k].paragraph <= 5 && r[k].paragraph <= |ps| && |ps[r[k].paragraph - 1]| >= 50
      ensures |r[k].content| <= 203 && |r[k].keyPoints| <= 3 && 0 <= r[k].relevanceScore <= 5
    {
      assert first[r[k].paragraph - 1] == ps[r[k].paragraph - 1];
    }
  }

  /** Every paragraph among the first five with at least 50 characters is reported. */
  lemma AnalysisComplete(sectionContent: string, persona: string)
    ensures var r := Analysis(sectionContent, persona); var ps := Paragraphs(sectionContent);
      forall j | 0 <= j < 5 && j < |ps| && |ps[j]| >= 50 :: Reported(r, j + 1)
  {
    var ps := Paragraphs(sectionContent);
    var first := Take(ps, 5);
    var keywords := InsightKeywords(persona);
    var r := InsightsOf(first, keywords);
    assert Analysis(sectionContent, persona) == r;
    InsightsComplete(first, keywords);
    forall j | 0 <= j < 5 && j < |ps| && |ps[j]| >= 50
      ensures Reported(r, j + 1)
    {
      assert first[j] == ps[j];
    }
  }

  /** Across the pipeline, the analyser reports on one paragraph at most for every
      section the segmenter emits, since a section body never holds a blank line. */
  lemma SegmentedSectionHasOneInsightAtMost(text: string, persona: string, k: nat)
    requires k < |Segment(Split(text, "\n"))|
    ensures |Analysis(Segment(Split(text, "\n"))[k].content, persona)| <= 1
  {
    var s := Segment(Split(text, "\n"))[k];
    SegmentText(text);
    assert !IsBlank(s.content) by {
      assert !IsSpace(s.content[0]);
    }
    OneParagraph(s.content);
  }
}
