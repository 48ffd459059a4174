/**
 * `process_pdfs_webapp_fast.py` of Challenge_1b. Its segmenter and ranker are those of
 * `process_pdfs_simple.py` line for line; its analyser differs in the relevance score,
 * which counts five fixed topic words and ignores the persona.
 */
module Fast {
  import opened PyStr
  import opened Ranking
  import opened Insights
  import Simple

  /** `extract_sections_fast`: the same heading rule and accumulator as the simple
      variant. */
  method ExtractSections(text: string) returns (sections: seq<Section>)
    ensures sections == Simple.Segment(Split(text, "\n"))
  {
    sections := Simple.ExtractSections(text);
  }

  /** `rank_sections_fast`: the simple variant's keyword table, no length bonus. */
  method RankSections(sections: seq<Section>, persona: string, job: string) returns (ranked: seq<RankedSection>)
    ensures IsRanking(sections, Simple.Policy(persona, job), ranked)
    ensures sections == [] ==> ranked == []
  {
    ranked := Ranking.RankSections(sections, Simple.Policy(persona, job));
  }

  /** The topic words of the relevance score. */
  const TopicWords: seq<string> := ["food", "travel", "business", "study", "research"]

  /** The insight for the paragraph at 1-based position `index`: an excerpt of at most
      153 characters, at most two key points and a relevance in 0..5. */
  function InsightOf(index: int, paragraph: string): (r: Insight)
    ensures r.paragraph == index && |r.content| <= 153 && |r.keyPoints| <= 2
    ensures 0 <= r.relevanceScore <= 5
  {
    Insight(index, Excerpt(paragraph, 150), ShortKeyPoints(paragraph), Hits(TopicWords, Lower(paragraph)))
  }

  /** What `analyze_subsections_fast` returns: the first three paragraphs longer than 50
      characters, numbered 1, 2, 3. */
  function Analysis(sectionContent: string): (r: seq<Insight>)
    ensures |r| <= 3
    ensures forall k | 0 <= k < |r| :: r[k].paragraph == k + 1 && 0 <= r[k].relevanceScore <= 5
  {
    InsightsOf(Take(LongParagraphs(sectionContent), 3))
  }

  /** The insights of the paragraphs `ps`, numbered from 1 in order. */
  function InsightsOf(ps: seq<string>): (r: seq<Insight>)
    ensures |r| == |ps|
    ensures forall k | 0 <= k < |r| :: r[k] == InsightOf(k + 1, ps[k])
  {
    seq(|ps|, k requires 0 <= k < |ps| => InsightOf(k + 1, ps[k]))
  }

  /** One iteration of the paragraph loop of `analyze_subsections_fast`. */
  lemma AnalyzeStep(ps: seq<string>, i: nat)
    requires i < |ps|
    ensures InsightsOf(ps[..i + 1]) == InsightsOf(ps[..i]) + [InsightOf(i + 1, ps[i])]
  {
    var a, b := InsightsOf(ps[..i + 1]), InsightsOf(ps[..i]) + [InsightOf(i + 1, ps[i])];
    assert |a| == |b|;
    forall k | 0 <= k < |a|
      ensures a[k] == b[k]
    {
      if k < i {
        assert ps[..i + 1][k] == ps[..i][k];
      }
    }
  }

  /** `analyze_subsections_fast`; the persona and the job are accepted and not used. */
  method AnalyzeSubsections(sectionContent: string, persona: string, job: string) returns (insights: seq<Insight>)
    ensures insights == Analysis(sectionContent)
  {
    var paragraphs := LongParagraphs(sectionContent);
    var first := Take(paragraphs, 3);
    insights := [];
    for i := 0 to |first|
      invariant insights == InsightsOf(first[..i])
    {
      var paragraph := first[i];
      var insight := Insight(i + 1, Excerpt(paragraph, 150), ShortKeyPoints(paragraph), 0);
      var score := CountHits(TopicWords, Lower(paragraph));
      insight := insight.(relevanceScore := score);
      AnalyzeStep(first, i);
      insights := insights + [insight];
    }
    assert first[..|first|] == first;
  }

  /** The analysis reports exactly the first three long paragraphs (fewer if there are
      fewer), numbered consecutively from 1; each excerpt has at most 153 characters and
      is cut and ended by "..." exactly when the paragraph is longer than 150; there are
      at most two key points of more than 20 characters; the relevance lies in 0..5. */
  lemma AnalysisShape(sectionContent: string)
    ensures var r := Analysis(sectionContent); var ps := LongParagraphs(sectionContent);
      && |r| == (if |ps| < 3 then |ps| else 3)
      && forall k | 0 <= k < |r| ::
        && r[k].paragraph == k + 1
        && r[k] == InsightOf(k + 1, ps[k])
        && |r[k].content| <= 153
        && (|ps[k]| > 150 ==> r[k].content == ps[k][..150] + "...")
        && (|ps[k]| <= 150 ==> r[k].content == ps[k])
        && |r[k].keyPoints| <= 2
        && (forall j | 0 <= j < |r[k].keyPoints| :: |r[k].keyPoints[j]| > 20)
        && 0 <= r[k].relevanceScore <= 5
  {
    var ps := LongParagraphs(sectionContent);
    var first := Take(ps, 3);
    assert forall k | 0 <= k < |first| :: first[k] == ps[k];
  }

  /** For every section the segmenter emits, the analysis has one insight at most. */
  lemma SegmentedSectionHasOneInsightAtMost(text: string, k: nat)
    requires k < |Simple.Segment(Split(text, "\n"))|
    ensures |Analysis(Simple.Segment(Split(text, "\n"))[k].content)| <= 1
  {
    Simple.SegmentText(text);
    FewParagraphs(Simple.Segment(Split(text, "\n"))[k].content);
  }
}
