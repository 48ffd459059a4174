/**
 * Pieces shared by the three subsection analysers of Challenge_1b: the insight record,
 * the bounded excerpt and the split of a section body into paragraphs.
 */
module Insights {
  import opened PyStr
  import opened Ranking

  /** One entry of `subsection_analysis`. */
  datatype Insight = Insight(paragraph: int, content: string, keyPoints: seq<string>, relevanceScore: int)

  /** `paragraph[:cap] + '...' if len(paragraph) > cap else paragraph` */
  function Excerpt(paragraph: string, cap: nat): (r: string)
    ensures |r| <= cap + 3
    ensures |paragraph| <= cap ==> r == paragraph
    ensures cap < |paragraph| ==> |r| == cap + 3 && r[..cap] == paragraph[..cap] && EndsWith(r, "...")
  {
    if |paragraph| > cap then paragraph[..cap] + "..." else paragraph
  }

  /** The ellipsis does not tell a truncated excerpt from a whole one: a paragraph of
      `cap` letters followed by `"..."` is truncated to itself. */
  lemma ExcerptOfDottedParagraph(cap: nat)
    ensures var p := seq(cap, _ => 'a') + "..."; |p| > cap && Excerpt(p, cap) == p
  {
    var p := seq(cap, _ => 'a') + "...";
    assert p[..cap] == seq(cap, _ => 'a');
  }

  /** `[p.strip() for p in content.split('\n\n') if p.strip()]` */
  function Paragraphs(content: string): (r: seq<string>)
    ensures forall k | 0 <= k < |r| :: r[k] != []
  {
    StrippedNonBlank(Split(content, "\n\n"))
  }

  /** A body with no blank line between two line feeds and some non-blank text is a
      single paragraph: the analysers can then report on one paragraph at most. */
  lemma OneParagraph(content: string)
    requires NoBlankLineBreak(content)
    requires !IsBlank(content)
    ensures Paragraphs(content) == [Strip(content)]
  {
    NoParagraphBreak(content);
    SplitWithoutSeparator(content, "\n\n");
    assert StrippedNonBlank([content]) == [Strip(content)] + StrippedNonBlank([]);
  }

  /** The relevance loop of the analysers: one point per keyword found in `s`. */
  method CountHits(keywords: seq<string>, s: string) returns (score: int)
    ensures score == Hits(keywords, s)
  {
    score := 0;
    for j := 0 to |keywords|
      invariant score == Hits(keywords[..j], s)
    {
      assert keywords[..j + 1][..j] == keywords[..j];
      if Contains(s, keywords[j]) {
        score := score + 1;
      }
    }
    assert keywords[..|keywords|] == keywords;
  }

  /** `[x.strip() for x in xs if len(x.strip()) > min]`: the stripped entries longer than
      `min`, in order. */
  function StrippedLong(xs: seq<string>, min: nat): (r: seq<string>)
    ensures |r| <= |xs|
    ensures forall k | 0 <= k < |r| :: |r[k]| > min
  {
    if xs == [] then []
    else (if |Strip(xs[0])| > min then [Strip(xs[0])] else []) + StrippedLong(xs[1..], min)
  }

  /** Every kept entry is the stripped form of an entry of `xs`. */
  lemma {:induction false} StrippedLongSound(xs: seq<string>, min: nat)
    ensures forall k | 0 <= k < |StrippedLong(xs, min)| ::
      exists j | 0 <= j < |xs| :: StrippedLong(xs, min)[k] == Strip(xs[j])
  {
    if xs != [] {
      var r := StrippedLong(xs, min);
      var r0 := StrippedLong(xs[1..], min);
      var h := if |Strip(xs[0])| > min then [Strip(xs[0])] else [];
      StrippedLongSound(xs[1..], min);
      assert r == h + r0;
      forall k | 0 <= k < |r| ensures exists j | 0 <= j < |xs| :: r[k] == Strip(xs[j]) {
        if k < |h| {
          assert r[k] == Strip(xs[0]);
        } else {
          var j :| 0 <= j < |xs[1..]| && r0[k - |h|] == Strip(xs[1..][j]);
          assert r[k] == Strip(xs[j + 1]);
        }
      }
    }
  }

  /** Every entry whose stripped form is longer than `min` is kept. */
  lemma {:induction false} StrippedLongComplete(xs: seq<string>, min: nat, j: nat)
    requires j < |xs| && |Strip(xs[j])| > min
    ensures Strip(xs[j]) in StrippedLong(xs, min)
  {
    if j > 0 {
      StrippedLongComplete(xs[1..], min, j - 1);
      assert xs[1..][j - 1] == xs[j];
    }
  }

  /** `[p.strip() for p in content.split('\n\n') if p.strip() and len(p.strip()) > 50]` */
  function LongParagraphs(content: string): (r: seq<string>)
    ensures forall k | 0 <= k < |r| :: |r[k]| > 50
  {
    StrippedLong(Split(content, "\n\n"), 50)
  }

  /** Text with no two adjacent line feeds has at most one paragraph, long or not. */
  lemma FewParagraphs(content: string)
    requires NoBlankLineBreak(content)
    ensures |Paragraphs(content)| <= 1 && |LongParagraphs(content)| <= 1
  {
    NoParagraphBreak(content);
    SplitWithoutSeparator(content, "\n\n");
  }

  /** `[s.strip() for s in sentences[:2] if len(s.strip()) > 20]` */
  function ShortKeyPoints(paragraph: string): (r: seq<string>)
    ensures |r| <= 2
  {
    StrippedLong(Take(Split(paragraph, ". "), 2), 20)
  }
}
