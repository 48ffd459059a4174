# Persona-driven PDF outline pipeline, modelled in Dafny

The repository turns the raw text extracted from a PDF into a ranked outline for a
persona (a "Travel Planner", a "Food Contractor", ...) and a task ("job to be done").
The pipeline has three stages, and four near-duplicate Python scripts implement them:

- **Segmenter**: splits the text into lines and classifies each line as a heading or
  not. It then collects the lines into titled sections.
- **Ranker**: scores every section by persona-keyword and job-word substring hits. It
  sorts the sections stably by decreasing score and numbers them 1..N.
- **Subsection analyser**: splits a section body into paragraphs. It reports a
  bounded list of insights: an excerpt, a few key sentences and a relevance count.

The Dafny project models each variant in its own module. Shared pieces live in shared
modules:

| module | file | models |
|---|---|---|
| `PyStr` | `py_str.dfy` | the Python `str` operations the pipeline uses, over ASCII |
| `Ranking`, `RankingUnique` | `ranking.dfy` | the scoring function, the stable sort and the ranking method shared by the three `rank_sections` variants; why the stable order is unique |
| `Insights` | `insights.dfy` | the insight record, excerpts, paragraph splits, the keyword-count loop |
| `Webapp` | `webapp.dfy` | `Challenge_1b/server/process_pdfs_webapp.py` |
| `Simple` | `simple.dfy` | `Challenge_1b/server/process_pdfs_simple.py`, including the persona/job resolution |
| `Fast` | `fast.dfy` | `Challenge_1b/server/process_pdfs_webapp_fast.py` |
| `Challenge1a` | `challenge1a.dfy` | `extract_sections` of `Challenge_1a/process_pdfs.py` |

The source's `for` loops (over lines, keywords, sentences and paragraphs) become Dafny
methods with loops, and its list comprehensions become recursive functions. Every loop
method is proved equal to a specification function. The lemmas then state what the
source promises about that function: nothing is lost, the caps hold, and the ranking
is a stable permutation.

The variants differ in details that the model keeps as written:

- Heading length. The simple and fast segmenters require every heading to be shorter
  than 100 characters. The webapp segmenter caps only the trailing-colon clause, so an
  upper-case line of any length is a heading there (`Webapp.IsHeading`).
- Insight numbering. The simple and fast analysers number the long paragraphs they
  keep 1, 2, 3. The webapp analyser numbers each insight by its paragraph's position
  among the first five paragraphs, counting the short ones it skips
  (`Webapp.InsightsOf`).
- Key-point length. The simple and fast analysers test the stripped length of a
  sentence. The webapp analyser tests the length before stripping (`Webapp.KeyPoints`).
- Relevance score:
  - webapp: the number of the persona's short-table keywords in the paragraph;
  - simple: the number of key points;
  - fast: the number of five fixed topic words in the paragraph.

## Model

| member | source | states |
|---|---|---|
| PyStr.Strip | Challenge_1b/server/process_pdfs_webapp.py:18 | `line.strip()` is empty exactly when the line is whitespace only; otherwise it starts and ends with non-whitespace, is no longer than the line, and holds only characters of the line |
| PyStr.StripSlice | Challenge_1b/server/process_pdfs_webapp.py:18 | `line.strip()` is a contiguous slice `line[i:j]` whose cut-off ends are whitespace only |
| PyStr.StripUnchanged | Challenge_1b/server/process_pdfs_webapp.py:18 | a string with no whitespace at either end is its own `strip()` |
| PyStr.Lower | Challenge_1b/server/process_pdfs_webapp.py:74-75 | `lower()` keeps the length and lowers each ASCII capital, character by character |
| PyStr.Take | Challenge_1b/server/process_pdfs_webapp.py:115 | `xs[:n]` is the prefix of length `min(n, len(xs))` |
| PyStr.Split | Challenge_1b/server/process_pdfs_webapp.py:12 | `split(sep)` always yields at least one piece |
| PyStr.SplitWithoutSeparator | Challenge_1b/server/process_pdfs_webapp.py:112 | a string that does not contain the separator splits into itself alone |
| PyStr.JoinSplit | Challenge_1b/server/process_pdfs_webapp.py:12 | round trip: joining the pieces of `s.split(sep)` with `sep` gives back `s` |
| PyStr.SplitJoin | Challenge_1b/server/process_pdfs_webapp.py:12 | round trip: splitting `c.join(parts)` on `c` gives back the parts when no part holds `c` |
| PyStr.SplitPiecesExclude | Challenge_1b/server/process_pdfs_webapp.py:12 | no piece of `text.split('\n')` holds a line feed |
| PyStr.NoParagraphBreak | Challenge_1b/server/process_pdfs_webapp.py:112 | a text with no two adjacent line feeds does not contain `'\n\n'` |
| PyStr.JoinLinesNoBlankLine | Challenge_1b/server/process_pdfs_webapp.py:36 | `'\n'.join` of non-empty lines without line feeds has no two adjacent line feeds and starts with the first line's first character |
| PyStr.BodyCons | Challenge_1b/server/process_pdfs_simple.py:46 | the text grown from lines starts with the first line and a line feed, followed by the text of the rest |
| PyStr.BodySnoc | Challenge_1b/server/process_pdfs_simple.py:46 | one more `content += line + "\n"` adds `line` as the last line of the text |
| PyStr.BodyAppend | Challenge_1b/server/process_pdfs_simple.py:46 | the text grown by `content += line + "\n"` over two runs of lines is the two texts concatenated |
| PyStr.BodyNoBlankLine | Challenge_1b/server/process_pdfs_simple.py:46 | the text grown from non-empty lines without line feeds has no two adjacent line feeds |
| PyStr.SplitBody | Challenge_1b/server/process_pdfs_simple.py:46 | splitting that text on line feeds gives back the lines and one final empty piece |
| PyStr.StrippedNonBlank | Challenge_1b/server/process_pdfs_webapp.py:112 | `[x.strip() for x in xs if x.strip()]` has no empty entry and no more entries than `xs` |
| PyStr.Words | Challenge_1b/server/process_pdfs_webapp.py:85 | every word of `split()` is non-empty and holds no whitespace |
| PyStr.WordsJoin | Challenge_1b/server/process_pdfs_webapp.py:85 | round trip: `" ".join(words).split()` gives back non-empty words without whitespace |
| PyStr.SplitLines | Challenge_1a/process_pdfs.py:13 | no line of `splitlines()` holds a line-break character |
| PyStr.SplitLinesBody | Challenge_1a/process_pdfs.py:13 | round trip: `splitlines()` of lines without breaks, each followed by a line feed, gives back the lines |
| Ranking.Hits | Challenge_1b/server/process_pdfs_webapp.py:78-82 | at most one hit per keyword-list entry |
| Ranking.JobPoints | Challenge_1b/server/process_pdfs_webapp.py:85-88 | at most one point per job word |
| Ranking.LengthBonus | Challenge_1b/server/process_pdfs_webapp.py:91-92 | the length bonus is 0 or 1 |
| Ranking.SectionScore | Challenge_1b/server/process_pdfs_webapp.py:72-92 | a score is at most 5 per keyword, plus 1 per job word, plus 1 |
| Ranking.ScoreSection | Challenge_1b/server/process_pdfs_webapp.py:73-92 | the scoring loops give 2 per keyword in the lowered content, 3 per keyword in the lowered title, 1 per job word over 3 characters in the content, plus the bonus when the policy has one |
| Ranking.OneHit | Challenge_1b/server/process_pdfs_webapp.py:78-82 | a keyword that occurs gives at least one hit |
| Ranking.TwoHits | Challenge_1b/server/process_pdfs_webapp.py:78-82 | two distinct keyword entries that occur give at least two hits |
| Ranking.TitleWithTwoKeywords | Challenge_1b/server/process_pdfs_webapp.py:81-82 | a title holding two of the persona's keywords earns at least 6 points |
| Ranking.NoKeywordsScore | Challenge_1b/server/process_pdfs_webapp.py:68 | with an empty keyword list the score is the job-word points plus the bonus |
| Ranking.Insert | Challenge_1b/server/process_pdfs_webapp.py:101 | inserting into the sorted list adds exactly one element |
| Ranking.InsertPermutes | Challenge_1b/server/process_pdfs_webapp.py:101 | insertion adds the element to the multiset and nothing else |
| Ranking.InsertDescending | Challenge_1b/server/process_pdfs_webapp.py:101 | insertion into a list of non-increasing scores keeps scores non-increasing |
| Ranking.InsertWithScore | Challenge_1b/server/process_pdfs_webapp.py:101 | insertion puts the new element first among those of its score |
| Ranking.InsertSections | Challenge_1b/server/process_pdfs_webapp.py:101 | insertion adds its section to the multiset of sections |
| Ranking.SortByScore | Challenge_1b/server/process_pdfs_webapp.py:101 | the sort keeps the length |
| Ranking.SortDescending | Challenge_1b/server/process_pdfs_webapp.py:101 | sorted scores are non-increasing |
| Ranking.SortPermutes | Challenge_1b/server/process_pdfs_webapp.py:101 | the sort is a permutation |
| Ranking.SortSections | Challenge_1b/server/process_pdfs_webapp.py:101 | the sorted sections are a permutation of the input sections |
| Ranking.SortStable | Challenge_1b/server/process_pdfs_webapp.py:101 | for every score, the elements with that score keep their input order (`sort` is stable with `reverse=True`) |
| Ranking.SortByScoreCorrect | Challenge_1b/server/process_pdfs_webapp.py:101 | the four facts above together |
| Ranking.WithScoreSections | Challenge_1b/server/process_pdfs_webapp.py:94-101 | with consistent stored scores, selecting a score commutes with dropping scores and ranks |
| Ranking.ConsistentScoresPermuted | Challenge_1b/server/process_pdfs_webapp.py:94-101 | a permutation keeps every stored score equal to its section's score |
| Ranking.RankedSortIsRanking | Challenge_1b/server/process_pdfs_webapp.py:101-105 | numbering the stably sorted scored sections 1..N is a ranking |
| Ranking.RankSections | Challenge_1b/server/process_pdfs_webapp.py:53-107 | empty input gives empty output; otherwise the output has the same length, its sections are a permutation of the input, each score is the section's score, ranks are 1..N, scores never increase, and sections of equal score keep their input order |
| RankingUnique.NoneAboveFirst | Challenge_1b/server/process_pdfs_webapp.py:101 | in a list sorted by non-increasing score nothing scores above the first |
| RankingUnique.StableOrderUnique | Challenge_1b/server/process_pdfs_webapp.py:101 | two score-sorted lists whose sections of every score come in the same order are equal |
| RankingUnique.RankingDeterministic | Challenge_1b/server/process_pdfs_webapp.py:101-105 | the ranking is unique, so the model orders exactly as a stable `list.sort` |
| Insights.Excerpt | Challenge_1b/server/process_pdfs_webapp.py:122 | the excerpt is the whole paragraph when it fits the cap; otherwise it is the first `cap` characters plus `...`, never more than `cap + 3` characters |
| Insights.ExcerptOfDottedParagraph | Challenge_1b/server/process_pdfs_webapp.py:122 | a paragraph of `cap` letters followed by `...` is over the cap yet its excerpt equals it, so the ellipsis does not mark truncation unambiguously |
| Insights.Paragraphs | Challenge_1b/server/process_pdfs_webapp.py:112 | no paragraph is empty |
| Insights.OneParagraph | Challenge_1b/server/process_pdfs_webapp.py:112 | a non-blank text without two adjacent line feeds is the single paragraph `text.strip()` |
| Insights.CountHits | Challenge_1b/server/process_pdfs_webapp.py:149-152 | the relevance loop counts the keywords found in the lowered paragraph |
| Insights.StrippedLong | Challenge_1b/server/process_pdfs_simple.py:106 | every kept entry is longer than the minimum, and there are no more entries than inputs |
| Insights.StrippedLongSound | Challenge_1b/server/process_pdfs_simple.py:106 | every kept entry is the stripped form of some input |
| Insights.StrippedLongComplete | Challenge_1b/server/process_pdfs_simple.py:106 | every input whose stripped form is over the minimum is kept |
| Insights.LongParagraphs | Challenge_1b/server/process_pdfs_simple.py:106 | every retained paragraph is longer than 50 characters |
| Insights.FewParagraphs | Challenge_1b/server/process_pdfs_simple.py:106 | a text without two adjacent line feeds has at most one paragraph, long or not |
| Insights.ShortKeyPoints | Challenge_1b/server/process_pdfs_simple.py:111 | at most two key points |
| Webapp.IsHeading | Challenge_1b/server/process_pdfs_webapp.py:23-30 | an empty line is never a heading |
| Webapp.HeadingRule | Challenge_1b/server/process_pdfs_webapp.py:23-30 | a line is a heading exactly when it is upper case (no length cap), starts with `1.`…`10.` or `I.`…`X.`, is under 100 characters and ends with `:`, or starts with a structural word; the under-80 upper-case clause adds nothing |
| Webapp.FlushProperties | Challenge_1b/server/process_pdfs_webapp.py:33-38 | a flushed section splits back into its lines, has no blank line, starts with non-whitespace and is heading-led or the introduction |
| Webapp.FlushLines | Challenge_1b/server/process_pdfs_webapp.py:36 | the flushed content's lines are the collected lines |
| Webapp.SegmentFromLossless | Challenge_1b/server/process_pdfs_webapp.py:17-49 | the content lines of all emitted sections, in order, are the collected lines followed by every stripped non-blank remaining line |
| Webapp.SegmentFromShape | Challenge_1b/server/process_pdfs_webapp.py:17-49 | every emitted section has page 1 and non-empty content without blank lines; each is titled by its first line, a heading, except that the first may be the heading-free "Introduction" |
| Webapp.FirstTitle | Challenge_1b/server/process_pdfs_webapp.py:15-40 | there is no section exactly when there is no content line; the first section is titled by the first line if it is a heading and "Introduction" otherwise |
| Webapp.SegmentLines | Challenge_1b/server/process_pdfs_webapp.py:17-49 | the loop computes the segmentation of its lines |
| Webapp.ExtractSections | Challenge_1b/server/process_pdfs_webapp.py:10-51 | `extract_sections` is the segmentation of `text.split('\n')` |
| Webapp.SegmentText | Challenge_1b/server/process_pdfs_webapp.py:10-51 | on a whole text, the sections' content lines are exactly its stripped non-blank lines in order, and the sections are well formed |
| Webapp.RankKeywords | Challenge_1b/server/process_pdfs_webapp.py:59-68 | a persona gets no keywords exactly when it is not one of the five in the table; a known one gets ten or eleven |
| Webapp.RankSectionsFor | Challenge_1b/server/process_pdfs_webapp.py:53-107 | the webapp ranking (ten- or eleven-keyword table, length bonus) is a stable ranking of the sections |
| Webapp.UnknownPersonaScore | Challenge_1b/server/process_pdfs_webapp.py:68-92 | an unknown persona scores only job-word points and the length bonus |
| Webapp.InsightKeywords | Challenge_1b/server/process_pdfs_webapp.py:141-147 | the analyser's table has at most five keywords per persona |
| Webapp.InsightKeywordsArePrefix | Challenge_1b/server/process_pdfs_webapp.py:141-149 | for every persona the analyser's table is the first five keywords of the ranking table |
| Webapp.KeyPoints | Challenge_1b/server/process_pdfs_webapp.py:128-132 | there are no more key points than sentences |
| Webapp.KeyPointsFromSentences | Challenge_1b/server/process_pdfs_webapp.py:130-132 | every key point is the stripped form of a sentence longer than 20 characters before stripping |
| Webapp.KeyPointsCount | Challenge_1b/server/process_pdfs_webapp.py:130-132 | there is exactly one key point per sentence longer than 20 characters |
| Webapp.ExtractKeyPoints | Challenge_1b/server/process_pdfs_webapp.py:129-132 | the key-point loop computes the key points |
| Webapp.InsightBounds | Challenge_1b/server/process_pdfs_webapp.py:120-154 | one insight has an excerpt of at most 203 characters, at most three key points and a relevance between 0 and the table size |
| Webapp.LongNumbers | Challenge_1b/server/process_pdfs_webapp.py:115-117 | the numbers of the paragraphs kept are 1-based positions in 1..N, strictly increasing, at most one per paragraph |
| Webapp.LongNumberIsLong | Challenge_1b/server/process_pdfs_webapp.py:116-117 | every number kept is that of a paragraph of at least 50 characters |
| Webapp.LongNumberListed | Challenge_1b/server/process_pdfs_webapp.py:115-117 | every paragraph of at least 50 characters has its number kept |
| Webapp.InsightsOf | Challenge_1b/server/process_pdfs_webapp.py:115-155 | one insight per kept paragraph, in order, each numbered by the paragraph's position among all the paragraphs examined |
| Webapp.InsightsFromParagraphs | Challenge_1b/server/process_pdfs_webapp.py:115-155 | every insight is the one of the paragraph it names, and that paragraph has at least 50 characters |
| Webapp.InsightsComplete | Challenge_1b/server/process_pdfs_webapp.py:115-117 | no paragraph of at least 50 characters is skipped: an insight carries its number |
| Webapp.InsightsBounds | Challenge_1b/server/process_pdfs_webapp.py:115-155 | every insight keeps the one-insight caps |
| Webapp.Analysis | Challenge_1b/server/process_pdfs_webapp.py:109-157 | at most five insights, numbered in strictly increasing order within 1..5 |
| Webapp.AnalyzeSubsections | Challenge_1b/server/process_pdfs_webapp.py:109-157 | the analyser's loop computes the insights of the first five paragraphs |
| Webapp.AnalyzeStep | Challenge_1b/server/process_pdfs_webapp.py:115-155 | one loop iteration appends the paragraph's insight or, under 50 characters, nothing |
| Webapp.AnalysisBounds | Challenge_1b/server/process_pdfs_webapp.py:112-154 | at most 5 insights with strictly increasing numbers in 1..5, each from a paragraph of at least 50 characters, with an excerpt of at most 203 characters, at most 3 key points and a relevance in 0..5 |
| Webapp.AnalysisComplete | Challenge_1b/server/process_pdfs_webapp.py:115-117 | every paragraph among the first five with at least 50 characters is reported |
| Webapp.SegmentedSectionHasOneInsightAtMost | Challenge_1b/server/process_pdfs_webapp.py:36-112 | a section that the segmenter emits yields at most one insight, because its body never holds `'\n\n'` |
| Simple.IsHeading | Challenge_1b/server/process_pdfs_simple.py:36-40 | a heading is never empty and is shorter than 100 characters |
| Simple.BodyBlank | Challenge_1b/server/process_pdfs_simple.py:42 | the collected content is blank exactly when no line was collected |
| Simple.EmitBody | Challenge_1b/server/process_pdfs_simple.py:42-43 | emitting the collected content keeps exactly its text |
| Simple.SegmentFromLossless | Challenge_1b/server/process_pdfs_simple.py:30-49 | the emitted contents, concatenated, are the collected content followed by every stripped non-blank non-heading remaining line plus `\n`; no heading is in a content |
| Simple.SegmentFromShape | Challenge_1b/server/process_pdfs_simple.py:30-49 | every emitted section has page 1 and non-blank content without blank lines; its title passes the heading rule, except that the first may keep the opening title |
| Simple.SegmentFromCount | Challenge_1b/server/process_pdfs_simple.py:36-49 | at most one section per heading line plus one |
| Simple.NextHeading | Challenge_1b/server/process_pdfs_simple.py:30-40 | the position found is at or after the start and, unless it is the end, holds a line whose stripped form is a heading |
| Simple.NextHeadingIsFirst | Challenge_1b/server/process_pdfs_simple.py:30-40 | no line between the start and that position is a heading |
| Simple.NextHeadingShift | Challenge_1b/server/process_pdfs_simple.py:30-40 | dropping the first line shifts that position by one |
| Simple.SectionOpened | Challenge_1b/server/process_pdfs_simple.py:28-49 | every emitted section either keeps the opening title and holds the opening content plus the text lines before the first heading, or is titled by the stripped heading line that opened it and holds exactly the stripped non-blank lines up to the next heading, each plus `\n` |
| Simple.SegmentTitles | Challenge_1b/server/process_pdfs_simple.py:24-51 | on a whole text, every section is the "Introduction" section of the lines before the first heading, or the section of one heading line in the sense above |
| Simple.HeadingAfterHeading | Challenge_1b/server/process_pdfs_simple.py:36-43 | a heading directly followed by another heading produces no section |
| Simple.SegmentText | Challenge_1b/server/process_pdfs_simple.py:24-51 | on a whole text, the segmentation is lossless, well formed with "Introduction" as first title, and bounded by the heading count |
| Simple.AppendIfNonBlank | Challenge_1b/server/process_pdfs_simple.py:42-43 | a section is appended only when its content has non-blank text |
| Simple.SegmentLines | Challenge_1b/server/process_pdfs_simple.py:30-49 | the loop computes the segmentation of its lines |
| Simple.ExtractSections | Challenge_1b/server/process_pdfs_simple.py:24-51 | `extract_sections_simple` is the segmentation of `text.split('\n')` |
| Simple.RankKeywords | Challenge_1b/server/process_pdfs_simple.py:59-67 | a persona gets no keywords exactly when it is not one of the five in the table; a known one gets six or eight |
| Simple.RankSections | Challenge_1b/server/process_pdfs_simple.py:53-102 | the simple ranking (six- or eight-keyword table, no length bonus) is a stable ranking of the sections |
| Simple.UnknownPersonaScore | Challenge_1b/server/process_pdfs_simple.py:68-87 | with an unknown persona the score is the number of job words over 3 characters found in the content |
| Simple.ScoreBound | Challenge_1b/server/process_pdfs_simple.py:72-87 | without the bonus, a score is at most 5 per keyword plus 1 per job word |
| Simple.InsightOf | Challenge_1b/server/process_pdfs_simple.py:110-119 | an insight carries its number, an excerpt of at most 153 characters, and a relevance equal to its number of key points, at most 2 |
| Simple.Analysis | Challenge_1b/server/process_pdfs_simple.py:104-121 | at most three insights, numbered 1, 2, 3 in order, each scored by its key-point count |
| Simple.AnalyzeSubsections | Challenge_1b/server/process_pdfs_simple.py:104-121 | the analyser's loop computes the simple analysis |
| Simple.AnalysisShape | Challenge_1b/server/process_pdfs_simple.py:104-121 | exactly the first three paragraphs over 50 characters are reported (fewer if there are fewer), numbered 1..k; each has an excerpt of at most 153 characters, at most 2 key points each over 20 characters, and a relevance equal to the key-point count, so in 0..2 |
| Simple.SegmentedSectionHasOneInsightAtMost | Challenge_1b/server/process_pdfs_simple.py:46-106 | a section that the segmenter emits yields at most one insight |
| Simple.ResolveConfig | Challenge_1b/server/process_pdfs_simple.py:150-165 | without a readable file, or when the document is not an object, the defaults "Food Contractor" / "Analyze document" are used |
| Simple.ConfigFromStrings | Challenge_1b/server/process_pdfs_simple.py:156-161 | in any document, a string persona and a job object with a task are used as given |
| Simple.ConfigPersonaObject | Challenge_1b/server/process_pdfs_simple.py:156-161 | a persona object gives its `role`, or "Food Contractor" without one; the job is the job object's `task`, or "Analyze document" when the object or its task is missing |
| Simple.ConfigJobNotObject | Challenge_1b/server/process_pdfs_simple.py:161-165 | a `job_to_be_done` that is not an object makes `.get` fail, and both values fall back to the defaults |
| Fast.ExtractSections | Challenge_1b/server/process_pdfs_webapp_fast.py:8-35 | `extract_sections_fast` is the simple segmentation, so all its properties hold |
| Fast.RankSections | Challenge_1b/server/process_pdfs_webapp_fast.py:37-86 | the fast ranking (same table as the simple one, no bonus) is a stable ranking of the sections |
| Fast.InsightOf | Challenge_1b/server/process_pdfs_webapp_fast.py:94-112 | an insight carries its number, an excerpt of at most 153 characters, at most 2 key points and a relevance in 0..5 |
| Fast.Analysis | Challenge_1b/server/process_pdfs_webapp_fast.py:88-115 | at most three insights, numbered 1, 2, 3 in order, each with a relevance in 0..5 |
| Fast.AnalyzeSubsections | Challenge_1b/server/process_pdfs_webapp_fast.py:88-115 | the analyser's loop computes the fast analysis, whatever the persona and job |
| Fast.AnalysisShape | Challenge_1b/server/process_pdfs_webapp_fast.py:90-112 | exactly the first three paragraphs over 50 characters are reported, numbered 1..k; each excerpt is at most 153 characters and is cut and ended by `...` exactly when the paragraph is over 150; at most 2 key points over 20 characters; a relevance in 0..5 |
| Fast.SegmentedSectionHasOneInsightAtMost | Challenge_1b/server/process_pdfs_webapp_fast.py:30-90 | a section that the segmenter emits yields at most one insight |
| Challenge1a.IsHeading | Challenge_1a/process_pdfs.py:14 | a heading has at least two characters |
| Challenge1a.HeadingShape | Challenge_1a/process_pdfs.py:14 | a heading that starts with a digit is digits ending in its only dot; any other starts with a capital and holds no dot and no digit |
| Challenge1a.HeadingExamples | Challenge_1a/process_pdfs.py:14 | "A", "1.2." and "." are not headings; "A B" and "12." are |
| Challenge1a.BlankBody | Challenge_1a/process_pdfs.py:15 | a blank accumulated text holds only blank lines |
| Challenge1a.EmitGroup | Challenge_1a/process_pdfs.py:15-16 | dropping a blank section loses no line with text |
| Challenge1a.SegmentFromKept | Challenge_1a/process_pdfs.py:13-21 | the emitted texts are the kept lines, unstripped, each followed by `\n` |
| Challenge1a.KeptNonBlank | Challenge_1a/process_pdfs.py:13-21 | the non-blank kept lines are exactly the non-blank non-heading lines, in order |
| Challenge1a.SegmentFromShape | Challenge_1a/process_pdfs.py:15-21 | every emitted text is non-blank; every title is a heading except that the first may keep the opening title; at most one section per heading plus one |
| Challenge1a.NextHeading | Challenge_1a/process_pdfs.py:13-14 | the position found is at or after the start and, unless it is the end, holds a line whose stripped form is a heading |
| Challenge1a.NextHeadingIsFirst | Challenge_1a/process_pdfs.py:13-14 | no line between the start and that position is a heading |
| Challenge1a.NextHeadingShift | Challenge_1a/process_pdfs.py:13-14 | dropping the first line shifts that position by one |
| Challenge1a.SectionOpened | Challenge_1a/process_pdfs.py:12-21 | every emitted section either keeps the opening title and holds the opening text plus the lines before the first heading, or is titled by the stripped heading line that opened it and holds exactly the lines, unstripped, up to the next heading, each plus `\n` |
| Challenge1a.SegmentTitles | Challenge_1a/process_pdfs.py:9-22 | on a whole text, every section is the "Introduction" section of the lines before the first heading, or the section of one heading line in the sense above |
| Challenge1a.SegmentText | Challenge_1a/process_pdfs.py:9-22 | on a whole text: lossless in the sense above, titles "Introduction" or passing the heading test, at most headings + 1 sections |
| Challenge1a.AppendIfNonBlank | Challenge_1a/process_pdfs.py:15-16 | a section is appended only when its text has non-blank content |
| Challenge1a.SegmentLines | Challenge_1a/process_pdfs.py:13-21 | the loop computes the segmentation of its lines |
| Challenge1a.ExtractSections | Challenge_1a/process_pdfs.py:9-22 | `extract_sections` is the segmentation of `text.splitlines()` |

## Left out

- PDF reading through PyPDF2, pdfplumber and fitz: text, tables and images come from
  foreign libraries. The extracted text is a parameter of the segmenters.
- The drivers (`process_pdfs_webapp`, `process_pdfs_simple`, `process_pdfs_fast`,
  `process_pdfs`) are left out. They do directory globbing, page-limit loops, JSON
  output, logging and exception handling around I/O. The result records they assemble
  (`text[:N]`, `total_sections`) are not modelled.
- Reading `input.json` is not modelled. `Simple.ResolveConfig` receives the parsed
  document, or `None` when the file is missing or unreadable. JSON numbers are integers
  only.
- `process_pdfs_instant.py` and `process_pdfs_ultra_fast.py` are left out: they return
  canned results.
- The Express server `index.js`, the React client pages and the test scripts are not
  part of this model.
- Text semantics are ASCII only. `strip`, `lower`, `isupper`, `split()`,
  `splitlines()`, and the regular-expression classes `\s` and `\d` are modelled over
  ASCII characters. Python applies them to all of Unicode.
- `list.sort` is a library routine (Timsort). It is modelled by a stable insertion
  sort. `RankingUnique.RankingDeterministic` shows that any stable sort gives the same
  list.
- Python dictionaries updated in place (`{**section, ...}`, `section['rank'] = ...`,
  `current_section["content"] += ...`) are modelled as immutable records, which the
  methods replace. Aliasing between these dictionaries is not modelled.
- `Simple.RankSections` takes the persona as a string. `ResolveConfig` can return a
  non-string persona, and `keywords.get` would raise on an unhashable one; that error
  is not modelled.
- The `job_to_be_done` argument of `analyze_subsections` is not used by the source.
  The same holds for both arguments of `analyze_subsections_fast`. The model's
  methods accept them and ignore them.
