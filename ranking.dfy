/**
 * Relevance scoring and ranking of sections, shared by the three `rank_sections`
 * variants of Challenge_1b. They differ only in the persona keyword table and in
 * whether a long section earns a bonus point; both are carried by a `ScorePolicy`.
 */
module Ranking {
  import opened PyStr

  /** A section as the Challenge_1b segmenters emit it: `{title, content, page}`. */
  datatype Section = Section(title: string, content: string, page: int)

  /** A section after ranking: the original fields with `score` and `rank` added. */
  datatype RankedSection = Ranked(section: Section, score: int, rank: int)

  /** The keywords of the persona (empty for an unknown persona), the job
      description, and whether content longer than 200 characters earns a point. */
  datatype ScorePolicy = ScorePolicy(keywords: seq<string>, job: string, lengthBonus: bool)

  /** The personas the keyword tables of Challenge_1b know. */
  predicate KnownPersona(persona: string) {
    persona in {"Travel Planner", "Food Contractor", "Business Analyst", "Student", "Researcher"}
  }

  /** Number of entries of `keywords` that occur in `s`, each entry counted once. */
  function Hits(keywords: seq<string>, s: string): (n: nat)
    ensures n <= |keywords|
  {
    if keywords == [] then 0
    else Hits(keywords[..|keywords| - 1], s) + (if Contains(s, keywords[|keywords| - 1]) then 1 else 0)
  }

  /** Number of job words longer than three characters that occur in `content`;
      a word listed twice counts twice. */
  function JobPoints(words: seq<string>, content: string): (n: nat)
    ensures n <= |words|
  {
    if words == [] then 0
    else
      var w := words[|words| - 1];
      JobPoints(words[..|words| - 1], content) + (if |w| > 3 && Contains(content, w) then 1 else 0)
  }

  /** The bonus point for a section whose content is longer than 200 characters. */
  function LengthBonus(content: string, enabled: bool): (n: nat)
    ensures n <= 1
  {
    if enabled && |content| > 200 then 1 else 0
  }

  /** The relevance score of a section: 2 per persona keyword in the lower-cased content,
      3 per persona keyword in the lower-cased title, 1 per qualifying job word in the
      lower-cased content, plus the length bonus when the policy has one. */
  function SectionScore(s: Section, p: ScorePolicy): (n: nat)
    ensures n <= 5 * |p.keywords| + |Words(Lower(p.job))| + 1
  {
    var content := Lower(s.content);
    2 * Hits(p.keywords, content) + 3 * Hits(p.keywords, Lower(s.title))
    + JobPoints(Words(Lower(p.job)), content) + LengthBonus(s.content, p.lengthBonus)
  }

  /** Scores one section with the loops of `rank_sections`. */
  method ScoreSection(section: Section, p: ScorePolicy) returns (score: int)
    ensures score == SectionScore(section, p)
  {
    score := 0;
    var contentLower := Lower(section.content);
    var titleLower := Lower(section.title);
    for i := 0 to |p.keywords|
      invariant score == 2 * Hits(p.keywords[..i], contentLower) + 3 * Hits(p.keywords[..i], titleLower)
    {
      assert p.keywords[..i + 1][..i] == p.keywords[..i];
      if Contains(contentLower, p.keywords[i]) {
        score := score + 2;
      }
      if Contains(titleLower, p.keywords[i]) {
        score := score + 3;
      }
    }
    assert p.keywords[..|p.keywords|] == p.keywords;
    var keywordScore := score;
    var jobWords := Words(Lower(p.job));
    for i := 0 to |jobWords|
      invariant score == keywordScore + JobPoints(jobWords[..i], contentLower)
    {
      assert jobWords[..i + 1][..i] == jobWords[..i];
      if |jobWords[i]| > 3 && Contains(contentLower, jobWords[i]) {
        score := score + 1;
      }
    }
    assert jobWords[..|jobWords|] == jobWords;
    if p.lengthBonus && |section.content| > 200 {
      score := score + 1;
    }
  }

  /** Two different entries of the keyword list that both occur in `s` give at least two hits. */
  lemma {:induction false} TwoHits(keywords: seq<string>, s: string, i: nat, j: nat)
    requires i < j < |keywords|
    requires Contains(s, keywords[i]) && Contains(s, keywords[j])
    ensures Hits(keywords, s) >= 2
  {
    var n := |keywords| - 1;
    var init := keywords[..n];
    if j < n {
      assert init[i] == keywords[i] && init[j] == keywords[j];
      TwoHits(init, s, i, j);
    } else {
      assert init[i] == keywords[i];
      OneHit(init, s, i);
    }
  }

  /** An entry of the keyword list that occurs in `s` gives at least one hit. */
  lemma {:induction false} OneHit(keywords: seq<string>, s: string, i: nat)
    requires i < |keywords|
    requires Contains(s, keywords[i])
    ensures Hits(keywords, s) >= 1
  {
    var n := |keywords| - 1;
    if i < n {
      assert keywords[..n][i] == keywords[i];
      OneHit(keywords[..n], s, i);
    }
  }

  /** A section whose lower-cased title holds two different entries of the persona's
      keyword list scores at least 6, whatever its content. */
  lemma TitleWithTwoKeywords(s: Section, p: ScorePolicy, i: nat, j: nat)
    requires i < j < |p.keywords|
    requires Contains(Lower(s.title), p.keywords[i]) && Contains(Lower(s.title), p.keywords[j])
    ensures SectionScore(s, p) >= 6
  {
    TwoHits(p.keywords, Lower(s.title), i, j);
  }

  /** With no persona keywords (an unknown persona) the score is the job-word count
      plus the length bonus. */
  lemma {:induction false} NoKeywordsScore(s: Section, p: ScorePolicy)
    requires p.keywords == []
    ensures SectionScore(s, p) == JobPoints(Words(Lower(p.job)), Lower(s.content)) + LengthBonus(s.content, p.lengthBonus)
  {
    assert Hits(p.keywords, Lower(s.content)) == 0 && Hits(p.keywords, Lower(s.title)) == 0;
  }

  /** The sections of a ranked list, in order, without their scores and ranks. */
  function SectionsOf(rs: seq<RankedSection>): (ss: seq<Section>)
    ensures |ss| == |rs|
    ensures forall i | 0 <= i < |rs| :: ss[i] == rs[i].section
  {
    if rs == [] then [] else [rs[0].section] + SectionsOf(rs[1..])
  }

  /** The elements of `rs` whose score is `v`, in their order in `rs`. */
  function WithScore(rs: seq<RankedSection>, v: int): seq<RankedSection> {
    if rs == [] then []
    else (if rs[0].score == v then [rs[0]] else []) + WithScore(rs[1..], v)
  }

  /** The sections of `ss` that `p` scores `v`, in their order in `ss`. */
  function ScoringAs(ss: seq<Section>, p: ScorePolicy, v: int): seq<Section> {
    if ss == [] then []
    else (if SectionScore(ss[0], p) == v then [ss[0]] else []) + ScoringAs(ss[1..], p, v)
  }

  /** Scores never increase from one element to the next. */
  predicate Descending(rs: seq<RankedSection>) {
    forall i, j | 0 <= i < j < |rs| :: rs[i].score >= rs[j].score
  }

  /** Sections ordered by non-increasing score under `p`. */
  predicate SortedByScore(ss: seq<Section>, p: ScorePolicy) {
    forall i, j | 0 <= i < j < |ss| :: SectionScore(ss[i], p) >= SectionScore(ss[j], p)
  }

  /** Inserts `x` before the first element whose score is not above its own. */
  function Insert(x: RankedSection, rs: seq<RankedSection>): (r: seq<RankedSection>)
    ensures |r| == |rs| + 1
  {
    if rs == [] || x.score >= rs[0].score then [x] + rs
    else
      var r := [rs[0]] + Insert(x, rs[1..]);
      assert rs == [rs[0]] + rs[1..];
      r
  }

  /** Insertion adds `x` and loses nothing. */
  lemma {:induction false} InsertPermutes(x: RankedSection, rs: seq<RankedSection>)
    ensures multiset(Insert(x, rs)) == multiset(rs) + multiset{x}
  {
    if rs != [] && x.score < rs[0].score {
      InsertPermutes(x, rs[1..]);
      assert rs == [rs[0]] + rs[1..];
    }
  }

  lemma {:induction false} WithScoreAppend(a: seq<RankedSection>, b: seq<RankedSection>, v: int)
    ensures WithScore(a + b, v) == WithScore(a, v) + WithScore(b, v)
  {
    if a != [] {
      assert (a + b)[0] == a[0];
      assert (a + b)[1..] == a[1..] + b;
      WithScoreAppend(a[1..], b, v);
      var head := if a[0].score == v then [a[0]] else [];
      assert WithScore(a + b, v) == head + WithScore(a[1..] + b, v);
      assert WithScore(a, v) == head + WithScore(a[1..], v);
    } else {
      assert a + b == b;
    }
  }

  lemma SectionsOfAppend(a: seq<RankedSection>, b: seq<RankedSection>)
    ensures SectionsOf(a + b) == SectionsOf(a) + SectionsOf(b)
  {
    assert forall i | 0 <= i < |a + b| :: SectionsOf(a + b)[i] == (SectionsOf(a) + SectionsOf(b))[i];
  }

  /** Insertion keeps every score under a bound that `x` and `rs` are under. */
  lemma {:induction false} InsertBounded(x: RankedSection, rs: seq<RankedSection>, bound: int)
    requires x.score <= bound
    requires forall k | 0 <= k < |rs| :: rs[k].score <= bound
    ensures forall k | 0 <= k < |Insert(x, rs)| :: Insert(x, rs)[k].score <= bound
  {
    if rs != [] && x.score < rs[0].score {
      InsertBounded(x, rs[1..], bound);
      InsertAfterHead(x, rs);
    }
  }

  /** Inserting into a list sorted by non-increasing score keeps it sorted. */
  lemma {:induction false} InsertDescending(x: RankedSection, rs: seq<RankedSection>)
    requires Descending(rs)
    ensures Descending(Insert(x, rs))
  {
    if rs != [] && x.score < rs[0].score {
      var tail := Insert(x, rs[1..]);
      assert Descending(rs[1..]) by {
        forall i, j | 0 <= i < j < |rs[1..]| ensures rs[1..][i].score >= rs[1..][j].score {
          assert rs[1..][i] == rs[i + 1] && rs[1..][j] == rs[j + 1];
        }
      }
      InsertDescending(x, rs[1..]);
      forall k | 0 <= k < |rs[1..]| ensures rs[1..][k].score <= rs[0].score {
        assert rs[1..][k] == rs[k + 1];
      }
      InsertBounded(x, rs[1..], rs[0].score);
      InsertAfterHead(x, rs);
      var r := [rs[0]] + tail;
      forall i, j | 0 <= i < j < |r| ensures r[i].score >= r[j].score {
        assert r[j] == tail[j - 1];
        if i > 0 {
          assert r[i] == tail[i - 1];
        }
      }
    }
  }

  lemma WithScoreCons(h: RankedSection, t: seq<RankedSection>, v: int)
    ensures WithScore([h] + t, v) == (if h.score == v then [h] else []) + WithScore(t, v)
  {
    assert ([h] + t)[1..] == t;
  }

  /** `x` lands before every element with its own score: the elements scoring `v` are
      those of `rs`, preceded by `x` when `x` scores `v`. */
  lemma {:induction false} InsertWithScore(x: RankedSection, rs: seq<RankedSection>, v: int)
    ensures WithScore(Insert(x, rs), v) == (if x.score == v then [x] else []) + WithScore(rs, v)
  {
    if rs == [] || x.score >= rs[0].score {
      WithScoreCons(x, rs, v);
    } else {
      var tail := Insert(x, rs[1..]);
      InsertWithScore(x, rs[1..], v);
      InsertAfterHead(x, rs);
      WithScoreCons(rs[0], tail, v);
      HeadTail(rs);
      WithScoreCons(rs[0], rs[1..], v);
      if x.score == v {
        assert rs[0].score != v;
      }
    }
  }

  lemma SectionsOfCons(r: RankedSection, rs: seq<RankedSection>)
    ensures SectionsOf([r] + rs) == [r.section] + SectionsOf(rs)
  {
    assert ([r] + rs)[1..] == rs;
  }

  lemma HeadTail<T>(s: seq<T>)
    requires s != []
    ensures [s[0]] + s[1..] == s
  {
  }

  lemma MultisetCons<T>(h: T, t1: seq<T>, t2: seq<T>, y: T)
    requires multiset(t1) == multiset(t2) + multiset{y}
    ensures multiset([h] + t1) == multiset([h] + t2) + multiset{y}
  {
  }

  lemma InsertAfterHead(x: RankedSection, rs: seq<RankedSection>)
    requires rs != [] && x.score < rs[0].score
    ensures Insert(x, rs) == [rs[0]] + Insert(x, rs[1..])
  {
  }

  /** The inductive step of `InsertSections`, when `x` goes after the head. */
  lemma InsertSectionsStep(x: RankedSection, rs: seq<RankedSection>)
    requires rs != [] && x.score < rs[0].score
    requires multiset(SectionsOf(Insert(x, rs[1..]))) == multiset(SectionsOf(rs[1..])) + multiset{x.section}
    ensures multiset(SectionsOf(Insert(x, rs))) == multiset(SectionsOf(rs)) + multiset{x.section}
  {
    var tail := Insert(x, rs[1..]);
    InsertAfterHead(x, rs);
    SectionsOfCons(rs[0], tail);
    SectionsOfCons(rs[0], rs[1..]);
    HeadTail(rs);
    MultisetCons(rs[0].section, SectionsOf(tail), SectionsOf(rs[1..]), x.section);
  }

  /** Insertion adds the section of `x` to the multiset of sections. */
  lemma {:induction false} InsertSections(x: RankedSection, rs: seq<RankedSection>)
    ensures multiset(SectionsOf(Insert(x, rs))) == multiset(SectionsOf(rs)) + multiset{x.section}
  {
    if rs == [] || x.score >= rs[0].score {
      SectionsOfCons(x, rs);
    } else {
      InsertSections(x, rs[1..]);
      InsertSectionsStep(x, rs);
    }
  }

  /** `list.sort(key=score, reverse=True)`: a stable sort by non-increasing score,
      here as insertion sort. */
  function SortByScore(rs: seq<RankedSection>): (r: seq<RankedSection>)
    ensures |r| == |rs|
  {
    if rs == [] then [] else Insert(rs[0], SortByScore(rs[1..]))
  }

  lemma SortUnfold(rs: seq<RankedSection>)
    requires rs != []
    ensures SortByScore(rs) == Insert(rs[0], SortByScore(rs[1..]))
  {
  }

  lemma {:induction false} SortDescending(rs: seq<RankedSection>)
    ensures Descending(SortByScore(rs))
  {
    if rs != [] {
      SortDescending(rs[1..]);
      SortUnfold(rs);
      InsertDescending(rs[0], SortByScore(rs[1..]));
    }
  }

  lemma {:induction false} SortPermutes(rs: seq<RankedSection>)
    ensures multiset(SortByScore(rs)) == multiset(rs)
  {
    if rs != [] {
      SortPermutes(rs[1..]);
      SortUnfold(rs);
      InsertPermutes(rs[0], SortByScore(rs[1..]));
      HeadTail(rs);
      assert multiset(rs) == multiset([rs[0]] + rs[1..]);
    }
  }

  lemma {:induction false} SortSections(rs: seq<RankedSection>)
    ensures multiset(SectionsOf(SortByScore(rs))) == multiset(SectionsOf(rs))
  {
    if rs != [] {
      SortSections(rs[1..]);
      SortUnfold(rs);
      InsertSections(rs[0], SortByScore(rs[1..]));
      HeadTail(rs);
      SectionsOfCons(rs[0], rs[1..]);
      assert multiset(SectionsOf(rs)) == multiset([rs[0].section] + SectionsOf(rs[1..]));
    }
  }

  lemma {:induction false} SortStable(rs: seq<RankedSection>, v: int)
    ensures WithScore(SortByScore(rs), v) == WithScore(rs, v)
  {
    if rs != [] {
      SortStable(rs[1..], v);
      SortUnfold(rs);
      InsertWithScore(rs[0], SortByScore(rs[1..]), v);
    }
  }

  /** The sort orders by non-increasing score, permutes the sections, and keeps the
      relative order of the elements of each score. */
  lemma SortByScoreCorrect(rs: seq<RankedSection>)
    ensures Descending(SortByScore(rs))
    ensures multiset(SortByScore(rs)) == multiset(rs)
    ensures multiset(SectionsOf(SortByScore(rs))) == multiset(SectionsOf(rs))
    ensures forall v :: WithScore(SortByScore(rs), v) == WithScore(rs, v)
  {
    SortDescending(rs);
    SortPermutes(rs);
    SortSections(rs);
    forall v ensures WithScore(SortByScore(rs), v) == WithScore(rs, v) {
      SortStable(rs, v);
    }
  }

  /** When every stored score is the policy's score of its section, keeping the
      elements scoring `v` and then dropping scores and ranks is the same as dropping
      scores and ranks and then keeping the sections that score `v`. */
  lemma {:induction false} WithScoreSections(rs: seq<RankedSection>, p: ScorePolicy, v: int)
    requires forall i | 0 <= i < |rs| :: rs[i].score == SectionScore(rs[i].section, p)
    ensures SectionsOf(WithScore(rs, v)) == ScoringAs(SectionsOf(rs), p, v)
  {
    if rs != [] {
      WithScoreSections(rs[1..], p, v);
      assert SectionsOf(rs)[1..] == SectionsOf(rs[1..]);
      var head := if rs[0].score == v then [rs[0]] else [];
      SectionsOfAppend(head, WithScore(rs[1..], v));
    }
  }

  /** `rs` is `ranked`'s list of scored sections: every stored score is the policy's
      score of its section, ranks are the 1-based positions, scores never increase,
      the sections are a permutation of `sections`, and for each score the sections
      with that score keep their order from `sections`. */
  ghost predicate IsRanking(sections: seq<Section>, p: ScorePolicy, ranked: seq<RankedSection>) {
    && |ranked| == |sections|
    && multiset(SectionsOf(ranked)) == multiset(sections)
    && (forall i | 0 <= i < |ranked| :: ranked[i].rank == i + 1)
    && (forall i | 0 <= i < |ranked| :: ranked[i].score == SectionScore(ranked[i].section, p))
    && Descending(ranked)
    && (forall v :: ScoringAs(SectionsOf(ranked), p, v) == ScoringAs(sections, p, v))
  }

  /** Every stored score is the policy's score of its section. */
  predicate ConsistentScores(rs: seq<RankedSection>, p: ScorePolicy) {
    forall i | 0 <= i < |rs| :: rs[i].score == SectionScore(rs[i].section, p)
  }

  /** Permuting a list keeps its scores consistent with its sections. */
  lemma ConsistentScoresPermuted(a: seq<RankedSection>, b: seq<RankedSection>, p: ScorePolicy)
    requires ConsistentScores(a, p)
    requires multiset(a) == multiset(b)
    ensures ConsistentScores(b, p)
  {
    forall i | 0 <= i < |b| ensures b[i].score == SectionScore(b[i].section, p) {
      assert b[i] in multiset(a);
      var k :| 0 <= k < |a| && a[k] == b[i];
    }
  }

  /** Numbering the stable sort of the scored sections 1..N gives a ranking. */
  lemma RankedSortIsRanking(sections: seq<Section>, p: ScorePolicy, initial: seq<RankedSection>, ranked: seq<RankedSection>)
    requires |initial| == |sections|
    requires forall k | 0 <= k < |initial| :: initial[k] == Ranked(sections[k], SectionScore(sections[k], p), 0)
    requires |ranked| == |sections|
    requires forall k | 0 <= k < |ranked| :: ranked[k] == SortByScore(initial)[k].(rank := k + 1)
    ensures IsRanking(sections, p, ranked)
  {
    var sorted := SortByScore(initial);
    SortByScoreCorrect(initial);
    assert SectionsOf(initial) == sections;
    assert SectionsOf(ranked) == SectionsOf(sorted);
    ConsistentScoresPermuted(initial, sorted, p);
    forall v ensures ScoringAs(SectionsOf(ranked), p, v) == ScoringAs(sections, p, v) {
      WithScoreSections(sorted, p, v);
      WithScoreSections(initial, p, v);
    }
  }

  /** `rank_sections`: scores every section, sorts stably by non-increasing score,
      then numbers the sections 1..N in their sorted order. */
  method RankSections(sections: seq<Section>, p: ScorePolicy) returns (ranked: seq<RankedSection>)
    ensures IsRanking(sections, p, ranked)
    ensures sections == [] ==> ranked == []
  {
    if sections == [] {
      return [];
    }
    var scored: seq<RankedSection> := [];
    for i := 0 to |sections|
      invariant |scored| == i
      invariant forall k | 0 <= k < i :: scored[k] == Ranked(sections[k], SectionScore(sections[k], p), 0)
    {
      var score := ScoreSection(sections[i], p);
      scored := scored + [Ranked(sections[i], score, 0)];
    }
    ghost var initial := scored;
    scored := SortByScore(scored);
    ghost var sorted := scored;
    for i := 0 to |scored|
      invariant |scored| == |sorted|
      invariant forall k | 0 <= k < i :: scored[k] == sorted[k].(rank := k + 1)
      invariant forall k | i <= k < |scored| :: scored[k] == sorted[k]
    {
      scored := scored[i := scored[i].(rank := i + 1)];
    }
    ranked := scored;
    RankedSortIsRanking(sections, p, initial, ranked);
  }
}

/** Uniqueness of the stable order: why a reference insertion sort stands for Python's `list.sort`. */
module RankingUnique {
  import opened Ranking

  /** In a list sorted by non-increasing score, no section scores above the first one. */
  lemma {:induction false} NoneAboveFirst(ss: seq<Section>, p: ScorePolicy, v: int)
    requires SortedByScore(ss, p)
    requires ss == [] || v > SectionScore(ss[0], p)
    ensures ScoringAs(ss, p, v) == []
  {
    if ss != [] {
      assert SortedByScore(ss[1..], p);
      if |ss| > 1 {
        assert SectionScore(ss[1], p) <= SectionScore(ss[0], p);
      }
      NoneAboveFirst(ss[1..], p, v);
    }
  }

  /** Two lists sorted by non-increasing score in which the sections of every score come
      in the same order are equal: a stable sort has exactly one possible result. */
  lemma {:induction false} StableOrderUnique(a: seq<Section>, b: seq<Section>, p: ScorePolicy)
    requires SortedByScore(a, p) && SortedByScore(b, p)
    requires forall v :: ScoringAs(a, p, v) == ScoringAs(b, p, v)
    ensures a == b
    decreases |a|
  {
    if a == [] || b == [] {
      if a != [] {
        NoneAboveFirst(b, p, SectionScore(a[0], p));
        assert false;
      } else if b != [] {
        NoneAboveFirst(a, p, SectionScore(b[0], p));
        assert false;
      }
    } else {
      var va, vb := SectionScore(a[0], p), SectionScore(b[0], p);
      if vb > va {
        NoneAboveFirst(a, p, vb);
        assert false;
      } else if va > vb {
        NoneAboveFirst(b, p, va);
        assert false;
      }
      assert va == vb;
      assert ScoringAs(a, p, va) == [a[0]] + ScoringAs(a[1..], p, va);
      assert ScoringAs(b, p, va) == [b[0]] + ScoringAs(b[1..], p, va);
      assert ScoringAs(a, p, va) == ScoringAs(b, p, va);
      assert a[0] == ScoringAs(a, p, va)[0] == b[0];
      forall w ensures ScoringAs(a[1..], p, w) == ScoringAs(b[1..], p, w) {
        var head := if w == va then [a[0]] else [];
        assert ScoringAs(a, p, w) == head + ScoringAs(a[1..], p, w);
        assert ScoringAs(b, p, w) == head + ScoringAs(b[1..], p, w);
        assert ScoringAs(a, p, w) == ScoringAs(b, p, w);
        assert ScoringAs(a[1..], p, w) == ScoringAs(a, p, w)[|head|..];
        assert ScoringAs(b[1..], p, w) == ScoringAs(b, p, w)[|head|..];
      }
      assert SortedByScore(a[1..], p) && SortedByScore(b[1..], p);
      StableOrderUnique(a[1..], b[1..], p);
      assert a == [a[0]] + a[1..] && b == [b[0]] + b[1..];
    }
  }

  /** The ranking of a list of sections is determined by the sections and the policy:
      any two results meeting `IsRanking` are the same list, so the insertion sort of the
      model orders exactly as Python's stable `list.sort` does. */
  lemma RankingDeterministic(sections: seq<Section>, p: ScorePolicy, r1: seq<RankedSection>, r2: seq<RankedSection>)
    requires IsRanking(sections, p, r1) && IsRanking(sections, p, r2)
    ensures r1 == r2
  {
    var a, b := SectionsOf(r1), SectionsOf(r2);
    assert SortedByScore(a, p) by {
      forall i, j | 0 <= i < j < |a| ensures SectionScore(a[i], p) >= SectionScore(a[j], p) {
        assert r1[i].score >= r1[j].score;
      }
    }
    assert SortedByScore(b, p) by {
      forall i, j | 0 <= i < j < |b| ensures SectionScore(b[i], p) >= SectionScore(b[j], p) {
        assert r2[i].score >= r2[j].score;
      }
    }
    StableOrderUnique(a, b, p);
    forall i | 0 <= i < |r1| ensures r1[i] == r2[i] {
      assert r1[i].section == a[i] && r2[i].section == b[i];
    }
  }
}
