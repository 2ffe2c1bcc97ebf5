/** The two matching routes.  `/employer` scores an uploaded job
    description against every resume, `/job_seeker` scores an uploaded
    resume against every job description; both keep the three best
    records.  The displayed score `round(score * 100, 2)` needs a square
    root, a division and a rounding of floating-point numbers; it is left
    abstract as a caller-supplied `percent` of the integer triple. */
module Matching {
  import opened Seqs
  import opened TextClean
  import opened Similarity
  import opened Ranking

  /** A row of the resume table: `id`, `name` (the resume's category) and
      the resume `text`. */
  datatype Resume = Resume(id: int, name: string, text: string)

  /** A row of the job table: `id`, `title` and `description`. */
  datatype Job = Job(id: int, title: string, description: string)

  function ResumeText(r: Resume): string {
    r.text
  }

  function JobDescription(j: Job): string {
    j.description
  }

  /** The displayed score of `record` against the uploaded `query`. */
  ghost function ScoreOf<R>(query: string, record: R, body: R -> string, percent: Cosine -> real): real {
    percent(CosineOf(CleanText(query), CleanText(body(record))))
  }

  /** The scored list built by the route's loop: every record of the
      corpus, in corpus order, with its score. */
  ghost function ScoreAll<R>(query: string, corpus: seq<R>, body: R -> string, percent: Cosine -> real): (r: seq<Scored<R>>)
    ensures |r| == |corpus|
    ensures forall i :: 0 <= i < |corpus| ==> r[i] == Scored(corpus[i], ScoreOf(query, corpus[i], body, percent))
  {
    seq(|corpus|, i requires 0 <= i < |corpus| => Scored(corpus[i], ScoreOf(query, corpus[i], body, percent)))
  }

  /** A `percent` that, like `round(score * 100, 2)`, shows a zero score
      as 0.0. */
  ghost predicate ZeroShowsZero(percent: Cosine -> real) {
    forall c: Cosine :: c.ScoreIsZero() ==> percent(c) == 0.0
  }

  /** One step of the route's loop:
      `round(get_cosine_similarity(query, text) * 100, 2)`. */
  method ScoreRecord(query: string, text: string, percent: Cosine -> real) returns (score: real)
    ensures score == percent(CosineOf(CleanText(query), CleanText(text)))
  {
    var c := GetCosineSimilarity(query, text);
    score := percent(c);
  }

  /** The route's loop: scores `query` against every record of `corpus`,
      in corpus order. */
  method ScoreCorpus<R>(query: string, corpus: seq<R>, body: R -> string, percent: Cosine -> real)
    returns (scored: seq<Scored<R>>)
    ensures |scored| == |corpus|
    ensures forall i :: 0 <= i < |corpus| ==>
      scored[i].record == corpus[i] && scored[i].score == ScoreOf(query, corpus[i], body, percent)
  {
    scored := [];
    for i := 0 to |corpus|
      invariant |scored| == i
      invariant forall j :: 0 <= j < i ==>
        scored[j].record == corpus[j] && scored[j].score == ScoreOf(query, corpus[j], body, percent)
    {
      var score := ScoreRecord(query, body(corpus[i]), percent);
      scored := scored + [Scored(corpus[i], score)];
    }
  }

  /** Scores `query` against every record of `corpus` and keeps the three
      best, highest first, ties in corpus order. */
  method MatchAgainst<R(==,!new)>(query: string, corpus: seq<R>, body: R -> string, percent: Cosine -> real)
    returns (matches: seq<Scored<R>>)
    ensures matches == TopMatches(ScoreAll(query, corpus, body, percent))
    ensures |matches| == Min(MaxMatches, |corpus|)
    ensures SortedByScore(matches)
    ensures forall m :: m in matches ==> m.record in corpus && m.score == ScoreOf(query, m.record, body, percent)
  {
    var scored := ScoreCorpus(query, corpus, body, percent);
    assert scored == ScoreAll(query, corpus, body, percent);
    matches := TopMatches(scored);
    MatchesAreScoredRecords(query, corpus, body, percent);
  }

  /** Every match is a corpus record with its own score. */
  lemma MatchesAreScoredRecords<R(!new)>(query: string, corpus: seq<R>, body: R -> string, percent: Cosine -> real)
    ensures forall m :: m in TopMatches(ScoreAll(query, corpus, body, percent)) ==>
      m.record in corpus && m.score == ScoreOf(query, m.record, body, percent)
  {
    var all := ScoreAll(query, corpus, body, percent);
    TopMatchesDrawn(all);
    ScoredEntries(query, corpus, body, percent);
  }

  /** Every entry of the scored list is a corpus record with its own score. */
  lemma ScoredEntries<R(!new)>(query: string, corpus: seq<R>, body: R -> string, percent: Cosine -> real)
    ensures forall m :: m in ScoreAll(query, corpus, body, percent) ==>
      m.record in corpus && m.score == ScoreOf(query, m.record, body, percent)
  {
    var all := ScoreAll(query, corpus, body, percent);
    forall m | m in all
      ensures m.record in corpus && m.score == ScoreOf(query, m.record, body, percent)
    {
      var i :| 0 <= i < |all| && all[i] == m;
    }
  }

  /** `employer()` after the upload: the three resumes that best match the
      uploaded job description. */
  method Employer(jobDescription: string, resumes: seq<Resume>, percent: Cosine -> real)
    returns (matches: seq<Scored<Resume>>)
    ensures matches == TopMatches(ScoreAll(jobDescription, resumes, ResumeText, percent))
    ensures |matches| == Min(MaxMatches, |resumes|)
    ensures SortedByScore(matches)
    ensures forall m :: m in matches ==>
      m.record in resumes && m.score == percent(CosineOf(CleanText(jobDescription), CleanText(m.record.text)))
  {
    matches := MatchAgainst(jobDescription, resumes, ResumeText, percent);
  }

  /** `job_seeker()` after the upload: the three jobs whose descriptions
      best match the uploaded resume. */
  method JobSeeker(resumeText: string, jobs: seq<Job>, percent: Cosine -> real)
    returns (matches: seq<Scored<Job>>)
    ensures matches == TopMatches(ScoreAll(resumeText, jobs, JobDescription, percent))
    ensures |matches| == Min(MaxMatches, |jobs|)
    ensures SortedByScore(matches)
    ensures forall m :: m in matches ==>
      m.record in jobs && m.score == percent(CosineOf(CleanText(resumeText), CleanText(m.record.description)))
  {
    matches := MatchAgainst(resumeText, jobs, JobDescription, percent);
  }

  /** No record that was left out scores higher than one that was kept. */
  lemma MatchesOutrankRest<R(!new)>(query: string, corpus: seq<R>, body: R -> string, percent: Cosine -> real, m: Scored<R>, i: int)
    requires m in TopMatches(ScoreAll(query, corpus, body, percent))
    requires 0 <= i < |corpus|
    requires Scored(corpus[i], ScoreOf(query, corpus[i], body, percent)) !in TopMatches(ScoreAll(query, corpus, body, percent))
    ensures m.score >= ScoreOf(query, corpus[i], body, percent)
  {
    var all := ScoreAll(query, corpus, body, percent);
    var top := TopMatches(all);
    var y := all[i];
    assert y in multiset(all);
    assert y !in multiset(top);
  }

  /** Records that share no token with the query are not filtered out:
      when none of them does (for instance when the query cleans to no
      tokens), the matches are the first three records in corpus order,
      each with score 0. */
  lemma UnrelatedCorpusKeepsOrder<R>(query: string, corpus: seq<R>, body: R -> string, percent: Cosine -> real)
    requires ZeroShowsZero(percent)
    requires forall i :: 0 <= i < |corpus| ==>
      forall w :: w in CleanText(query) ==> w !in CleanText(body(corpus[i]))
    ensures var top := TopMatches(ScoreAll(query, corpus, body, percent));
      && |top| == Min(MaxMatches, |corpus|)
      && forall i :: 0 <= i < |top| ==> top[i] == Scored(corpus[i], 0.0)
  {
    var all := ScoreAll(query, corpus, body, percent);
    forall i | 0 <= i < |corpus|
      ensures all[i].score == 0.0
    {
      CosineZeroCases(CleanText(query), CleanText(body(corpus[i])));
    }
    AllTiedKeepsCorpusOrder(all, 0.0);
  }

  /** An upload that cleans to no tokens (say, a PDF with no extractable
      text) still gets three matches: the first three records, score 0. */
  lemma EmptyUploadKeepsOrder<R>(query: string, corpus: seq<R>, body: R -> string, percent: Cosine -> real)
    requires ZeroShowsZero(percent)
    requires CleanText(query) == []
    ensures var top := TopMatches(ScoreAll(query, corpus, body, percent));
      && |top| == Min(MaxMatches, |corpus|)
      && forall i :: 0 <= i < |top| ==> top[i] == Scored(corpus[i], 0.0)
  {
    UnrelatedCorpusKeepsOrder(query, corpus, body, percent);
  }
}
