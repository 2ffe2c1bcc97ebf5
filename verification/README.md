# Resumatch matching core in Dafny

Resumatch is a small Flask application that matches uploaded résumés and job
descriptions against each other.
- An employer uploads a job description as a `.txt` file and sees the three
  best-matching résumés.
- A job seeker uploads a résumé as a `.pdf` file and sees the three
  best-matching jobs.
- A listings page shows all jobs, twenty per page.

All matching rests on a bag-of-words cosine similarity:
- `clean_text` deletes every character that is not an ASCII letter, an ASCII
  digit or whitespace. It then lower-cases the text, splits it on whitespace
  and drops fifteen stop words.
- `get_cosine_similarity` compares the two texts' token counts.

This project models that core of `app.py` and proves properties of it.

| file | module | models |
|---|---|---|
| `seqs.dfy` | `Seqs` | order-preserving filtering (the list comprehension) and the subsequence relation |
| `text_clean.dfy` | `TextClean` | `clean_text`: character deletion, `str.lower`, `str.split()`, the stop words, `" ".join` |
| `similarity.dfy` | `Similarity` | `get_cosine_similarity` as the integer triple (numerator, sum1, sum2), with a reference definition over token bags |
| `ranking.dfy` | `Ranking` | `sorted(..., key=score, reverse=True)[:3]`, the stable descending sort and the top-three cut |
| `matching.dfy` | `Matching` | the scoring loops of `employer()` and `job_seeker()` |
| `listings.dfy` | `Listings` | the page count and the page slice of `listings()`, including Python's slice rules |
| `verify_app.dfy` | `VerifyApp` | the two logic unit tests of `verify_app.py`, as lemmas |

How the model represents the source:
- Whitespace is the set of code points that Python 3 treats as whitespace in
  `str`. The regular-expression class `\s` and `str.split()` agree on this set.
- The score `numerator / (sqrt(sum1) * sqrt(sum2))` needs floating-point
  square roots, so it is represented exactly by the integer triple `Cosine`:
  - the score is 0.0 exactly when `ScoreIsZero` holds;
  - in real arithmetic, it is 1 exactly when `IsPerfect` holds;
  - in real arithmetic, its square is `ScoreSquared`.
- The displayed score `round(score * 100, 2)` is a caller-supplied function
  `percent` of that triple, and the ranking sorts by it.
- A record extended with its score (`record | {"score": s}`) is
  `Scored(record, s)`.

What the code does, and therefore what the model does:
- Words are weighted by raw term counts (`Counter`).
- Nothing is cached: every record is cleaned again on every request.
- There is no positive-score filter. Every upload that reaches the scoring
  loop gets `min(3, n)` records, zero scores included
  (`Matching.UnrelatedCorpusKeepsOrder`). A GET request or an upload with the
  wrong extension never reaches the loop and shows no matches.

## Model

| member | source | states |
|---|---|---|
| TextClean.CleanText | app.py:52-63 | every token is non-empty, consists only of lower-case ASCII letters and digits, and is not one of the fifteen stop words |
| TextClean.CleanTextSelects | app.py:58-63 | the tokens are an in-order subsequence of the whitespace-split, lower-cased, punctuation-free text; every non-stop word occurs in the tokens exactly as often as in that text, and no stop word occurs |
| TextClean.CleanTextIdempotent | app.py:52-63 | cleaning the space-joined tokens of a cleaned text gives the same tokens back |
| TextClean.Lower | app.py:62 | `str.lower()` on the kept text: the length is unchanged, no upper-case ASCII letter remains, each upper-case letter becomes its lower-case letter, and every other character is unchanged |
| Seqs.Filter | app.py:61-63 | the deletion of `re.sub` and the stop-word comprehension: the result holds only elements of the input that pass the test |
| TextClean.Split | app.py:62 | `str.split()`: every word is non-empty and contains no whitespace |
| TextClean.SplitSkipsSpace | app.py:62 | `str.split()` skips a leading whitespace character of any kind |
| TextClean.SplitLeadingWord | app.py:62 | a whitespace-free word followed by nothing or by whitespace is split off whole as the first word |
| TextClean.SplitSeparatesWords | app.py:62 | two words separated by any non-empty whitespace run (several spaces, a tab, a line break) split into exactly those two words |
| TextClean.SplitJoin | app.py:62 | `str.split()` of the space-joined words returns the words, for non-empty whitespace-free words |
| TextClean.SplitWords | app.py:62 | `str.split()` returns non-empty whitespace-free words drawn from the text, which together hold exactly the text's non-whitespace characters in order |
| TextClean.CleanTextOfPlainWords | app.py:61-63 | for a text without punctuation whose lower-cased form is the space-joined words, `clean_text` returns exactly the non-stop words, in order |
| Similarity.CosineOf | app.py:69-79 | the reference triple of two token lists, from their bags of counts; each sum of squares is 0 exactly when its token list is empty |
| Similarity.SumProducts | app.py:76-79 | the loop over a key set computes the order-independent sum of count products over that set |
| Similarity.GetCosineSimilarity | app.py:65-84 | the computed triple is the reference triple of the cleaned texts; numerator² ≤ sum1·sum2; the score is 0 exactly when a cleaned text is empty or the texts share no token |
| Similarity.SumOfSquaresZero | app.py:78-83 | a sum of squared counts is 0 exactly for an empty bag, so the denominator is 0 exactly when a text cleans to nothing |
| Similarity.NumeratorZero | app.py:75-76 | the numerator is 0 exactly when the two token sets are disjoint |
| Similarity.BagsCauchySchwarz | app.py:76-80 | Cauchy–Schwarz for two token bags: numerator² ≤ sum1·sum2 |
| Similarity.CosineBounded | app.py:76-84 | the numerator is non-negative, numerator² ≤ sum1·sum2, and the squared score lies in [0, 1] in real arithmetic |
| Similarity.CosineSymmetric | app.py:65-84 | swapping the two texts keeps the numerator, swaps the sums, and keeps whether the score is zero and its square |
| Similarity.CosineZeroCases | app.py:75-84 | the score is exactly 0 if and only if one token list is empty or the two share no token |
| Similarity.CosineSelfMatch | app.py:72-84 | two non-empty token lists with the same counts in any order score exactly 1 in real arithmetic |
| Similarity.PerfectWithoutEqualCounts | app.py:72-80 | proportional counts also score 1: the bags {a,a,b,b} and {a,b} differ yet numerator² = sum1·sum2 |
| VerifyApp.CleanTextExample | verify_app.py:11-14 | "Hello! This is a TEST." cleans to ["hello", "this", "test"] |
| VerifyApp.CosineSimilarityExample | verify_app.py:16-24 | "Python developer with Flask" against "Flask developer using Python" scores 1 in real arithmetic (above 0.8); against "Chef cooking food" it scores exactly 0 (below 0.2) |
| Ranking.SortByScore | app.py:155 | the result is sorted by descending score, is a permutation of the input, and keeps the input order within each score |
| Ranking.TopMatches | app.py:155 | the result has min(3, n) entries, sorted by descending score, drawn from the input; no left-out entry scores higher than a kept one; within each score the kept entries are the earliest ones of the input |
| Ranking.StableSortUnique | app.py:155 | any list sorted by descending score that keeps the input order within each score equals `SortByScore` of the input |
| Ranking.AllTiedKeepsCorpusOrder | app.py:155 | when every entry has the same score, the top three are the first three entries in input order |
| Matching.ScoreAll | app.py:149-152 | the scored list has one entry per corpus record, in corpus order, each record paired with its own score |
| Matching.ScoreRecord | app.py:151-152 | one loop step: the score of a record is `percent` of the similarity triple of the cleaned query and the cleaned record text |
| Matching.ScoreCorpus | app.py:149-152 | the loop builds one entry per corpus record, in corpus order, with that record's score |
| Matching.MatchesAreScoredRecords | app.py:149-155 | every match is a corpus record paired with its own score |
| Matching.MatchAgainst | app.py:149-155 | the loop scores every corpus record in order; the result is the top three of that scored list, min(3, n) long, sorted, and each entry is a corpus record with its own score |
| Matching.Employer | app.py:146-155 | the matches are the top min(3, n) résumés by score against the job description, each with its own score |
| Matching.JobSeeker | app.py:177-186 | the matches are the top min(3, n) jobs by score of their description against the résumé, each with its own score |
| Matching.MatchesOutrankRest | app.py:149-155 | no corpus record that was left out scores higher than a shown match |
| Matching.UnrelatedCorpusKeepsOrder | app.py:149-155 | when no record shares a token with the query, the matches are the first min(3, n) records in corpus order, each with score 0: nothing is filtered out |
| Matching.EmptyUploadKeepsOrder | app.py:177-186 | an upload that cleans to no tokens still gets the first min(3, n) records, each with score 0 |
| Listings.TotalPages | app.py:120-122 | the page count is the least number of 20-job pages that holds all jobs |
| Listings.ClampIndex | app.py:127 | Python's slice-bound rule: the bound lies in 0..n; a non-negative bound is capped at n; a negative bound counts from the end and stops at 0 |
| Listings.Slice | app.py:127 | `s[start:end]`: never longer than `s`; in-range non-negative bounds give the plain slice; in-range negative bounds give the slice counted from the end; an end at or before the start gives nothing when both bounds are non-negative or the start is negative; a non-negative start with a negative end gives the slice from the start up to the end counted from the end, as in `[5:-1]` |
| Listings.Page | app.py:124-127 | a page holds at most 20 jobs, all taken from the job list |
| Listings.Listing | app.py:118-129 | the view carries the page number and page count; for pages 1 to the last it shows exactly the jobs from (page-1)·20 up to page·20 or the end, and pages after the last show nothing |
| Listings.PageContents | app.py:124-127 | for 1 ≤ page ≤ the page count, the page is exactly the jobs from (page-1)·20 up to min(page·20, total), in order, and is not empty |
| Listings.PageBeyond | app.py:122-127 | a page after the last one is empty |
| Listings.PageZero | app.py:124-127 | page 0 is the slice `[-20:0]`, which is empty |
| Listings.PageNegative | app.py:119-127 | a negative page counts from the end of the list: page p shows jobs max(0, n+(p-1)·20) up to max(0, n+p·20) |
| Listings.PageOfIndex | app.py:120-127 | job i is entry i mod 20 of page i div 20 + 1, and that page exists |
| Listings.PagesCover | app.py:120-127 | pages 1 to the last, concatenated, are the whole job list in order |

## Left out

- Flask routing is not modelled. That covers the request-method checks, the redirects for a missing file or an empty file name, the `.txt`/`.pdf` extension checks, `secure_filename`, saving and deleting the upload, and template rendering. The matching methods start from the uploaded text.
- `extract_text_from_pdf` and `extract_text_from_txt` are file I/O and a PDF library. The uploaded text is a parameter.
- `load_data` is CSV reading with pandas. The résumé and job tables are parameters.
- The `page` query parameter's parsing and its default of 1 are left out. `request.args.get('page', 1, type=int)` belongs to Flask, and the page number is an integer parameter.
- Similarity.GetCosineSimilarity: returns the exact integer triple instead of the floating-point score. The float that app.py:84 returns can differ from the real quotient by rounding. It can even slightly exceed 1: for the triple (3, 3, 3), `3 / (sqrt(3) * sqrt(3))` evaluates to 1.0000000000000002 in IEEE double arithmetic. The statements "score 1" and "score in [0, 1]" hold of the real quotient only. `math.sqrt` and `/` are floating-point operations, so the model states the score's square exactly rather than reproducing rounding.
- Matching.MatchAgainst: the displayed score `round(score * 100, 2)` is the caller-supplied `percent`. Floating-point rounding, and any ties it creates between close scores, are therefore not modelled.
- Matching.Employer: the same `percent` abstraction as `Matching.MatchAgainst`.
- Matching.JobSeeker: the same `percent` abstraction as `Matching.MatchAgainst`.
- Listings.TotalPages: computed as the exact integer ceiling. `math.ceil(total / 20)` divides in floating point, which agrees for job counts below 2^53.
- Python strings may hold lone surrogate code points, which a Dafny `char` cannot. Such text is not modelled.
