/** The `/listings` page: the job list is shown twenty at a time.  The page
    number is any integer; the page shown is the Python slice
    `jobs[(page - 1) * 20 : (page - 1) * 20 + 20]`, with Python's rules for
    negative and out-of-range slice bounds. */
module Listings {
  import opened Seqs

  /** Jobs per page. */
  const PerPage: nat := 20

  /** `math.ceil(total / 20)`: the least number of pages that holds `total`
      jobs. */
  function TotalPages(total: nat): (p: nat)
    ensures p * PerPage >= total
    ensures p > 0 ==> (p - 1) * PerPage < total
  {
    (total + PerPage - 1) / PerPage
  }

  /** A slice bound as Python resolves it against a sequence of length `n`:
      a negative bound counts from the end, and the result is clamped to
      `0..n`. */
  function ClampIndex(i: int, n: nat): (k: nat)
    ensures k <= n
    ensures 0 <= i ==> k == Min(i, n)
    ensures i < 0 ==> k == if i + n < 0 then 0 else i + n
  {
    if i < 0 then (if i + n < 0 then 0 else i + n)
    else if i > n then n
    else i
  }

  /** `s[start:end]` in Python. */
  function Slice<T>(s: seq<T>, start: int, end: int): (r: seq<T>)
    ensures |r| <= |s|
    ensures 0 <= start <= end <= |s| ==> r == s[start..end]
    ensures -|s| <= start <= end < 0 ==> r == s[|s| + start .. |s| + end]
    ensures end <= start && (end >= 0 || start < 0) ==> r == []
    ensures 0 <= start <= |s| + end && end < 0 ==> r == s[start .. |s| + end]
  {
    var lo, hi := ClampIndex(start, |s|), ClampIndex(end, |s|);
    if lo < hi then s[lo..hi] else []
  }

  /** `JOBS_DB[start:end]` with `start = (page - 1) * 20` and
      `end = start + 20`. */
  function Page<T>(jobs: seq<T>, page: int): (r: seq<T>)
    ensures |r| <= PerPage
    ensures forall x :: x in r ==> x in jobs
  {
    var start := (page - 1) * PerPage;
    Slice(jobs, start, start + PerPage)
  }

  /** What the listings template receives. */
  datatype ListingView<T> = ListingView(jobs: seq<T>, page: int, totalPages: nat)

  /** `listings()` for a given page number. */
  function Listing<T>(jobs: seq<T>, page: int): (v: ListingView<T>)
    ensures v.page == page && v.totalPages == TotalPages(|jobs|)
    ensures |v.jobs| <= PerPage
    ensures 1 <= page <= v.totalPages ==>
      v.jobs != [] && v.jobs == jobs[(page - 1) * PerPage .. Min(page * PerPage, |jobs|)]
    ensures page > v.totalPages ==> v.jobs == []
  {
    var v := ListingView(Page(jobs, page), page, TotalPages(|jobs|));
    if 1 <= page <= v.totalPages then PageContents(jobs, page); v
    else if page > v.totalPages then PageBeyond(jobs, page); v
    else v
  }

  // ---------------------------------------------------------------------
  // Properties of the pagination

  /** A page between 1 and the last page holds the jobs from
      `(page - 1) * 20` up to `page * 20` or the end, in order, and is
      never empty. */
  lemma PageContents<T>(jobs: seq<T>, page: int)
    requires 1 <= page <= TotalPages(|jobs|)
    ensures Page(jobs, page) == jobs[(page - 1) * PerPage .. Min(page * PerPage, |jobs|)]
    ensures Page(jobs, page) != []
  {
    var p := TotalPages(|jobs|);
    assert (page - 1) * PerPage <= (p - 1) * PerPage;
  }

  /** Pages after the last one are empty. */
  lemma PageBeyond<T>(jobs: seq<T>, page: int)
    requires page > TotalPages(|jobs|)
    ensures Page(jobs, page) == []
  {
    var p := TotalPages(|jobs|);
    assert (page - 1) * PerPage >= p * PerPage;
  }

  /** Page 0 is accepted and is the slice `jobs[-20:0]`, which is always
      empty. */
  lemma PageZero<T>(jobs: seq<T>)
    ensures Page(jobs, 0) == []
  {
  }

  /** A negative page is accepted too: both slice bounds are negative and
      count from the end, so page -1 shows up to 20 jobs ending 20 before
      the last one, page -2 the 20 before those, and so on. */
  lemma PageNegative<T>(jobs: seq<T>, page: int)
    requires page < 0
    ensures Page(jobs, page)
      == jobs[Max(0, |jobs| + (page - 1) * PerPage) .. Max(0, |jobs| + page * PerPage)]
  {
  }

  /** Every job is on exactly the page its index says: job `i` is entry
      `i % 20` of page `i / 20 + 1`, and that page exists. */
  lemma PageOfIndex<T>(jobs: seq<T>, i: int)
    requires 0 <= i < |jobs|
    ensures 1 <= i / PerPage + 1 <= TotalPages(|jobs|)
    ensures i % PerPage < |Page(jobs, i / PerPage + 1)|
    ensures Page(jobs, i / PerPage + 1)[i % PerPage] == jobs[i]
  {
    var page := i / PerPage + 1;
    assert (page - 1) * PerPage + i % PerPage == i;
    PageContents(jobs, page);
  }

  /** Pages 1 to `count`, one after the other. */
  function Pages<T>(jobs: seq<T>, count: nat): seq<T> {
    if count == 0 then [] else Pages(jobs, count - 1) + Page(jobs, count)
  }

  /** Pages 1 to `count` together are the first `count * 20` jobs. */
  lemma {:induction false} PagesPrefix<T>(jobs: seq<T>, count: nat)
    requires count <= TotalPages(|jobs|)
    ensures Pages(jobs, count) == jobs[..Min(count * PerPage, |jobs|)]
  {
    if count > 0 {
      PagesPrefix(jobs, count - 1);
      PageContents(jobs, count);
      var mid := (count - 1) * PerPage;
      assert Min((count - 1) * PerPage, |jobs|) == mid;
      assert jobs[..mid] + jobs[mid .. Min(count * PerPage, |jobs|)] == jobs[..Min(count * PerPage, |jobs|)];
    }
  }

  /** Reading every page from 1 to the last shows every job once, in
      order. */
  lemma PagesCover<T>(jobs: seq<T>)
    ensures Pages(jobs, TotalPages(|jobs|)) == jobs
  {
    PagesPrefix(jobs, TotalPages(|jobs|));
    assert jobs[..|jobs|] == jobs;
  }
}
