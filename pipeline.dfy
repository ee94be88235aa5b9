/**
 * The incremental extract step of the ETL run (`extract_incremental`):
 * load the saved watermark, compute a clamped window of pages, fetch the
 * pages in increasing order until the first failure and write the new
 * watermark back.
 *
 * The HTTP request for the total page count and the per-page download are
 * inputs here: `totalPages` is the count the API reported and `fetchOk(p)`
 * says whether downloading page `p` succeeds.
 */
module Pipeline {
  import opened Wrappers

  /** Directory the pages and the progress file are written to. */
  const DataDir: string := "/opt/airflow/data"

  /** Default number of pages one run may download. */
  const PagesPerRun: nat := 500

  /**
   * What reading the progress file yields: no file, a file that is not
   * valid JSON, or a JSON object that may hold the key "last_page".
   */
  datatype ProgressFile = Absent | Malformed | Parsed(lastPage: Option<int>)

  /** The outcome of one run, as a specification. */
  datatype RunPlan = RunPlan(
    start: int,             // first page of the window
    end: int,               // window end, exclusive
    fetched: seq<int>,      // pages downloaded successfully, in order
    attempted: seq<int>,    // pages a download was tried for, in order
    watermark: int)         // the value written back to the progress file

  /** The saved watermark; -1 ("nothing fetched yet") unless the file holds one. */
  function LoadLastPage(f: ProgressFile): (last: int)
    ensures f.Absent? || f.Malformed? || f == Parsed(None) ==> last == -1
    ensures f.Parsed? && f.lastPage.Some? ==> last == f.lastPage.value
  {
    match f
    case Parsed(Some(p)) => p
    case _ => -1
  }

  /** The progress file as it is written back. */
  function SavedProgress(watermark: int): (f: ProgressFile)
    ensures LoadLastPage(f) == watermark
  {
    Parsed(Some(watermark))
  }

  /** The page after the watermark or, once that is past the end, the last page again. */
  function StartPage(lastPage: int, totalPages: int): (s: int)
    ensures s < totalPages
    ensures s <= lastPage + 1
    ensures s == lastPage + 1 || s == totalPages - 1
  {
    if lastPage + 1 >= totalPages then totalPages - 1 else lastPage + 1
  }

  /** The exclusive end of the window: at most `perRun` pages and none past the last page. */
  function EndPage(start: int, perRun: nat, totalPages: int): (e: int)
    ensures e <= totalPages && e <= start + perRun
    ensures e == totalPages || e == start + perRun
  {
    Min(start + perRun, totalPages)
  }

  /** How many pages from `p` on, below `end`, download successfully before the first failure. */
  function LeadingSuccesses(fetchOk: int -> bool, p: int, end: int): (k: nat)
    ensures p + k <= end || k == 0
    ensures forall i :: p <= i < p + k ==> fetchOk(i)
    ensures p + k < end ==> !fetchOk(p + k)
    decreases end - p
  {
    if p >= end || !fetchOk(p) then 0 else 1 + LeadingSuccesses(fetchOk, p + 1, end)
  }

  /** The leading successes are exactly the successful pages before the first failure or the end. */
  lemma {:induction false} LeadingSuccessesIs(fetchOk: int -> bool, p: int, end: int, n: nat)
    requires p + n <= end
    requires forall i :: p <= i < p + n ==> fetchOk(i)
    requires p + n == end || !fetchOk(p + n)
    ensures LeadingSuccesses(fetchOk, p, end) == n
    decreases n
  {
    if n > 0 {
      LeadingSuccessesIs(fetchOk, p + 1, end, n - 1);
    }
  }

  /** The pages `start`, `start + 1`, ..., `start + n - 1`. */
  function Pages(start: int, n: nat): (r: seq<int>)
    ensures |r| == n
  {
    if n == 0 then [] else Pages(start, n - 1) + [start + n - 1]
  }

  /** What a run does, given the progress file, the page count, the per-run cap and the download outcomes. */
  function Plan(progress: ProgressFile, totalPages: int, perRun: nat, fetchOk: int -> bool): (r: RunPlan)
    ensures r.start <= r.end
    ensures r.attempted == r.fetched || r.attempted == r.fetched + [r.start + |r.fetched|]
    ensures r.fetched == [] ==> r.watermark == LoadLastPage(progress)
  {
    var last := LoadLastPage(progress);
    var s := StartPage(last, totalPages);
    var e := EndPage(s, perRun, totalPages);
    var k := LeadingSuccesses(fetchOk, s, e);
    PagesSnoc(s, k);
    RunPlan(s, e, Pages(s, k), Pages(s, if s + k < e then k + 1 else k),
            if k == 0 then last else s + k - 1)
  }

  /** The plan of a run whose window is [s, e) and whose first n pages download before the first failure. */
  lemma PlanOfRun(progress: ProgressFile, totalPages: int, perRun: nat, fetchOk: int -> bool, s: int, e: int, n: nat)
    requires s == StartPage(LoadLastPage(progress), totalPages) && e == EndPage(s, perRun, totalPages)
    requires s + n <= e
    requires forall i :: s <= i < s + n ==> fetchOk(i)
    requires s + n == e || !fetchOk(s + n)
    ensures Plan(progress, totalPages, perRun, fetchOk)
      == RunPlan(s, e, Pages(s, n), Pages(s, if s + n < e then n + 1 else n),
                 if n == 0 then LoadLastPage(progress) else s + n - 1)
  {
    LeadingSuccessesIs(fetchOk, s, e, n);
  }

  /** Decimal rendering of a natural number, as Python's `str` writes it. */
  function NatToString(n: nat): (s: string)
    ensures |s| >= 1 && forall i :: 0 <= i < |s| ==> '0' <= s[i] <= '9'
  {
    var d := [(('0' as int) + n % 10) as char];
    if n < 10 then d else NatToString(n / 10) + d
  }

  /** Decimal rendering of an integer, with a leading '-' when it is negative. */
  function IntToString(n: int): (s: string)
    ensures |s| >= 1
    ensures (s[0] == '-') == (n < 0)
  {
    if n < 0 then "-" + NatToString(-n) else NatToString(n)
  }

  /** The name under which a downloaded page is stored in the data directory. */
  function PageFileName(page: int): (name: string)
    ensures |name| >= 21
    ensures name[..15] == "asteroids_page_" && name[|name| - 5..] == ".json"
  {
    "asteroids_page_" + IntToString(page) + ".json"
  }

  /** The full path a downloaded page is stored at. */
  function PagePath(page: int): (path: string)
    ensures |path| > |DataDir| + 1 && path[..|DataDir| + 1] == DataDir + "/"
  {
    DataDir + "/" + PageFileName(page)
  }

  /** The paths of the given pages, in the same order. */
  function PagePaths(pages: seq<int>): (r: seq<string>)
    ensures |r| == |pages|
  {
    if pages == [] then [] else PagePaths(pages[..|pages| - 1]) + [PagePath(pages[|pages| - 1])]
  }

  lemma PagesSnoc(start: int, n: nat)
    ensures Pages(start, n + 1) == Pages(start, n) + [start + n]
  {
  }

  lemma PagePathsSnoc(pages: seq<int>, p: int)
    ensures PagePaths(pages + [p]) == PagePaths(pages) + [PagePath(p)]
  {
    assert (pages + [p])[..|pages|] == pages;
  }

  /**
   * One run of the extract step. Returns the paths of the downloaded pages
   * (the list pushed to the next task), the pages a download was attempted
   * for, and the progress file as it is written back at loop exit.
   */
  method ExtractIncremental(progress: ProgressFile, totalPages: int, perRun: nat, fetchOk: int -> bool)
    returns (fetchedFiles: seq<string>, attempted: seq<int>, saved: ProgressFile)
    ensures var plan := Plan(progress, totalPages, perRun, fetchOk);
      && fetchedFiles == PagePaths(plan.fetched)
      && attempted == plan.attempted
      && saved == SavedProgress(plan.watermark)
  {
    var lastPage := LoadLastPage(progress);
    var startPage := lastPage + 1;
    if startPage >= totalPages {
      startPage := totalPages - 1;
    }
    var endPage := Min(startPage + perRun, totalPages);

    var fetchedPages := [];
    attempted := [];
    var finalPageFetched := lastPage;
    var page := startPage;
    ghost var halted := false;
    while page < endPage
      invariant startPage <= page <= endPage
      invariant forall p :: startPage <= p < page ==> fetchOk(p)
      invariant attempted == Pages(startPage, page - startPage)
      invariant fetchedPages == attempted
      invariant finalPageFetched == if page == startPage then lastPage else page - 1
      decreases endPage - page
    {
      PagesSnoc(startPage, page - startPage);
      attempted := attempted + [page];
      if fetchOk(page) {
        fetchedPages := fetchedPages + [page];
        finalPageFetched := page;
        page := page + 1;
      } else {
        halted := true;
        break;
      }
    }
    ghost var n := page - startPage;
    assert halted ==> page < endPage && !fetchOk(page) && attempted == Pages(startPage, n + 1);
    assert !halted ==> page == endPage && attempted == Pages(startPage, n);
    PlanOfRun(progress, totalPages, perRun, fetchOk, startPage, endPage, n);
    ghost var plan := Plan(progress, totalPages, perRun, fetchOk);
    assert plan.watermark == finalPageFetched;
    fetchedFiles := PagePaths(fetchedPages);
    saved := SavedProgress(finalPageFetched);
  }

  /** Element `i` of `Pages(start, n)` is page `start + i`. */
  lemma {:induction false} PagesAt(start: int, n: nat, i: nat)
    requires i < n
    ensures Pages(start, n)[i] == start + i
    decreases n
  {
    if i < n - 1 {
      PagesAt(start, n - 1, i);
    }
  }

  /** Every attempted page lies in the window, and the window holds at most `perRun` pages. */
  lemma WindowBounds(progress: ProgressFile, totalPages: int, perRun: nat, fetchOk: int -> bool)
    ensures var plan := Plan(progress, totalPages, perRun, fetchOk);
      && plan.start <= plan.end <= totalPages
      && plan.end - plan.start <= perRun
      && |plan.fetched| <= |plan.attempted| <= plan.end - plan.start
      && forall i :: 0 <= i < |plan.attempted| ==> plan.start <= plan.attempted[i] < plan.end
  {
    var plan := Plan(progress, totalPages, perRun, fetchOk);
    forall i | 0 <= i < |plan.attempted|
      ensures plan.start <= plan.attempted[i] < plan.end
    {
      PagesAt(plan.start, |plan.attempted|, i);
    }
  }

  /**
   * With a catalogue of at least one page and a watermark that is -1 or a
   * page of it, every page attempted is a page of the catalogue.
   */
  lemma AttemptsStayInCatalogue(progress: ProgressFile, totalPages: int, perRun: nat, fetchOk: int -> bool)
    requires totalPages >= 1 && -1 <= LoadLastPage(progress)
    ensures var plan := Plan(progress, totalPages, perRun, fetchOk);
      forall i :: 0 <= i < |plan.attempted| ==> 0 <= plan.attempted[i] < totalPages
  {
    WindowBounds(progress, totalPages, perRun, fetchOk);
  }

  /**
   * Halt on first failure: the pages downloaded are the window's first
   * pages, each succeeded, they are the attempted pages except at most one
   * more, and that one failed. Nothing after it is attempted.
   */
  lemma HaltsOnFirstFailure(progress: ProgressFile, totalPages: int, perRun: nat, fetchOk: int -> bool)
    ensures var plan := Plan(progress, totalPages, perRun, fetchOk);
      && plan.fetched == plan.attempted[..|plan.fetched|]
      && (forall i :: 0 <= i < |plan.fetched| ==> plan.fetched[i] == plan.start + i && fetchOk(plan.fetched[i]))
      && |plan.attempted| <= |plan.fetched| + 1
      && (|plan.attempted| == |plan.fetched| + 1 ==> !fetchOk(plan.attempted[|plan.fetched|]))
      && (|plan.attempted| == |plan.fetched| ==> plan.start + |plan.fetched| == plan.end)
  {
    var plan := Plan(progress, totalPages, perRun, fetchOk);
    var k := |plan.fetched|;
    forall i | 0 <= i < k
      ensures plan.fetched[i] == plan.start + i && fetchOk(plan.fetched[i])
    {
      PagesAt(plan.start, k, i);
    }
    if |plan.attempted| == k + 1 {
      PagesAt(plan.start, k + 1, k);
      assert plan.attempted == plan.fetched + [plan.start + k];
    }
  }

  /**
   * The watermark written back is the old one when nothing was downloaded
   * and the last downloaded page otherwise.
   */
  lemma WatermarkIsLastDownloaded(progress: ProgressFile, totalPages: int, perRun: nat, fetchOk: int -> bool)
    ensures var plan := Plan(progress, totalPages, perRun, fetchOk);
      && (plan.fetched == [] ==> plan.watermark == LoadLastPage(progress))
      && (plan.fetched != [] ==> plan.watermark == plan.fetched[|plan.fetched| - 1])
  {
    var plan := Plan(progress, totalPages, perRun, fetchOk);
    if plan.fetched != [] {
      PagesAt(plan.start, |plan.fetched|, |plan.fetched| - 1);
    }
  }

  /** From a watermark that is -1 or a page of the catalogue, the new watermark stays between the old one and the last page. */
  lemma WatermarkBounds(progress: ProgressFile, totalPages: int, perRun: nat, fetchOk: int -> bool)
    requires totalPages >= 1 && -1 <= LoadLastPage(progress) <= totalPages - 1
    ensures var w := Plan(progress, totalPages, perRun, fetchOk).watermark;
      LoadLastPage(progress) <= w <= totalPages - 1
  {
  }

  /**
   * Once the watermark has reached the last page, a run attempts only that
   * page again (when the cap allows any page) and the watermark does not move past it.
   */
  lemma UpToDateRefetchesLastPage(progress: ProgressFile, totalPages: int, perRun: nat, fetchOk: int -> bool)
    requires LoadLastPage(progress) + 1 >= totalPages
    ensures var plan := Plan(progress, totalPages, perRun, fetchOk);
      && plan.attempted == (if perRun == 0 then [] else [totalPages - 1])
      && plan.watermark == (if perRun >= 1 && fetchOk(totalPages - 1) then totalPages - 1 else LoadLastPage(progress))
  {
    var plan := Plan(progress, totalPages, perRun, fetchOk);
    if perRun >= 1 {
      assert plan.start == totalPages - 1 && plan.end == totalPages;
      assert Pages(totalPages - 1, 1) == [totalPages - 1];
    }
  }

  /** The next run loads the watermark this run wrote and resumes right after it, unless it is at the last page. */
  lemma NextRunResumes(progress: ProgressFile, totalPages: int, perRun: nat, fetchOk: int -> bool)
    ensures var w := Plan(progress, totalPages, perRun, fetchOk).watermark;
      && LoadLastPage(SavedProgress(w)) == w
      && (w + 1 < totalPages ==> Plan(SavedProgress(w), totalPages, perRun, fetchOk).start == w + 1)
  {
  }

  /** No progress file, five pages, three per run, every download succeeds: pages 0, 1, 2 and watermark 2. */
  lemma FreshStartExample()
    ensures var plan := Plan(Absent, 5, 3, _ => true);
      plan.attempted == [0, 1, 2] && plan.fetched == [0, 1, 2] && plan.watermark == 2
  {
    var ok: int -> bool := _ => true;
    LeadingSuccessesIs(ok, 0, 3, 3);
    assert Pages(0, 3) == [0, 1, 2];
  }

  /** Watermark 4 of five pages: page 4 alone is attempted again and the watermark stays 4. */
  lemma LastPageExample(fetchOk: int -> bool)
    ensures var plan := Plan(Parsed(Some(4)), 5, PagesPerRun, fetchOk);
      plan.attempted == [4] && plan.watermark == 4
  {
    UpToDateRefetchesLastPage(Parsed(Some(4)), 5, PagesPerRun, fetchOk);
  }
}
