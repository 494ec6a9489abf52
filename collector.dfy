/** The collection pass (`collect_data`): visits search-result pages `1..max_pages`
    in order, strips each product container's inner HTML, and saves the ones longer
    than 2500 characters as `{keyword}_{n}.html` with `n` counting up from 1.

    The browser is abstracted as a function from a URL to what the page renders:
    either the page fails to load (navigation or element lookup raises) or it yields
    its containers in document order, each of which reads to a string or raises
    when its inner HTML is requested. The output directory is a map from paths to
    contents. */
module Collector {
  import opened Builtins

  /** A container is saved only when its stripped HTML is longer than this. */
  const MinLength := 2500
  const SearchPrefix := "https://www.amazon.in/s?k="
  /** The fixed query parameters that follow `page=` in every search URL. */
  const QueryTail := "&crid=3GJ7S0QWWNCP0" + "&qid=1765479616" + "&sprefix=mobile%2Caps%2C508"
                     + "&xpid=1n4ZVr0HNNA3c" + "&ref=sr_pg_2"

  /** The URL of result page `page` for `keyword`: the keyword's spaces become `+`,
      so the URL holds no space. */
  function PageUrl(keyword: string, page: nat): (r: string)
    ensures ' ' !in r
  {
    var q := ReplaceChar(keyword, ' ', '+');
    var d := Decimal(page);
    assert ' ' !in q by {
      forall k | 0 <= k < |q| ensures q[k] != ' ' { }
    }
    assert ' ' !in d by {
      forall k | 0 <= k < |d| ensures d[k] != ' ' { assert IsDigit(d[k]); }
    }
    SearchPrefixHasNoSpace();
    QueryTailHasNoSpace();
    assert ' ' !in "&page=";
    SearchPrefix + q + "&page=" + d + QueryTail
  }

  /** The path of the `n`-th saved file: a `.html` file directly inside `folder`,
      named after the keyword as given. */
  function FilePath(folder: string, keyword: string, n: nat): (r: string)
    ensures folder + "/" <= r
    ensures EndsWith(r, ".html")
  {
    var r := folder + "/" + keyword + "_" + Decimal(n) + ".html";
    assert r == (folder + "/") + (keyword + "_" + Decimal(n) + ".html");
    assert r == (folder + "/" + keyword + "_" + Decimal(n)) + ".html";
    r
  }

  /** Reading one thing from the browser: a value, or an exception. */
  datatype Attempt = Got(html: string) | Raised

  /** What loading one page gives. */
  datatype Rendering = Unreachable | Rendered(containers: seq<Attempt>)

  /** How `collect_data` ends: it returns the number of saved files (and prints
      the number of skipped containers), or an exception propagates. */
  datatype Outcome = Completed(saved: nat, skipped: nat) | Aborted

  /** The reads one page contributes to a run, in order. */
  function PageSteps(r: Rendering): seq<Attempt> {
    match r
    case Unreachable => [Raised]
    case Rendered(cs) => cs
  }

  /** Everything a run reads from the pages at `urls`, in visit order, ignoring
      that the first exception stops it. */
  function TraceOf(site: string -> Rendering, urls: seq<string>): seq<Attempt> {
    if urls == [] then []
    else TraceOf(site, urls[..|urls| - 1]) + PageSteps(site(urls[|urls| - 1]))
  }

  /** Everything a run over pages `1..pages` would read. */
  function Trace(keyword: string, site: string -> Rendering, pages: int): seq<Attempt> {
    TraceOf(site, PageUrls(keyword, if pages < 0 then 0 else pages))
  }

  /** The inner HTML strings read before the first exception. */
  function BeforeRaise(t: seq<Attempt>): seq<string> {
    if t == [] || t[0].Raised? then [] else [t[0].html] + BeforeRaise(t[1..])
  }

  /** The stripped contents that qualify for saving, in the order they were read. */
  function Kept(read: seq<string>): (r: seq<string>)
    ensures |r| <= |read|
    ensures forall k :: 0 <= k < |r| ==> |r[k]| > MinLength
  {
    if read == [] then []
    else
      var last := Strip(read[|read| - 1]);
      Kept(read[..|read| - 1]) + (if |last| > MinLength then [last] else [])
  }

  /** The number of containers whose stripped content is non-empty but too short. */
  function SkipCount(read: seq<string>): nat {
    if read == [] then 0
    else
      var last := Strip(read[|read| - 1]);
      SkipCount(read[..|read| - 1]) + (if last != "" && |last| <= MinLength then 1 else 0)
  }

  /** The number of containers whose stripped content is non-empty. */
  function NonEmptyCount(read: seq<string>): nat {
    if read == [] then 0
    else NonEmptyCount(read[..|read| - 1]) + (if Strip(read[|read| - 1]) != "" then 1 else 0)
  }

  /** The directory after writing `contents[n - 1]` to file `n`, for `n = 1, 2, ...` in turn. */
  function SaveAll(files: map<string, string>, folder: string, keyword: string, contents: seq<string>): map<string, string> {
    if contents == [] then files
    else
      SaveAll(files, folder, keyword, contents[..|contents| - 1])
        [FilePath(folder, keyword, |contents|) := contents[|contents| - 1]]
  }

  /** The URLs of pages `1..n`, in order. */
  function PageUrls(keyword: string, n: nat): (r: seq<string>)
    ensures |r| == n
  {
    if n == 0 then [] else PageUrls(keyword, n - 1) + [PageUrl(keyword, n)]
  }

  /** The output file system: directories and files with their contents. */
  class FileSystem {
    var dirs: set<string>
    var files: map<string, string>

    constructor (dirs: set<string>, files: map<string, string>)
      ensures this.dirs == dirs && this.files == files
    {
      this.dirs := dirs;
      this.files := files;
    }

    /** `os.path.exists`: the path names a directory or a file. */
    predicate Exists(path: string)
      reads this
    {
      path in dirs || path in files
    }

    /** `os.makedirs`. */
    method MakeDirs(path: string)
      modifies this
      ensures dirs == old(dirs) + {path} && files == old(files)
      ensures Exists(path)
    {
      dirs := dirs + {path};
    }

    /** Opening `path` for writing and writing `content`: an existing file is replaced. */
    method WriteFile(path: string, content: string)
      modifies this
      ensures files == old(files)[path := content] && dirs == old(dirs)
      ensures Exists(path)
    {
      files := files[path := content];
    }
  }

  /** A headless browser session. */
  class Browser {
    /** What each URL renders. */
    const site: string -> Rendering
    /** The URLs navigated to, in order. */
    ghost var visited: seq<string>
    ghost var closed: bool

    constructor (site: string -> Rendering)
      ensures this.site == site && visited == [] && !closed
    {
      this.site := site;
      visited := [];
      closed := false;
    }

    /** `driver.get(url)` followed by the container lookup. */
    method Get(url: string) returns (page: Rendering)
      requires !closed
      modifies this
      ensures page == site(url)
      ensures visited == old(visited) + [url] && !closed
    {
      page := site(url);
      visited := visited + [url];
    }

    /** `driver.quit()`. */
    method Quit()
      modifies this
      ensures closed && visited == old(visited)
    {
      closed := true;
    }
  }

  /** What the run has done so far, given the containers it has read: `file` is
      one past the number saved, `skipped` counts the short ones, and the directory
      holds the saved ones under their numbers. */
  ghost predicate Accounts(read: seq<string>, file: int, skipped: int, files: map<string, string>,
                           files0: map<string, string>, folder: string, keyword: string)
  {
    && file == |Kept(read)| + 1
    && skipped == SkipCount(read)
    && files == SaveAll(files0, folder, keyword, Kept(read))
  }

  /** The body of the container loop for a container that could be read: strip it,
      then save it under the next number, skip it, or ignore it when empty. */
  method SaveContainer(inner: string, dataFolder: string, keyword: string, fs: FileSystem, file: int, skippedCount: int,
                       ghost read: seq<string>, ghost files0: map<string, string>)
    returns (file': int, skippedCount': int)
    requires Accounts(read, file, skippedCount, fs.files, files0, dataFolder, keyword)
    modifies fs
    ensures Accounts(read + [inner], file', skippedCount', fs.files, files0, dataFolder, keyword)
    ensures fs.dirs == old(fs.dirs)
  {
    file', skippedCount' := file, skippedCount;
    var htmlContent := Strip(inner);
    ReadOneMore(read, inner);
    SaveOneMore(files0, dataFolder, keyword, Kept(read), htmlContent);
    if htmlContent != "" {
      if |htmlContent| > MinLength {
        fs.WriteFile(FilePath(dataFolder, keyword, file), htmlContent);
        file' := file' + 1;
        assert Kept(read + [inner]) == Kept(read) + [htmlContent];
        assert file' == |Kept(read + [inner])| + 1;
        assert SkipCount(read + [inner]) == SkipCount(read);
        assert fs.files == SaveAll(files0, dataFolder, keyword, Kept(read + [inner]));
      } else {
        skippedCount' := skippedCount' + 1;
        assert Kept(read + [inner]) == Kept(read);
      }
    } else {
      assert Kept(read + [inner]) == Kept(read);
    }
  }

  /** Reading one more container extends the saved list and the skip count by its own share. */
  lemma ReadOneMore(read: seq<string>, inner: string)
    ensures var c := Strip(inner);
            && Kept(read + [inner]) == Kept(read) + (if |c| > MinLength then [c] else [])
            && SkipCount(read + [inner]) == SkipCount(read) + (if c != "" && |c| <= MinLength then 1 else 0)
  {
    assert (read + [inner])[..|read|] == read;
  }

  /** Saving one more content writes it under the next number. */
  lemma SaveOneMore(files: map<string, string>, folder: string, keyword: string, contents: seq<string>, x: string)
    ensures SaveAll(files, folder, keyword, contents + [x])
            == SaveAll(files, folder, keyword, contents)[FilePath(folder, keyword, |contents| + 1) := x]
  {
    assert (contents + [x])[..|contents|] == contents;
  }

  /** Reading container `j` of a page, after the ones before it were read without
      an exception: either one more string is read, or the reads of the page (and so
      of the run) stop there. */
  lemma NextRead(done: seq<Attempt>, cs: seq<Attempt>, j: int)
    requires Raised !in done && 0 <= j < |cs| && Raised !in cs[..j]
    ensures cs[j].Got? ==>
              && Raised !in cs[..j + 1]
              && BeforeRaise(done + cs[..j + 1]) == BeforeRaise(done + cs[..j]) + [cs[j].html]
    ensures cs[j].Raised? ==> Raised in cs && BeforeRaise(done + cs) == BeforeRaise(done + cs[..j])
  {
    assert cs[..j + 1] == cs[..j] + [cs[j]];
    if cs[j].Got? {
      assert done + cs[..j + 1] == (done + cs[..j]) + [cs[j]];
      BeforeRaiseAppend(done + cs[..j], [cs[j]]);
    } else {
      assert cs[j] in cs;
      assert done + cs == (done + cs[..j]) + cs[j..];
      BeforeRaiseAppend(done + cs[..j], cs[j..]);
      assert cs[j..][0] == Raised;
    }
  }

  /** The container loop of one page: each container is read in order and saved,
      skipped or ignored, until one raises. */
  method SavePage(containers: seq<Attempt>, dataFolder: string, keyword: string, fs: FileSystem,
                  file: int, skippedCount: int,
                  ghost done: seq<Attempt>, ghost read: seq<string>, ghost files0: map<string, string>)
    returns (raised: bool, file': int, skippedCount': int, ghost read': seq<string>)
    requires Raised !in done && read == BeforeRaise(done)
    requires Accounts(read, file, skippedCount, fs.files, files0, dataFolder, keyword)
    modifies fs
    ensures raised == (Raised in containers)
    ensures read' == BeforeRaise(done + containers)
    ensures Accounts(read', file', skippedCount', fs.files, files0, dataFolder, keyword)
    ensures fs.dirs == old(fs.dirs)
  {
    raised, file', skippedCount', read' := false, file, skippedCount, read;
    var j := 0;
    assert done + containers[..0] == done;
    while j < |containers| && !raised
      invariant 0 <= j <= |containers|
      invariant fs.dirs == old(fs.dirs)
      invariant Accounts(read', file', skippedCount', fs.files, files0, dataFolder, keyword)
      invariant !raised ==> Raised !in containers[..j] && read' == BeforeRaise(done + containers[..j])
      invariant raised ==> Raised in containers && read' == BeforeRaise(done + containers)
      decreases |containers| - j, if raised then 0 else 1
    {
      NextRead(done, containers, j);
      match containers[j]
      case Raised =>
        raised := true;
      case Got(inner) =>
        file', skippedCount' := SaveContainer(inner, dataFolder, keyword, fs, file', skippedCount', read', files0);
        read' := read' + [inner];
        j := j + 1;
    }
    if !raised {
      assert containers[..j] == containers;
    }
  }

  /** The pages at `urls` were read to the end without raising. */
  ghost predicate Clean(site: string -> Rendering, urls: seq<string>, read: seq<string>) {
    && Raised !in TraceOf(site, urls)
    && read == BeforeRaise(TraceOf(site, urls))
  }

  /** The pages at `urls` were visited and the last of them is the first that raised. */
  ghost predicate Halted(site: string -> Rendering, urls: seq<string>, read: seq<string>) {
    && urls != []
    && Raised !in TraceOf(site, urls[..|urls| - 1])
    && Raised in TraceOf(site, urls)
    && read == BeforeRaise(TraceOf(site, urls))
  }

  /** The run so far: pages `1..n` read in full, and, when `aborted`, page `n + 1`
      visited and raised. */
  ghost predicate Progress(keyword: string, site: string -> Rendering, n: nat, aborted: bool,
                           read: seq<string>, visited: seq<string>) {
    if aborted then visited == PageUrls(keyword, n + 1) && Halted(site, visited, read)
    else visited == PageUrls(keyword, n) && Clean(site, visited, read)
  }

  /** One turn of the page loop: load the page at `url`, then save its containers
      until one raises. */
  method VisitPage(url: string, dataFolder: string, keyword: string, fs: FileSystem, driver: Browser,
                   file: int, skippedCount: int, ghost read: seq<string>, ghost files0: map<string, string>)
    returns (aborted: bool, file': int, skippedCount': int, ghost read': seq<string>)
    requires !driver.closed && Clean(driver.site, driver.visited, read)
    requires Accounts(read, file, skippedCount, fs.files, files0, dataFolder, keyword)
    modifies fs, driver
    ensures !driver.closed && driver.visited == old(driver.visited) + [url] && fs.dirs == old(fs.dirs)
    ensures Accounts(read', file', skippedCount', fs.files, files0, dataFolder, keyword)
    ensures aborted ==> Halted(driver.site, driver.visited, read')
    ensures !aborted ==> Clean(driver.site, driver.visited, read')
  {
    ghost var visited := driver.visited;
    ghost var done := TraceOf(driver.site, visited);
    var page := driver.Get(url);
    if page.Unreachable? {
      aborted, file', skippedCount', read' := true, file, skippedCount, read;
      BeforeRaiseAppend(done, [Raised]);
    } else {
      aborted, file', skippedCount', read' :=
        SavePage(page.containers, dataFolder, keyword, fs, file, skippedCount, done, read, files0);
    }
    AfterPage(driver.site, visited, url, read, aborted, read');
  }

  /** `collect_data`: the page loop inside `try`, with the browser closed in
      `finally` whether the loop ends or raises. */
  method CollectData(keyword: string, maxPages: int, dataFolder: string, site: string -> Rendering, fs: FileSystem)
    returns (outcome: Outcome, driver: Browser)
    modifies fs
    ensures fresh(driver) && driver.site == site && driver.closed
    ensures fs.dirs == if old(fs.Exists(dataFolder)) then old(fs.dirs) else old(fs.dirs) + {dataFolder}
    ensures var t := Trace(keyword, site, maxPages);
            var read := BeforeRaise(t);
            && fs.files == SaveAll(old(fs.files), dataFolder, keyword, Kept(read))
            && outcome == if Raised in t then Aborted else Completed(|Kept(read)|, SkipCount(read))
    ensures outcome.Completed? ==> driver.visited == PageUrls(keyword, if maxPages < 0 then 0 else maxPages)
    ensures outcome.Aborted? ==>
              exists p :: 1 <= p <= maxPages && Raised !in Trace(keyword, site, p - 1)
                          && Raised in Trace(keyword, site, p) && driver.visited == PageUrls(keyword, p)
  {
    if !fs.Exists(dataFolder) {
      fs.MakeDirs(dataFolder);
    }
    driver := new Browser(site);
    var file := 1;
    var skippedCount := 0;
    ghost var read: seq<string> := [];
    var aborted := false;
    var n: nat := 0;
    while n < maxPages && !aborted
      invariant !aborted ==> n <= (if maxPages < 0 then 0 else maxPages)
      invariant aborted ==> n < maxPages
      invariant fresh(driver) && driver.site == site && !driver.closed
      invariant fs.dirs == if old(fs.Exists(dataFolder)) then old(fs.dirs) else old(fs.dirs) + {dataFolder}
      invariant Accounts(read, file, skippedCount, fs.files, old(fs.files), dataFolder, keyword)
      invariant Progress(keyword, site, n, aborted, read, driver.visited)
      decreases maxPages - n, if aborted then 0 else 1
    {
      var url := PageUrl(keyword, n + 1);
      aborted, file, skippedCount, read :=
        VisitPage(url, dataFolder, keyword, fs, driver, file, skippedCount, read, old(fs.files));
      NextPageUrls(keyword, n);
      if !aborted {
        n := n + 1;
      }
    }
    if aborted {
      StoppedRun(keyword, site, n, maxPages, read);
    } else {
      FinishedRun(keyword, site, n, maxPages, read);
    }
    driver.Quit();
    outcome := if aborted then Aborted else Completed(file - 1, skippedCount);
  }

  /** The URL of page `n + 1` follows those of pages `1..n`. */
  lemma NextPageUrls(keyword: string, n: nat)
    ensures PageUrls(keyword, n + 1) == PageUrls(keyword, n) + [PageUrl(keyword, n + 1)]
  {
  }

  /** Visiting one more page after a clean run either halts the run there or
      leaves it clean. */
  lemma AfterPage(site: string -> Rendering, urls: seq<string>, url: string, read: seq<string>,
                  raised: bool, read': seq<string>)
    requires Clean(site, urls, read)
    requires raised == (Raised in PageSteps(site(url)))
    requires read' == BeforeRaise(TraceOf(site, urls) + PageSteps(site(url)))
    ensures raised ==> Halted(site, urls + [url], read')
    ensures !raised ==> Clean(site, urls + [url], read')
  {
    var u := urls + [url];
    assert u[..|u| - 1] == urls;
  }

  /** A run that halted at page `n + 1` reads and saves the same whatever the
      page limit beyond it. */
  lemma StoppedRun(keyword: string, site: string -> Rendering, n: nat, maxPages: int, read: seq<string>)
    requires n < maxPages && Halted(site, PageUrls(keyword, n + 1), read)
    ensures Raised !in Trace(keyword, site, n) && Raised in Trace(keyword, site, n + 1)
    ensures Raised in Trace(keyword, site, maxPages)
    ensures read == BeforeRaise(Trace(keyword, site, maxPages))
  {
    PageUrlsInit(keyword, n);
    PageUrlsPrefix(keyword, n + 1, maxPages);
    HaltedExtends(site, PageUrls(keyword, n + 1), PageUrls(keyword, maxPages), read);
  }

  /** Dropping the last page URL gives the URLs of one page fewer. */
  lemma PageUrlsInit(keyword: string, n: nat)
    ensures var u := PageUrls(keyword, n + 1); u[..|u| - 1] == PageUrls(keyword, n)
  {
    var u := PageUrls(keyword, n + 1);
    assert u == PageUrls(keyword, n) + [PageUrl(keyword, n + 1)];
  }

  /** Once a page has raised, visiting further pages changes nothing that was read. */
  lemma HaltedExtends(site: string -> Rendering, u: seq<string>, v: seq<string>, read: seq<string>)
    requires u <= v && Halted(site, u, read)
    ensures Raised in TraceOf(site, v) && read == BeforeRaise(TraceOf(site, v))
  {
    TraceOfPrefix(site, u, v);
    var t, prefix := TraceOf(site, v), TraceOf(site, u);
    var rest := t[|prefix|..];
    assert t == prefix + rest;
    BeforeRaiseAppend(prefix, rest);
    var j :| 0 <= j < |prefix| && prefix[j] == Raised;
    assert t[j] == Raised;
  }

  /** A run that read every page up to the limit without raising. */
  lemma FinishedRun(keyword: string, site: string -> Rendering, n: nat, maxPages: int, read: seq<string>)
    requires n == (if maxPages < 0 then 0 else maxPages) && Clean(site, PageUrls(keyword, n), read)
    ensures Raised !in Trace(keyword, site, maxPages)
    ensures read == BeforeRaise(Trace(keyword, site, maxPages))
  {
  }

  // ---------------------------------------------------------------------------
  // Properties of the pass

  /** Reads after the first exception are never reached. */
  lemma {:induction false} BeforeRaiseAppend(a: seq<Attempt>, b: seq<Attempt>)
    ensures BeforeRaise(a + b) == if Raised in a then BeforeRaise(a) else BeforeRaise(a) + BeforeRaise(b)
  {
    if a == [] {
      assert a + b == b;
    } else if a[0].Raised? {
      assert (a + b)[0] == a[0];
      assert Raised in a;
    } else {
      var h, rest := a[0].html, a[1..];
      assert (a + b)[0] == a[0];
      assert (a + b)[1..] == rest + b;
      assert a == [a[0]] + rest;
      assert (Raised in a) == (Raised in rest);
      BeforeRaiseAppend(rest, b);
      assert BeforeRaise(a + b) == [h] + BeforeRaise(rest + b);
      assert BeforeRaise(a) == [h] + BeforeRaise(rest);
      if Raised !in rest {
        assert [h] + (BeforeRaise(rest) + BeforeRaise(b)) == ([h] + BeforeRaise(rest)) + BeforeRaise(b);
      }
    }
  }

  /** The URLs of the first `p` pages are the first ones visited in a longer run. */
  lemma {:induction false} PageUrlsPrefix(keyword: string, p: nat, n: nat)
    requires p <= n
    ensures PageUrls(keyword, p) <= PageUrls(keyword, n)
  {
    if p < n {
      PageUrlsPrefix(keyword, p, n - 1);
    }
  }

  /** Visiting more pages only appends to what is read. */
  lemma {:induction false} TraceOfPrefix(site: string -> Rendering, u: seq<string>, v: seq<string>)
    requires u <= v
    ensures TraceOf(site, u) <= TraceOf(site, v)
    decreases |v|
  {
    if |u| < |v| {
      var init := v[..|v| - 1];
      assert u <= init;
      TraceOfPrefix(site, u, init);
    } else {
      assert u == v;
    }
  }

  /** Every container with non-empty stripped content is either saved or counted as
      skipped, never both; an all-whitespace container is neither. */
  lemma {:induction false} SavedOrSkipped(read: seq<string>)
    ensures |Kept(read)| + SkipCount(read) == NonEmptyCount(read)
  {
    if read != [] {
      SavedOrSkipped(read[..|read| - 1]);
    }
  }

  /** Decimal renderings followed by the same text differ when the numbers do. */
  lemma DecimalThenSuffixInjective(m: nat, n: nat, suffix: string)
    requires Decimal(m) + suffix == Decimal(n) + suffix
    ensures m == n
  {
    var a, b := Decimal(m) + suffix, Decimal(n) + suffix;
    assert Decimal(m) == a[..|a| - |suffix|];
    assert Decimal(n) == b[..|b| - |suffix|];
    DecimalInjective(m, n);
  }

  /** Texts that differ only in a decimal number in the same place differ when the numbers do. */
  lemma FramedDecimalInjective(head: string, tail: string, m: nat, n: nat)
    requires head + Decimal(m) + tail == head + Decimal(n) + tail
    ensures m == n
  {
    var a, b := head + Decimal(m) + tail, head + Decimal(n) + tail;
    assert a == head + (Decimal(m) + tail);
    assert b == head + (Decimal(n) + tail);
    assert Decimal(m) + tail == a[|head|..];
    assert Decimal(n) + tail == b[|head|..];
    DecimalThenSuffixInjective(m, n, tail);
  }

  /** Different counters give different file names. */
  lemma FilePathInjective(folder: string, keyword: string, m: nat, n: nat)
    requires FilePath(folder, keyword, m) == FilePath(folder, keyword, n)
    ensures m == n
  {
    FramedDecimalInjective(folder + "/" + keyword + "_", ".html", m, n);
  }

  /** Different pages have different URLs, so no page is requested twice. */
  lemma PageUrlInjective(keyword: string, m: nat, n: nat)
    requires PageUrl(keyword, m) == PageUrl(keyword, n)
    ensures m == n
  {
    FramedDecimalInjective(SearchPrefix + ReplaceChar(keyword, ' ', '+') + "&page=", QueryTail, m, n);
  }

  /** The fixed start of a search URL contains no space. */
  lemma SearchPrefixHasNoSpace()
    ensures ' ' !in SearchPrefix
  {
    forall k | 0 <= k < |SearchPrefix| ensures SearchPrefix[k] != ' ' { }
  }

  /** The fixed query parameters contain no space. */
  lemma QueryTailHasNoSpace()
    ensures ' ' !in QueryTail
  {
    var crid, qid, sprefix := "&crid=3GJ7S0QWWNCP0", "&qid=1765479616", "&sprefix=mobile%2Caps%2C508";
    var xpid, ref := "&xpid=1n4ZVr0HNNA3c", "&ref=sr_pg_2";
    forall k | 0 <= k < |crid| ensures crid[k] != ' ' { }
    forall k | 0 <= k < |qid| ensures qid[k] != ' ' { }
    forall k | 0 <= k < |sprefix| ensures sprefix[k] != ' ' { }
    forall k | 0 <= k < |xpid| ensures xpid[k] != ' ' { }
    forall k | 0 <= k < |ref| ensures ref[k] != ' ' { }
    assert QueryTail == crid + qid + sprefix + xpid + ref;
  }

  /** Saved files are numbered 1, 2, ... with no gap: file `n` holds the `n`-th
      saved content, and no other path changes. */
  lemma {:induction false} SavedFilesNumbered(files: map<string, string>, folder: string, keyword: string, contents: seq<string>)
    ensures var after := SaveAll(files, folder, keyword, contents);
            && (forall n :: 1 <= n <= |contents| ==>
                  FilePath(folder, keyword, n) in after && after[FilePath(folder, keyword, n)] == contents[n - 1])
            && (forall p :: p in after <==> p in files || exists n :: 1 <= n <= |contents| && p == FilePath(folder, keyword, n))
            && (forall p :: p in files && (forall n :: 1 <= n <= |contents| ==> p != FilePath(folder, keyword, n)) ==>
                  after[p] == files[p])
  {
    if contents != [] {
      var init := contents[..|contents| - 1];
      SavedFilesNumbered(files, folder, keyword, init);
      forall n | 1 <= n < |contents|
        ensures FilePath(folder, keyword, n) != FilePath(folder, keyword, |contents|)
      {
        if FilePath(folder, keyword, n) == FilePath(folder, keyword, |contents|) {
          FilePathInjective(folder, keyword, n, |contents|);
        }
      }
    }
  }

  /** Saving a longer read prefix never loses what the shorter one saved. */
  lemma {:induction false} KeptPrefix(a: seq<string>, b: seq<string>)
    requires a <= b
    ensures Kept(a) <= Kept(b)
    decreases |b|
  {
    if |a| < |b| {
      var init := b[..|b| - 1];
      assert a <= init;
      KeptPrefix(a, init);
    } else {
      assert a == b;
    }
  }

  /** The containers read from the first `p` pages are read first in any run over more pages. */
  lemma ReadPrefix(keyword: string, site: string -> Rendering, p: int, n: int)
    requires p <= n
    ensures BeforeRaise(Trace(keyword, site, p)) <= BeforeRaise(Trace(keyword, site, n))
  {
    var a, b := if p < 0 then 0 else p, if n < 0 then 0 else n;
    PageUrlsPrefix(keyword, a, b);
    ReadsPrefix(site, PageUrls(keyword, a), PageUrls(keyword, b));
  }

  /** What is read from some pages is read first when more pages follow them. */
  lemma ReadsPrefix(site: string -> Rendering, u: seq<string>, v: seq<string>)
    requires u <= v
    ensures BeforeRaise(TraceOf(site, u)) <= BeforeRaise(TraceOf(site, v))
  {
    var tu, tv := TraceOf(site, u), TraceOf(site, v);
    TraceOfPrefix(site, u, v);
    assert tv == tu + tv[|tu|..];
    BeforeRaiseAppend(tu, tv[|tu|..]);
  }

  /** Files saved from the first `p` pages stay in place whatever later pages do,
      including when a later page raises. */
  lemma EarlierPagesSurvive(files: map<string, string>, folder: string, keyword: string,
                            site: string -> Rendering, p: int, n: int)
    requires p <= n
    ensures var early := Kept(BeforeRaise(Trace(keyword, site, p)));
            var after := SaveAll(files, folder, keyword, Kept(BeforeRaise(Trace(keyword, site, n))));
            forall k :: 1 <= k <= |early| ==>
              FilePath(folder, keyword, k) in after && after[FilePath(folder, keyword, k)] == early[k - 1]
  {
    var early := Kept(BeforeRaise(Trace(keyword, site, p)));
    var late := Kept(BeforeRaise(Trace(keyword, site, n)));
    ReadPrefix(keyword, site, p, n);
    KeptPrefix(BeforeRaise(Trace(keyword, site, p)), BeforeRaise(Trace(keyword, site, n)));
    SavedFilesNumbered(files, folder, keyword, late);
    forall k | 0 <= k < |early| ensures early[k] == late[k] { }
  }

}
