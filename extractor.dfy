/** The extraction pass (`extract_data`): one walk over a directory listing that
    resolves five fields per `.html` file, counts what is missing, and keeps only
    complete records.

    The HTML parser is abstracted: a file is either unreadable (any error raised
    while opening or parsing it) or the results of the five first-match lookups
    the pass performs. `html.unescape` is a function the caller supplies. */
module Extractor {
  import opened Builtins

  /** The sentinel of a field that was not extracted. */
  const NA := "N/A"
  /** The origin prefixed to a product's relative link. */
  const Origin := "https://www.amazon.in"
  const HtmlSuffix := ".html"

  /** What the first-match lookups find in one parsed file. */
  datatype Soup = Soup(
    /** text of the first `<h2>`, before stripping */
    h2Text: Option<string>,
    /** `data-csa-c-price-to-pay` of the first `<div>` carrying that attribute */
    pricePay: Option<string>,
    /** text of the first `div.a-row.a-size-small`, before stripping */
    ratingText: Option<string>,
    /** the first `a.a-link-normal.s-no-outline`, if any, with its `href` (or `None`) */
    link: Option<Option<string>>,
    /** the first `img.s-image`, if any, with its `src` (or `None`) */
    image: Option<Option<string>>)

  /** The outcome of opening and parsing one listed file. */
  datatype Markup = Unreadable | Parsed(soup: Soup)

  /** One entry of the directory listing, in listing order. */
  datatype DirEntry = DirEntry(name: string, markup: Markup)

  /** Which fields the caller asks for (`is_name`, `is_price`, ...). */
  datatype Flags = Flags(name: bool, price: bool, link: bool, rating: bool, img: bool)

  /** The five resolved values of one file. The image is whatever `img.get("src")`
      gave, so it may be Python's `None`, which is not the sentinel. */
  datatype Fields = Fields(name: string, price: string, rating: string, url: string, image: Option<string>)

  /** A row of the result table. */
  datatype Product = Product(
    productName: string, price: string, rating: string,
    productUrl: string, imageUrl: Option<string>, sourceFile: string)

  /** The statistics dictionary, one field per key. */
  datatype Stats = Stats(
    missingNames: nat, missingPrices: nat, missingRatings: nat, missingLinks: nat,
    missingImages: nat, errors: nat, completeRecords: nat, totalFiles: nat)
  {
    function Get(c: Counter): nat {
      match c
      case MissingNames => missingNames
      case MissingPrices => missingPrices
      case MissingRatings => missingRatings
      case MissingLinks => missingLinks
      case MissingImages => missingImages
      case Errors => errors
      case CompleteRecords => completeRecords
      case TotalFiles => totalFiles
    }
  }

  /** The keys of the statistics dictionary. */
  datatype Counter =
    MissingNames | MissingPrices | MissingRatings | MissingLinks | MissingImages
    | Errors | CompleteRecords | TotalFiles

  predicate IsMissingCounter(c: Counter) {
    c.MissingNames? || c.MissingPrices? || c.MissingRatings? || c.MissingLinks? || c.MissingImages?
  }

  /** A record is kept only when no field holds the sentinel. */
  predicate IsComplete(f: Fields) {
    f.name != NA && f.price != NA && f.rating != NA && f.url != NA && f.image != Some(NA)
  }

  /** The five fields of a file, or `None` when processing it raises: the file could
      not be read or parsed, or the link anchor has no `href`, so that
      `html.unescape(None)` fails. */
  function Resolve(m: Markup, flags: Flags, unescape: string -> string): (r: Option<Fields>)
    ensures r == None <==> m.Unreadable? || (flags.link && m.soup.link == Some(None))
    ensures r.Some? && !flags.name ==> r.value.name == NA
    ensures r.Some? && !flags.price ==> r.value.price == NA
    ensures r.Some? && !flags.rating ==> r.value.rating == NA
    ensures r.Some? && !flags.link ==> r.value.url == NA
    ensures r.Some? && !flags.img ==> r.value.image == Some(NA)
    ensures r.Some? && flags.link && m.soup.link.Some? ==> r.value.url == Origin + unescape(m.soup.link.value.value)
    ensures r.Some? && m.soup.link.None? ==> r.value.url == NA
    ensures r.Some? && flags.img && m.soup.image == Some(None) ==> r.value.image == None
    ensures r.Some? && flags.name ==>
              r.value.name == if m.soup.h2Text.Some? then Strip(m.soup.h2Text.value) else NA
    ensures r.Some? && flags.price ==>
              r.value.price == if m.soup.pricePay.Some? then m.soup.pricePay.value else NA
    ensures r.Some? && flags.rating ==>
              r.value.rating == if m.soup.ratingText.Some? then Strip(m.soup.ratingText.value) else NA
    ensures r.Some? && flags.img ==>
              r.value.image == if m.soup.image.Some? then m.soup.image.value else Some(NA)
  {
    match m
    case Unreadable => None
    case Parsed(s) =>
      if flags.link && s.link == Some(None) then None
      else Some(Fields(
        if flags.name && s.h2Text.Some? then Strip(s.h2Text.value) else NA,
        if flags.price && s.pricePay.Some? then s.pricePay.value else NA,
        if flags.rating && s.ratingText.Some? then Strip(s.ratingText.value) else NA,
        if flags.link && s.link.Some? then Origin + unescape(s.link.value.value) else NA,
        if flags.img && s.image.Some? then s.image.value else Some(NA)))
  }

  /** Processes one opened file statement by statement, as the body of the `try`
      does; `None` stands for the exception. */
  method ParseFile(m: Markup, flags: Flags, unescape: string -> string) returns (r: Option<Fields>)
    ensures r == Resolve(m, flags, unescape)
  {
    if m.Unreadable? {
      return None;
    }
    var soup := m.soup;
    var name, price, rating, fullUrl := NA, NA, NA, NA;
    var imgLink: Option<string> := Some(NA);
    if flags.name {
      name := if soup.h2Text.Some? then Strip(soup.h2Text.value) else NA;
    }
    if flags.price {
      price := if soup.pricePay.Some? then soup.pricePay.value else NA;
    }
    if flags.rating {
      rating := if soup.ratingText.Some? then Strip(soup.ratingText.value) else NA;
    }
    if flags.link {
      if soup.link.Some? {
        var href := soup.link.value;
        if href.None? {
          return None;
        }
        fullUrl := Origin + unescape(href.value);
      }
    }
    if flags.img {
      imgLink := if soup.image.Some? then soup.image.value else Some(NA);
    }
    r := Some(Fields(name, price, rating, fullUrl, imgLink));
  }

  /** How the pass treats one listing entry. */
  datatype Visit = Ignored | Failed | Resolved(fields: Fields)

  function VisitOf(e: DirEntry, flags: Flags, unescape: string -> string): Visit {
    if !EndsWith(e.name, HtmlSuffix) then Ignored
    else match Resolve(e.markup, flags, unescape)
      case None => Failed
      case Some(f) => Resolved(f)
  }

  /** Whether visiting an entry adds one to counter `c`. */
  predicate Bumps(c: Counter, v: Visit) {
    match c
    case TotalFiles => !v.Ignored?
    case Errors => v.Failed?
    case CompleteRecords => v.Resolved? && IsComplete(v.fields)
    case MissingNames => v.Resolved? && v.fields.name == NA
    case MissingPrices => v.Resolved? && v.fields.price == NA
    case MissingRatings => v.Resolved? && v.fields.rating == NA
    case MissingLinks => v.Resolved? && v.fields.url == NA
    case MissingImages => v.Resolved? && v.fields.image == Some(NA)
  }

  /** The number of entries of `listing` that bump counter `c`. */
  function CountOf(c: Counter, listing: seq<DirEntry>, flags: Flags, unescape: string -> string): nat
  {
    if listing == [] then 0
    else
      CountOf(c, listing[..|listing| - 1], flags, unescape)
      + Bump(c, VisitOf(listing[|listing| - 1], flags, unescape))
  }

  function Bump(c: Counter, v: Visit): nat {
    if Bumps(c, v) then 1 else 0
  }

  /** The statistics the pass should report for `listing`: each key counts its entries. */
  function Tally(listing: seq<DirEntry>, flags: Flags, unescape: string -> string): Stats {
    Stats(
      CountOf(MissingNames, listing, flags, unescape),
      CountOf(MissingPrices, listing, flags, unescape),
      CountOf(MissingRatings, listing, flags, unescape),
      CountOf(MissingLinks, listing, flags, unescape),
      CountOf(MissingImages, listing, flags, unescape),
      CountOf(Errors, listing, flags, unescape),
      CountOf(CompleteRecords, listing, flags, unescape),
      CountOf(TotalFiles, listing, flags, unescape))
  }

  /** The statistics after one more entry: an ignored entry changes nothing, a failed
      one counts as a file and an error, a resolved one as a file plus each of its
      missing fields and, when complete, a complete record. */
  function Step(stats: Stats, v: Visit): Stats {
    match v
    case Ignored => stats
    case Failed => stats.(errors := stats.errors + 1, totalFiles := stats.totalFiles + 1)
    case Resolved(f) =>
      Stats(
        stats.missingNames + (if f.name == NA then 1 else 0),
        stats.missingPrices + (if f.price == NA then 1 else 0),
        stats.missingRatings + (if f.rating == NA then 1 else 0),
        stats.missingLinks + (if f.url == NA then 1 else 0),
        stats.missingImages + (if f.image == Some(NA) then 1 else 0),
        stats.errors,
        stats.completeRecords + (if IsComplete(f) then 1 else 0),
        stats.totalFiles + 1)
  }

  /** The row one entry contributes: none unless it is a complete `.html` file. */
  function RecordOf(e: DirEntry, flags: Flags, unescape: string -> string): seq<Product> {
    match VisitOf(e, flags, unescape)
    case Resolved(f) =>
      if IsComplete(f) then [Product(f.name, f.price, f.rating, f.url, f.image, e.name)] else []
    case _ => []
  }

  /** The rows the pass should return for `listing`, in listing order. */
  function Records(listing: seq<DirEntry>, flags: Flags, unescape: string -> string): seq<Product> {
    if listing == [] then []
    else Records(listing[..|listing| - 1], flags, unescape) + RecordOf(listing[|listing| - 1], flags, unescape)
  }

  /** The "track missing data" step: one increment per field holding the sentinel. */
  method TrackMissing(stats: Stats, f: Fields) returns (stats': Stats)
    ensures var v := Resolved(f);
            && stats'.missingNames == stats.missingNames + Bump(MissingNames, v)
            && stats'.missingPrices == stats.missingPrices + Bump(MissingPrices, v)
            && stats'.missingRatings == stats.missingRatings + Bump(MissingRatings, v)
            && stats'.missingLinks == stats.missingLinks + Bump(MissingLinks, v)
            && stats'.missingImages == stats.missingImages + Bump(MissingImages, v)
    ensures stats'.errors == stats.errors && stats'.completeRecords == stats.completeRecords
    ensures stats'.totalFiles == stats.totalFiles
  {
    stats' := stats;
    if f.name == NA {
      stats' := stats'.(missingNames := stats'.missingNames + 1);
    }
    if f.price == NA {
      stats' := stats'.(missingPrices := stats'.missingPrices + 1);
    }
    if f.rating == NA {
      stats' := stats'.(missingRatings := stats'.missingRatings + 1);
    }
    if f.url == NA {
      stats' := stats'.(missingLinks := stats'.missingLinks + 1);
    }
    if f.image == Some(NA) {
      stats' := stats'.(missingImages := stats'.missingImages + 1);
    }
  }

  /** One iteration of the loop: the counter updates and the append for one
      listing entry, as the source performs them in place. */
  method VisitEntry(file: DirEntry, flags: Flags, unescape: string -> string, stats: Stats, products: seq<Product>)
    returns (stats': Stats, products': seq<Product>)
    ensures products' == products + RecordOf(file, flags, unescape)
    ensures stats' == Step(stats, VisitOf(file, flags, unescape))
  {
    stats', products' := stats, products;
    if !EndsWith(file.name, HtmlSuffix) {
      assert VisitOf(file, flags, unescape) == Ignored;
      return;
    }
    stats' := stats'.(totalFiles := stats'.totalFiles + 1);
    var parsed := ParseFile(file.markup, flags, unescape);
    if parsed.None? {
      assert VisitOf(file, flags, unescape) == Failed;
      stats' := stats'.(errors := stats'.errors + 1);
      return;
    }
    var f := parsed.value;
    assert VisitOf(file, flags, unescape) == Resolved(f);
    stats' := TrackMissing(stats', f);
    if IsComplete(f) {
      stats' := stats'.(completeRecords := stats'.completeRecords + 1);
      products' := products' + [Product(f.name, f.price, f.rating, f.url, f.image, file.name)];
    }
  }

  /** `extract_data`: the loop over the listing with its in-place counter updates. */
  method ExtractData(listing: seq<DirEntry>, flags: Flags, unescape: string -> string)
    returns (products: seq<Product>, stats: Stats)
    ensures products == Records(listing, flags, unescape)
    ensures stats == Tally(listing, flags, unescape)
    ensures stats.completeRecords == |products|
    ensures listing == [] ==> products == [] && stats == Stats(0, 0, 0, 0, 0, 0, 0, 0)
  {
    products := [];
    stats := Stats(0, 0, 0, 0, 0, 0, 0, 0);
    var i := 0;
    while i < |listing|
      invariant 0 <= i <= |listing|
      invariant products == Records(listing[..i], flags, unescape)
      invariant stats == Tally(listing[..i], flags, unescape)
    {
      stats, products := VisitEntry(listing[i], flags, unescape, stats, products);
      assert listing[..i + 1] == listing[..i] + [listing[i]];
      TallyStep(listing[..i], listing[i], flags, unescape);
      i := i + 1;
    }
    assert listing[..i] == listing;
    CompleteRecordsAreRecords(listing, flags, unescape);
  }

  // ---------------------------------------------------------------------------
  // Properties of the pass

  /** Appending one entry adds its own contribution to every counter and row list. */
  lemma AppendEntry(listing: seq<DirEntry>, e: DirEntry, flags: Flags, unescape: string -> string)
    ensures forall c :: (CountOf(c, listing + [e], flags, unescape)
      == CountOf(c, listing, flags, unescape) + (if Bumps(c, VisitOf(e, flags, unescape)) then 1 else 0))
    ensures Records(listing + [e], flags, unescape) == Records(listing, flags, unescape) + RecordOf(e, flags, unescape)
  {
    assert (listing + [e])[..|listing|] == listing;
  }

  /** The statistics of a listing grow entry by entry. */
  lemma TallyStep(listing: seq<DirEntry>, e: DirEntry, flags: Flags, unescape: string -> string)
    ensures Tally(listing + [e], flags, unescape) == Step(Tally(listing, flags, unescape), VisitOf(e, flags, unescape))
    ensures Records(listing + [e], flags, unescape) == Records(listing, flags, unescape) + RecordOf(e, flags, unescape)
  {
    AppendEntry(listing, e, flags, unescape);
    StepBumps(Tally(listing, flags, unescape), VisitOf(e, flags, unescape));
  }

  /** Each counter of `Step` goes up by exactly `Bump`. */
  lemma StepBumps(stats: Stats, v: Visit)
    ensures Step(stats, v) == Stats(
      stats.missingNames + Bump(MissingNames, v),
      stats.missingPrices + Bump(MissingPrices, v),
      stats.missingRatings + Bump(MissingRatings, v),
      stats.missingLinks + Bump(MissingLinks, v),
      stats.missingImages + Bump(MissingImages, v),
      stats.errors + Bump(Errors, v),
      stats.completeRecords + Bump(CompleteRecords, v),
      stats.totalFiles + Bump(TotalFiles, v))
  {
  }

  /** `complete_records` always equals the number of rows. */
  lemma {:induction false} CompleteRecordsAreRecords(listing: seq<DirEntry>, flags: Flags, unescape: string -> string)
    ensures CountOf(CompleteRecords, listing, flags, unescape) == |Records(listing, flags, unescape)|
  {
    if listing != [] {
      CompleteRecordsAreRecords(listing[..|listing| - 1], flags, unescape);
    }
  }

  /** A row is appended for an entry if and only if it is a `.html` file whose five
      values all differ from the sentinel, and the row carries those values and the
      file's name. */
  lemma RowAppendedIffComplete(listing: seq<DirEntry>, e: DirEntry, flags: Flags, unescape: string -> string)
    ensures var before := Records(listing, flags, unescape);
            var after := Records(listing + [e], flags, unescape);
            && (|after| == |before| + 1 <==>
                 EndsWith(e.name, HtmlSuffix)
                 && var r := Resolve(e.markup, flags, unescape); r.Some? && IsComplete(r.value))
            && (|after| == |before| + 1 ==>
                 var f := Resolve(e.markup, flags, unescape).value;
                 after[|before|] == Product(f.name, f.price, f.rating, f.url, f.image, e.name))
            && (|after| != |before| + 1 ==> after == before)
  {
    AppendEntry(listing, e, flags, unescape);
  }

  /** An entry whose name does not end in `.html` moves no counter and adds no row. */
  lemma NonHtmlEntryChangesNothing(listing: seq<DirEntry>, e: DirEntry, flags: Flags, unescape: string -> string)
    requires !EndsWith(e.name, HtmlSuffix)
    ensures Records(listing + [e], flags, unescape) == Records(listing, flags, unescape)
    ensures Tally(listing + [e], flags, unescape) == Tally(listing, flags, unescape)
  {
    AppendEntry(listing, e, flags, unescape);
  }

  /** A `.html` file whose processing raises moves only `total_files` and `errors`,
      each by one, and adds no row. */
  lemma FailedFileCountsOnlyAsError(listing: seq<DirEntry>, e: DirEntry, flags: Flags, unescape: string -> string)
    requires EndsWith(e.name, HtmlSuffix)
    requires Resolve(e.markup, flags, unescape) == None
    ensures Records(listing + [e], flags, unescape) == Records(listing, flags, unescape)
    ensures forall c :: (CountOf(c, listing + [e], flags, unescape)
      == CountOf(c, listing, flags, unescape) + (if c == TotalFiles || c == Errors then 1 else 0))
  {
    AppendEntry(listing, e, flags, unescape);
  }

  /** For a `.html` file processed without error, `missing_names` rises by one
      exactly when the name is not requested, the file has no `<h2>`, or the
      stripped `<h2>` text is itself `"N/A"`, whatever the other fields hold. */
  lemma MissingNameCounted(listing: seq<DirEntry>, e: DirEntry, flags: Flags, unescape: string -> string)
    requires EndsWith(e.name, HtmlSuffix) && e.markup.Parsed?
    requires !(flags.link && e.markup.soup.link == Some(None))
    ensures var h2 := e.markup.soup.h2Text;
            CountOf(MissingNames, listing + [e], flags, unescape)
            == CountOf(MissingNames, listing, flags, unescape)
               + (if !flags.name || h2.None? || Strip(h2.value) == NA then 1 else 0)
  {
    AppendEntry(listing, e, flags, unescape);
  }

  /** The `.html` entries of a listing, in order. */
  function HtmlOnly(listing: seq<DirEntry>): seq<DirEntry> {
    if listing == [] then []
    else
      var e := listing[|listing| - 1];
      HtmlOnly(listing[..|listing| - 1]) + (if EndsWith(e.name, HtmlSuffix) then [e] else [])
  }

  /** Each counter counts the same over a listing and over its `.html` entries alone. */
  lemma {:induction false} HtmlOnlyCounts(c: Counter, listing: seq<DirEntry>, flags: Flags, unescape: string -> string)
    ensures CountOf(c, listing, flags, unescape) == CountOf(c, HtmlOnly(listing), flags, unescape)
  {
    if listing != [] {
      var init, e := listing[..|listing| - 1], listing[|listing| - 1];
      HtmlOnlyCounts(c, init, flags, unescape);
      var v := VisitOf(e, flags, unescape);
      assert CountOf(c, listing, flags, unescape) == CountOf(c, init, flags, unescape) + Bump(c, v);
      if EndsWith(e.name, HtmlSuffix) {
        assert HtmlOnly(listing) == HtmlOnly(init) + [e];
        AppendEntry(HtmlOnly(init), e, flags, unescape);
      } else {
        assert HtmlOnly(listing) == HtmlOnly(init);
        assert v == Ignored && Bump(c, v) == 0;
      }
    }
  }

  /** The rows of a listing are those of its `.html` entries alone. */
  lemma {:induction false} HtmlOnlyRecords(listing: seq<DirEntry>, flags: Flags, unescape: string -> string)
    ensures Records(listing, flags, unescape) == Records(HtmlOnly(listing), flags, unescape)
  {
    if listing != [] {
      var init, e := listing[..|listing| - 1], listing[|listing| - 1];
      assert listing == init + [e];
      HtmlOnlyRecords(init, flags, unescape);
      if EndsWith(e.name, HtmlSuffix) {
        assert HtmlOnly(listing) == HtmlOnly(init) + [e];
        AppendEntry(HtmlOnly(init), e, flags, unescape);
      } else {
        assert HtmlOnly(listing) == HtmlOnly(init);
        assert VisitOf(e, flags, unescape) == Ignored;
      }
    }
  }

  /** `total_files` is the number of `.html` entries: each is counted exactly once. */
  lemma {:induction false} TotalFilesCountsHtmlEntries(listing: seq<DirEntry>, flags: Flags, unescape: string -> string)
    ensures CountOf(TotalFiles, listing, flags, unescape) == |HtmlOnly(listing)|
  {
    if listing != [] {
      TotalFilesCountsHtmlEntries(listing[..|listing| - 1], flags, unescape);
    }
  }

  /** Entries whose names do not end in `.html` leave no trace in the result. */
  lemma OnlyHtmlEntriesMatter(listing: seq<DirEntry>, flags: Flags, unescape: string -> string)
    ensures Records(listing, flags, unescape) == Records(HtmlOnly(listing), flags, unescape)
    ensures Tally(listing, flags, unescape) == Tally(HtmlOnly(listing), flags, unescape)
  {
    HtmlOnlyRecords(listing, flags, unescape);
    forall c: Counter
      ensures CountOf(c, listing, flags, unescape) == CountOf(c, HtmlOnly(listing), flags, unescape)
    {
      HtmlOnlyCounts(c, listing, flags, unescape);
    }
  }

  /** The number of `.html` files processed without error that miss at least one field. */
  function CountIncomplete(listing: seq<DirEntry>, flags: Flags, unescape: string -> string): nat {
    if listing == [] then 0
    else
      var v := VisitOf(listing[|listing| - 1], flags, unescape);
      CountIncomplete(listing[..|listing| - 1], flags, unescape)
      + (if v.Resolved? && !IsComplete(v.fields) then 1 else 0)
  }

  /** Every `.html` file is exactly one of: an error, a complete record, or a file
      with at least one missing field. */
  lemma {:induction false} FilesPartition(listing: seq<DirEntry>, flags: Flags, unescape: string -> string)
    ensures var s := Tally(listing, flags, unescape);
            s.completeRecords + CountIncomplete(listing, flags, unescape) == s.totalFiles - s.errors
  {
    if listing != [] {
      FilesPartition(listing[..|listing| - 1], flags, unescape);
    }
  }

  /** Each missing counter rises at most once per incomplete file, and every
      incomplete file raises at least one of them. */
  lemma {:induction false} MissingCountersBounded(listing: seq<DirEntry>, flags: Flags, unescape: string -> string)
    ensures var s := Tally(listing, flags, unescape);
            var n := CountIncomplete(listing, flags, unescape);
            && s.missingNames <= n && s.missingPrices <= n && s.missingRatings <= n
            && s.missingLinks <= n && s.missingImages <= n
            && n <= s.missingNames + s.missingPrices + s.missingRatings + s.missingLinks + s.missingImages
  {
    if listing != [] {
      MissingCountersBounded(listing[..|listing| - 1], flags, unescape);
    }
  }

  /** Every missing counter is at most `total_files - errors`. */
  lemma MissingAtMostProcessed(listing: seq<DirEntry>, flags: Flags, unescape: string -> string)
    ensures var s := Tally(listing, flags, unescape);
            forall c :: IsMissingCounter(c) ==> s.Get(c) <= s.totalFiles - s.errors
  {
    FilesPartition(listing, flags, unescape);
    MissingCountersBounded(listing, flags, unescape);
  }

  /** Whether the caller asked for the field behind missing counter `c`. */
  predicate Requested(c: Counter, flags: Flags)
    requires IsMissingCounter(c)
  {
    match c
    case MissingNames => flags.name
    case MissingPrices => flags.price
    case MissingRatings => flags.rating
    case MissingLinks => flags.link
    case MissingImages => flags.img
  }

  /** A field the caller did not ask for stays `"N/A"` in every file: no row is
      returned and its missing counter equals `total_files - errors`. */
  lemma {:induction false} UnrequestedFieldEmptiesTable(c: Counter, listing: seq<DirEntry>, flags: Flags, unescape: string -> string)
    requires IsMissingCounter(c) && !Requested(c, flags)
    ensures Records(listing, flags, unescape) == []
    ensures var s := Tally(listing, flags, unescape);
            s.Get(c) == s.totalFiles - s.errors
  {
    if listing != [] {
      UnrequestedFieldEmptiesTable(c, listing[..|listing| - 1], flags, unescape);
    }
  }

  /** Rows come out in listing order: the rows of a shorter prefix of the listing
      are a prefix of the rows of a longer one. */
  lemma {:induction false} RowsFollowListingOrder(listing: seq<DirEntry>, i: nat, j: nat, flags: Flags, unescape: string -> string)
    requires i <= j <= |listing|
    ensures Records(listing[..i], flags, unescape) <= Records(listing[..j], flags, unescape)
  {
    if i < j {
      RowsFollowListingOrder(listing, i, j - 1, flags, unescape);
      assert listing[..j][..j - 1] == listing[..j - 1];
    }
  }

  /** Every row comes from one complete `.html` entry of the listing and names it
      as its source file. */
  lemma {:induction false} RowProvenance(listing: seq<DirEntry>, k: nat, flags: Flags, unescape: string -> string)
    requires k < |Records(listing, flags, unescape)|
    ensures exists j :: 0 <= j < |listing| && RecordOf(listing[j], flags, unescape) == [Records(listing, flags, unescape)[k]]
    ensures exists j :: 0 <= j < |listing| && EndsWith(listing[j].name, HtmlSuffix)
                        && Records(listing, flags, unescape)[k].sourceFile == listing[j].name
  {
    var init, e := listing[..|listing| - 1], listing[|listing| - 1];
    var rows := Records(listing, flags, unescape);
    if k < |Records(init, flags, unescape)| {
      RowProvenance(init, k, flags, unescape);
      var j :| 0 <= j < |init| && RecordOf(init[j], flags, unescape) == [Records(init, flags, unescape)[k]];
      assert listing[j] == init[j];
    } else {
      var j := |listing| - 1;
      assert RecordOf(listing[j], flags, unescape) == [rows[k]];
    }
  }
}
