# Amazon scraper: collection and extraction passes

This project models the two passes of the amazon-scrapper repository and proves
properties of them.

- **Collection**, `collect_data` in `collector.py`, is module `Collector`.
  - It opens a browser and visits search-result pages `1..max_pages` in order.
  - On each page it strips every product container's inner HTML.
  - A container whose stripped HTML is longer than 2500 characters is saved as `{data_folder}/{keyword}_{n}.html`, with `n` counting up from 1.
  - A non-empty container that is too short is counted as skipped. An empty one is ignored.
  - The browser is closed in every case. The pass returns the number of files saved.
  - An exception from the browser ends the run and propagates, but files already written stay.
- **Extraction**, `extract_data` in `extractor.py`, is module `Extractor`.
  - It walks a directory listing. For every `.html` file it resolves five fields: name, price, rating, product URL and image URL.
  - A field that is not requested or not found keeps the sentinel `"N/A"`.
  - The pass counts the missing fields, the errors, the complete records and the files.
  - It returns one row per complete file, in listing order, together with the statistics.
- Module `Builtins` models the Python string operations both passes use: `str.strip`, `str.replace`, `str.endswith` and the decimal rendering of an integer.

The environment is modelled as follows.

- **Browser (collection).** The browser is a class whose `site` maps a URL to what the page renders.
  - A page either fails to load, or yields its containers in document order.
  - Each container either reads to a string or raises when its inner HTML is requested.
- **File system (collection).** The file system is a class holding a set of directories and a map from paths to contents.
- **Parser (extraction).** Each listed file is either unreadable, or the result of the five first-match lookups the pass makes.
- **`html.unescape` (extraction).** It is a function parameter.

An `img.s-image` without `src` yields Python's `None`, which differs from `"N/A"`, so such a record counts as complete (extractor.py:63-64 and 79-80). The model keeps `None`. A `max_pages` of zero or less visits no page, as `range(1, max_pages + 1)` is empty.

Each pass has a specification function over its inputs:

- `Extractor.Records` and `Extractor.Tally` for extraction;
- `Collector.Trace`, `Collector.BeforeRaise`, `Collector.Kept`, `Collector.SkipCount` and `Collector.SaveAll` for collection.

The imperative code is proved against these functions: its loops carry invariants tying the state to the function of the prefix processed so far. The lemmas then prove the properties the program relies on about the functions.

## Model

| member | source | states |
|---|---|---|
| Extractor.ExtractData | extractor.py:6-117 | The returned rows and statistics are exactly those the specification functions give for the whole listing. `complete_records` equals the number of rows. An empty folder gives no rows and all-zero statistics. |
| Extractor.VisitEntry | extractor.py:22-95 | One turn of the listing loop appends exactly the entry's own row, if any. It moves the statistics by exactly that entry's effect: none for a non-`.html` name; a file and an error for a failing file; otherwise a file, each missing field, and a complete record when nothing is missing. |
| Extractor.ParseFile | extractor.py:26-64 | Processing an opened file statement by statement gives the same fields, or the same failure, as the resolution function `Resolve`. |
| Extractor.Resolve | extractor.py:26-64 | Processing fails exactly when the file is unreadable, or a link is requested and its anchor has no `href`. An unrequested field is `"N/A"`. A requested name or rating is the stripped text of the first matching element, a requested price the attribute value, a requested image the tag's `src`; each is `"N/A"` when no element matches. A found link becomes the origin followed by the unescaped `href`; a missing anchor leaves `"N/A"`. An image tag without `src` gives `None`, which is not the sentinel. |
| Extractor.MissingNameCounted | extractor.py:39-68 | For a `.html` file processed without error, `missing_names` rises by exactly one when the name is not requested, there is no `<h2>`, or its stripped text is `"N/A"`, and by zero otherwise, whatever the other fields hold. |
| Extractor.TrackMissing | extractor.py:66-76 | Each missing-data counter rises by one exactly when its field equals `"N/A"`; the error, complete and file counters are untouched. |
| Extractor.TallyStep | extractor.py:21-95 | The statistics of a listing extended by one entry are the old statistics advanced by that entry's visit, and its rows are the old rows plus the entry's own. |
| Extractor.CompleteRecordsAreRecords | extractor.py:79-90 | `complete_records` always equals the number of returned rows. |
| Extractor.RowAppendedIffComplete | extractor.py:79-90 | A row is appended for an entry if and only if it is a `.html` file processed without error whose five values all differ from `"N/A"`. The row then carries those values and the file name. Otherwise the rows are unchanged. |
| Extractor.NonHtmlEntryChangesNothing | extractor.py:23-24 | An entry whose name does not end in `.html` changes neither the rows nor any counter. |
| Extractor.FailedFileCountsOnlyAsError | extractor.py:94-95 | A `.html` file whose processing raises adds one to `total_files` and to `errors`, nothing to any other counter, and no row. |
| Extractor.TotalFilesCountsHtmlEntries | extractor.py:23-24 | `total_files` is the number of `.html` entries in the listing, failing ones included. |
| Extractor.OnlyHtmlEntriesMatter | extractor.py:21-24 | The rows and the statistics of a listing equal those of its `.html` entries alone, counter by counter. |
| Extractor.FilesPartition | extractor.py:66-81 | Every counted file is exactly one of three kinds: an error, a complete record, or a file missing at least one field. So `complete_records` plus the incomplete files equals `total_files - errors`. |
| Extractor.MissingCountersBounded | extractor.py:66-81 | Each missing-data counter is at most the number of incomplete files. The five together are at least that number. |
| Extractor.MissingAtMostProcessed | extractor.py:66-76 | Every missing-data counter is at most `total_files - errors`. |
| Extractor.UnrequestedFieldEmptiesTable | extractor.py:32-64 | When a field is not requested, no row is ever returned, and its missing counter equals `total_files - errors`. |
| Extractor.RowsFollowListingOrder | extractor.py:21-90 | The rows of a shorter prefix of the listing are a prefix of the rows of a longer one, so rows appear in listing order. |
| Extractor.RowProvenance | extractor.py:83-90 | Every row is the row of some `.html` entry of the listing, and names that entry as its source file. |
| Collector.CollectData | collector.py:7-49 | The directory is created only when missing. Across all pages, in order, the files written are exactly the non-empty stripped containers longer than 2500 characters read before the first exception, numbered from 1. A run without an exception visits every page, returns the number saved and the number skipped. A run with one stops at the first page that raises. In both cases the browser ends closed. |
| Collector.VisitPage | collector.py:22-40 | One turn of the page loop navigates to exactly one more URL. It keeps the files and counters in step with the containers read so far. It reports an abort exactly when this page raises first. |
| Collector.SavePage | collector.py:30-40 | The container loop reads the containers in order up to the first one that raises. It reports a raise exactly when some container raises. It saves or skips every container read. |
| Collector.SaveContainer | collector.py:31-40 | One container is stripped. If the result is longer than 2500 characters it is written under the next number, which then advances. A shorter non-empty result adds one to the skip count. An empty result changes nothing. |
| Collector.SavedOrSkipped | collector.py:31-40 | Every container with non-empty stripped content is either saved or counted as skipped, never both. |
| Collector.SavedFilesNumbered | collector.py:18-38 | File `n` holds the `n`-th saved content for `n = 1..saved`. The paths are exactly the old ones plus those files. No other path changes. |
| Collector.FilePathInjective | collector.py:36 | Different counters give different file names, so no saved file overwrites another. |
| Collector.PageUrlInjective | collector.py:23 | Different page numbers give different URLs. |
| Collector.PageUrl | collector.py:23 | A search URL contains no space: the keyword's spaces became `+`. |
| Collector.FilePath | collector.py:36 | The path is the data folder, `/`, the keyword as given, `_`, the counter and `.html`: it starts with the folder and a `/`, and its name ends in `.html`. |
| Collector.ReadPrefix | collector.py:22-40 | The containers read from the first `p` pages are read first in any run over more pages. |
| Collector.EarlierPagesSurvive | collector.py:21-47 | The files saved from the first `p` pages keep their numbers and contents whatever later pages do, including when a later page raises. |
| Collector.StoppedRun | collector.py:21-47 | When page `n + 1` is the first to raise, running to `max_pages` raises too, and it reads exactly what the first `n + 1` pages gave before the exception. |
| Collector.FileSystem.WriteFile | collector.py:36-37 | Writing a path replaces or creates that file, which then exists, and changes nothing else. |
| Collector.FileSystem.MakeDirs | collector.py:11-12 | Creating the data folder adds that directory, which then exists, and leaves the files alone. |
| Collector.Browser.Get | collector.py:24-27 | Navigating yields what the site renders at the URL and records the visit. |
| Collector.Browser.Quit | collector.py:45-47 | Quitting closes the browser and records no visit. |
| Builtins.Strip | extractor.py:41 | `strip()` never lengthens its input, and a non-empty result starts and ends with a character that is not whitespace. |
| Builtins.StripSlice | collector.py:31 | `strip()` returns a slice of its input that has whitespace before and after it, neither starts nor ends with whitespace, and is empty only when the input is all whitespace: the slice between the longest whitespace prefix and the longest whitespace suffix. |
| Builtins.StripEmptyIffAllSpace | collector.py:31-32 | The stripped content is empty exactly when the inner HTML is all whitespace. |
| Builtins.ReplaceChar | collector.py:23 | `replace(" ", "+")` keeps the length and changes exactly the spaces, position by position. |
| Builtins.EndsWith | extractor.py:23 | `endswith(".html")` holds exactly when the name is some string followed by `.html`. |
| Builtins.Decimal | collector.py:36 | `str(n)` is a non-empty string of digits that starts with `0` only for `n == 0`. |
| Builtins.ParseDecimalOfDecimal | collector.py:36 | Reading back the decimal rendering of a number gives the number. |
| Builtins.DecimalInjective | collector.py:36 | Different numbers have different decimal renderings. |

## Left out

- `app.py`, the web front end that calls both passes, is not part of this model.
- The browser's headless option, the three-second wait and the lookup by class name `sg-col-inner` are not modelled. The lookup is abstracted into what `site` returns for a URL.
- Exception types are not distinguished: any failure of navigation, lookup or `get_attribute` is one `Raised` step.
- BeautifulSoup's matching rules are abstracted into the five first-match results a file yields.
- `html.unescape` is a parameter. Its entity table is not modelled.
- The `utf-8` decoding with `errors='ignore'` is not modelled. A file is either unreadable or parsed.
- The order of `os.listdir` is not modelled. The listing is an input sequence in whatever order the system gives.
- All `print` output is left out, as is the statistics report after the loop.
- The DataFrame conversion is left out: the result table is the sequence of rows.
- The browser launch is not modelled. It runs before the `try` (collector.py:17), so a launch failure raises with no `quit()`; the model always starts with a working browser.
- Collector.FilePath: a keyword containing `/` names a subfolder of the data folder, and the `open` at collector.py:36 then raises unless that subfolder exists. Writes never fail in the model, so it does not capture this, and such a file would not appear in the extraction pass's listing of the data folder.
- Collector.FileSystem.Exists: `os.path.exists` is taken by definition as a directory or a file at that path; broken symbolic links and permission errors are not modelled.
- Writing a file never fails in the model. `os.makedirs` adds only the folder itself, not its missing parents.
- Collector.CollectData: `skipped_count` is only printed by the source. The model also returns it in `Completed`, so the property about it can be stated.
