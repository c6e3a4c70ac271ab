# GoogleDataScrape: a verified model of the scraper's core

GoogleDataScrape searches Google Maps for businesses postcode by postcode, and writes the
results to a spreadsheet report. It can also merge them with a report uploaded
earlier. This project models in Dafny the logic that decides which records make it into
that report, and proves what that logic promises.

- **Dedup key** (`dedup.dfy`). `make_dedup_key` lower-cases the name and the address,
  keeps only `a-z0-9` of each, and joins the two with `|`.
- **Report loader** (`loader.dfy`). `load_existing_excel` runs from the point where the workbook is
  open. It chooses the sheet, finds the header row among the first five rows and maps
  columns to fields (first match wins). It then parses each row with per-field defaults
  and drops duplicate keys, first occurrence winning. The error outcomes are a datatype.
- **Scrolling** (`scroll.dfy`). `scroll_results` is a loop over what the browser reports in
  each round: whether the end-of-list notice is visible, and how many links the feed
  holds.
- **Acceptance loop** (`orchestrator.dfy`). `scrape_postcodes` runs from the point where each
  postcode's records are known. It keeps the seen-key set, accepts or skips each record,
  stamps the accepted ones, and builds the per-postcode summary table and progress figures.
- **Report data** (`report.dfy`). `create_excel` tags and merges the records, sorts them
  stably by (postcode, name), and projects each one to its fourteen row values and link
  cells. It also produces the summary rows and the info-sheet counts.
- **Place-page clean-ups** (`extraction.dfy`). These are the review count read from a label
  such as "1,234 reviews", and the opening hours split into one line per weekday.
- **Outcode search** (`outcodes.dfy`). `fetch_postcodes_for_location` is modelled over the web
  service's replies: it removes duplicate outcodes and orders the result by
  `(letters, int(digits))`.
- **Web front end** (`upload.dfy`). These are the summary of an uploaded report, and the counts
  announced when a run completes.

Shared pieces:

- `first_seen.dfy` holds the seen-set idiom used three times: keep an element when its
  key is neither blocked nor seen, then record the key.
- `sorting.dfy` holds Python's stable `sort(key=...)`. The lemmas prove its result is a
  permutation, ordered, and stable, so any stable sort gives it.
- `text.dfy` holds the `str` operations used (strip, lower, `in`, `<`, `join`, `replace`).
- `stores.dfy` holds the store record.

The loops of the source are methods with loop invariants. Each is proved against a
specification function, and the properties the source promises are lemmas about those
functions. Lists, dicts and sets that the source grows in place are `seq`, `map` and
`set` values, which the methods pass along and reassign. The browser, the HTTP replies,
number parsing and rounding are parameters.

## Model

| member | source | states |
|---|---|---|
| Dedup.KeepKeyChars | scraper.py:25-26 | `re.sub(r'[^a-z0-9]', '', s)` leaves only lower-case ASCII letters and digits |
| Dedup.Normalise | scraper.py:25-26 | a key component holds only `a-z0-9` |
| Dedup.NormaliseChar | scraper.py:25 | what one character contributes: a key character itself, an ASCII capital its small letter, the Kelvin sign "k", capital I with dot "i", and every other character (accented letters, punctuation, white space) nothing, iff it is ignored |
| Dedup.NormaliseAppend | scraper.py:25-26 | normalising works character by character (a homomorphism over `+`) |
| Dedup.NormaliseKeyString | scraper.py:25-26 | a string made of key characters is its own key component |
| Dedup.NormaliseIdempotent | scraper.py:25-26 | normalising twice is normalising once |
| Dedup.NormaliseIgnoresCase | scraper.py:25 | strings equal up to ASCII case give the same component |
| Dedup.NormaliseIgnoredRun | scraper.py:25-26 | a run of punctuation, white space or accented letters normalises to nothing |
| Dedup.NormaliseSkipsIgnored | scraper.py:25-26 | inserting such characters anywhere leaves the component unchanged |
| Dedup.SplitAtSeparator | scraper.py:27 | the separator never occurs inside a component, so a key splits back into its two components |
| Dedup.DedupKeySplits | scraper.py:23-27 | the key splits at its first separator back into the normalised name and the normalised address, a missing one counting as "" |
| Dedup.DedupKeyEqual | scraper.py:23-27 | two keys are equal iff both names and both addresses normalise equally (`None` read as "") |
| Dedup.EmptyKeyIffNothingKept | scraper.py:23-27 | the key is the bare separator (the empty key) iff neither name nor address keeps a character |
| Dedup.StoreKey | scraper.py:30-31 | a record's key is the empty key iff neither its name nor its address keeps a letter or digit |
| Dedup.DedupKeyOfNormalised | scraper.py:23-31 | the key of already-normalised inputs is the key of the originals |
| Dedup.AcmeKeysCollide | scraper.py:23-31 | "ACME STORE" and "Acme Store" at "1 Main St" have the same key |
| Dedup.CafeLosesAccent | scraper.py:25 | "Joe's Café" and "JOES CAFE" get different keys (the é is dropped, not folded) |
| Text.Strip | scraper.py:67 | `strip()` gives "" iff the text is blank, otherwise text without white space at either end |
| Text.LowerChar | scraper.py:25 | `lower()` of one character as far as ASCII letters are concerned |
| Text.StrLtTotal | scraper.py:487 | Python's string `<` is total (with `StrLtIrreflexive` and `StrLtTransitive`, a strict total order) |
| Text.ReplaceAbsent | scraper.py:316 | `replace` leaves a text without the target unchanged |
| Loader.SelectSheet | scraper.py:48-55 | the sheet chosen is the first whose lower-cased title contains "store" or "all", else the first sheet |
| Loader.Headers | scraper.py:67 | each header is its cell lower-cased and stripped, "" for an empty cell |
| Loader.FindHeaderRow | scraper.py:63-71 | the header row is the first of at most five rows with a cell containing "name"; none iff no such row |
| Loader.MatchAlias | scraper.py:96 | true iff some alias equals or occurs in the header |
| Loader.FindColumn | scraper.py:95-98 | the lowest index of a header naming the field, or none iff no header names it |
| Loader.MapFields | scraper.py:94-98 | every field mapped is at its first naming column; a field left out has no naming column |
| Loader.BuildColumnMap | scraper.py:78-98 | the column map holds exactly the named fields, each at its first naming column |
| Loader.HeaderRowNamesName | scraper.py:66-102 | a header row always maps the name field ("name" is one of its aliases), so the missing-name-column error cannot occur |
| Loader.CellOf | scraper.py:111-112 | a cell is used iff the field has a column, the row reaches it and the cell is not empty |
| Loader.GetVal | scraper.py:110-115 | `get_val`: the stripped, non-empty text, or the default for a missing or blank cell |
| Loader.GetNum | scraper.py:117-124 | `get_num`: a rating iff the cell is present and parses, else "N/A" |
| Loader.TruncateToInt | scraper.py:130 | `int()` of a float rounds toward zero |
| Loader.GetInt | scraper.py:126-133 | `get_int`: the truncated number, or 0 for a missing or unparsable cell |
| Loader.ParseRow | scraper.py:106-153 | a row is skipped iff it is blank or its name is blank or "N/A"; a record kept has a real name, the tag existing and a postcode |
| Loader.ParsedDefaults | scraper.py:106-153 | for a missing or blank cell: "N/A" for text, "—" for the postcode, the text "" for the coordinates, "N/A" rating and 0 reviews for a missing cell; the name and every text field with usable text is its cell stripped |
| Loader.ParsedNumberDefaults | scraper.py:117-133 | with a parser that, like `float`, rejects blank text: a missing or blank rating cell gives "N/A" and a missing or blank review cell 0; a cell that parses gives its value, the review count cut toward zero |
| Loader.Candidates | scraper.py:105-153 | the records of the rows not skipped, all tagged existing with a real name |
| Loader.Admit | scraper.py:155-158 | one record offered to the seen set leaves the stores as `FirstFresh` of the records so far, and the keys as their keys |
| Loader.ReadStores | scraper.py:104-158 | the loop over the data rows yields `FirstFresh` of the parsed rows with the empty key blocked and exactly its keys |
| Loader.LoadRows | scraper.py:57-161 | empty-file error iff no rows; header error iff none of the first five rows qualifies; no stores or keys on error; otherwise the deduplicated records below the first header row, read through its column map; keys are the stores' keys |
| Loader.NothingLoaded | scraper.py:58-75 | no rows gives the empty-file error, rows without a header row among the first five the header error, each with no stores and no keys |
| Loader.ReadBelowHeader | scraper.py:77-161 | once a header row is found the name column is always mapped, so no error: the stores are the deduplicated records of the rows below it |
| Loader.HeaderFound | scraper.py:64-161 | the records below the first header row, read through its column map and deduplicated, are what such a sheet loads to |
| Loader.LoadExisting | scraper.py:34-161 | an unreadable file gives its error text; an opened workbook gives exactly what its chosen sheet loads to (errors included); any error gives no stores and no keys; keys are the stores' keys; the stores have pairwise distinct keys, none the empty key, all tagged existing; the name-column error never occurs |
| Loader.LoadedStoresDistinct | scraper.py:152-158 | stores read back have pairwise distinct keys, none is the empty key, all tagged existing |
| Loader.LoadedKeys | scraper.py:155-161 | the key set is the keys of all rows read less the empty key |
| FirstSeen.FirstFreshStep | scraper.py:424-428 | the next element is kept iff its key is neither blocked nor the key of an element kept, and is appended |
| FirstSeen.FirstFreshKeys | scraper.py:155-161 | the keys kept are the list's keys less the blocked ones |
| FirstSeen.FirstFreshDistinct | scraper.py:155-158 | no two kept elements share a key and no kept key is blocked |
| FirstSeen.FirstFreshAppend | scraper.py:389-431 | one seen set across two lists equals walking the second list with the first list's keys blocked too |
| Sorting.SortBy | scraper.py:487 | the sort is a permutation of its input |
| Sorting.SortBySorted | scraper.py:487 | the sorted list is ordered by key |
| Sorting.SortByStable | scraper.py:487 | elements with equal keys keep their input order |
| Scroll.StaleAfter | scraper.py:213-218 | `stale_rounds` never exceeds the number of rounds run |
| Scroll.StaleRun | scraper.py:213-219 | `stale_rounds` is the length of the run of unchanged rounds just ended, reset by a changed count |
| Scroll.ScrollResults | scraper.py:186-219 | no feed iff no rounds; at most 15 rounds; stops at the first round that sees the end of the list or completes three unchanged rounds, otherwise after all 15 |
| Scroll.StaleStopNeedsThreeRounds | scraper.py:213-216 | a stale stop follows three rounds with the same count |
| Scroll.EmptyFeedStopsAtThirdRound | scraper.py:193-216 | a feed that never shows a link stops in the third round (`prev_count` starts at 0) |
| Scroll.GrowingFeedUsesAllRounds | scraper.py:196-219 | a feed that keeps growing never stops early |
| Orchestrator.Put | scraper.py:443-447 | `postcode_summary[pc] = ...`: the postcode maps to the new summary, every other entry unchanged, a new postcode appended |
| Orchestrator.PutDistinct | scraper.py:443 | the dict never holds a postcode twice |
| Orchestrator.StampKeeps | scraper.py:429-430 | stamping sets postcode and tag "new" only: the key, phone and rating are unchanged |
| Orchestrator.SummaryCounts | scraper.py:434-447 | count is the number accepted, phone count at most count, no average iff no accepted record is rated |
| Orchestrator.AcceptRecord | scraper.py:422-437 | one loop pass keeps every figure (new results, seen set, new/skipped counts, phones, ratings) equal to the figure of `FirstFresh` of the records offered |
| Orchestrator.AcceptBatch | scraper.py:417-441 | after one postcode's loop the figures are those of `FirstFresh(seen, batch)`, with `new_count + skipped` = records found |
| Orchestrator.KeptStep | scraper.py:428-437 | accepting a record appends it stamped, adds its key, and counts its phone and rating |
| Orchestrator.ScrapePostcode | scraper.py:413-454 | one postcode's pass keeps new results, summary table, seen set and progress lines equal to their specification |
| Orchestrator.ScrapePostcodes | scraper.py:388-461 | the whole run yields the specified results, table and progress; the seen set is the uploaded keys plus every key found |
| Orchestrator.NewResultsAreFirstFresh | scraper.py:413-431 | stamps aside, the run's records are the first occurrence of each key across all postcodes in order, skipping uploaded keys |
| Orchestrator.NewResultsDistinct | scraper.py:389-431 | no two new records share a key, and none has an uploaded key |
| Orchestrator.NewResultsStamped | scraper.py:429-431 | every new record is tagged new and carries a postcode processed |
| Orchestrator.TableDistinct | scraper.py:443 | the summary table lists each postcode once |
| Orchestrator.TableHasProcessed | scraper.py:413-447 | the table has an entry iff the postcode was processed |
| Orchestrator.TableKeepsLast | scraper.py:443-447 | a postcode listed twice keeps the summary of its last occurrence |
| Orchestrator.MeanWithin | scraper.py:442 | a mean lies within the bounds of its values |
| Orchestrator.AverageWithinRatings | scraper.py:436-442 | the average rating lies within the range of the accepted ratings |
| Orchestrator.AverageSkipsUnrated | scraper.py:434-447 | ratings 4.0, 5.0 and "N/A" give count 3 and average 4.5 |
| Orchestrator.EmptyKeyAccepted | scraper.py:422-431 | the empty key is not set aside by the run: the first such record is accepted, a second skipped |
| Orchestrator.KnownKeySkipped | scraper.py:422-426 | a record whose key the upload holds is skipped |
| Orchestrator.AcmeDuplicateSkipped | scraper.py:422-426 | "ACME STORE" at "1 Main St" is skipped when the upload holds "Acme Store" there |
| Report.TagAllKeeps | scraper.py:478-484 | tagging only fills a missing `_source`, with the default |
| Report.KeyLtOrder | scraper.py:487 | the `(postcode, name)` pair order is a strict total order |
| Report.Combine | scraper.py:477-487 | `combined` is the merged list |
| Report.Merged | scraper.py:477-487 | the merged list holds exactly the tagged records of both lists, its length is the sum of theirs, and it is ordered by postcode ("ZZZ" when missing), then name |
| Report.MergedStable | scraper.py:477-487 | records with the same postcode and name: uploaded ones first in upload order, then new ones in order found |
| Report.MergedPhones | scraper.py:477-487 | merging keeps the number of records with a phone |
| Report.MainRow | scraper.py:544-562 | fourteen values, numbered from 1, labelled "Existing" iff from the upload, postcode or "—"; a coordinate is a number cell iff it holds degrees (a scraped float), and otherwise the text an uploaded cell held |
| Report.MainRowLinks | scraper.py:582-587 | only columns 10 and 14 carry links, each iff its text is non-empty and not "N/A" |
| Report.MainRows | scraper.py:544-557 | one row per merged record, in order |
| Report.MergedLabels | scraper.py:477-547 | exactly the uploaded records are labelled "Existing": as many rows as records uploaded, and a merged record is labelled so iff it is one of the tagged uploaded records |
| Report.MergedLabelCount | scraper.py:477-547 | the number of rows labelled "Existing" is the number of records uploaded |
| Report.TaggedExisting | scraper.py:479-481 | an uploaded record none of which is marked new is labelled "Existing" once tagged |
| Report.TaggedNew | scraper.py:482-484 | a record of the run none of which is marked existing is not labelled "Existing" once tagged |
| Report.SortedEntriesIncreasing | scraper.py:615 | the summary rows list every entry once, in strictly increasing postcode order |
| Report.AvgCell | scraper.py:620-621 | the average cell is "—" iff there is no average or it is 0 |
| Report.SummaryRow | scraper.py:615-621 | one value per summary header: the postcode, the count, the phone count, and the average cell, "—" iff there is no average or it is 0 |
| Report.InfoRows | scraper.py:629-638 | eight rows; the existing and new counts are the lengths of the two lists, and the total is their sum |
| Report.ReportKeysDistinct | scraper.py:477-487 | when the uploaded records have distinct keys that the run's seen set starts with, no two rows of the report share a dedup key |
| Report.MergedKeysDistinct | scraper.py:477-487 | merging two lists with distinct keys, none shared, gives a list with distinct keys |
| Report.TaggedKeysDistinct | scraper.py:478-484 | tagging keeps every record's dedup key, so distinct keys stay distinct |
| Extraction.CountRunEnd | scraper.py:264 | the greedy run of `[\d,]` ends at the first other character |
| Extraction.ReviewCount | scraper.py:260-268 | `total_reviews` is 0 when nothing matches, otherwise the decimal value of the first match's run with commas dropped; it is 0 iff nothing matches or the run holds only commas and zeros |
| Extraction.RunCount | scraper.py:266 | `int(run.replace(",", ""))` is 0 iff the run holds only commas and zeros, `int("")` failing to 0 |
| Extraction.DropCommasZeros | scraper.py:266 | the digits left are all zeros iff the run held only commas and zeros |
| Extraction.SearchReview | scraper.py:264 | `re.search` finds the leftmost position where `([\d,]+)\s*review` matches, or none iff it matches nowhere |
| Extraction.DropCommas | scraper.py:266 | dropping the commas of a `[\d,]` run leaves only digits |
| Extraction.ThousandsSeparatorDropped | scraper.py:263-266 | a label starting "a,b review" counts the number `ab` |
| Extraction.CommasAloneCountZero | scraper.py:264-268 | ", reviews" matches but counts 0 (`int("")` fails and is swallowed) |
| Extraction.NoDayInsideDay | scraper.py:317 | no weekday name starts inside another |
| Extraction.SplitFromJoins | scraper.py:317 | the pieces of the split join back to the text |
| Extraction.SplitBeforeDaysSpec | scraper.py:317 | the pieces join back to the text; each piece after the first starts with a weekday name, and none has one inside it |
| Extraction.TrimMarks | scraper.py:318 | `rstrip(";., ")` removes exactly the trailing marks |
| Extraction.DayLineTrimmed | scraper.py:318 | a line neither starts with white space nor ends with a mark |
| Extraction.DayLineKeepsDay | scraper.py:318 | a piece that starts with a weekday name gives a line that still starts with it |
| Extraction.DayLinesSpec | scraper.py:316-320 | the hours lines are trimmed, and each after the first opens with its weekday name |
| Extraction.OpeningHours | scraper.py:309-322 | a blank label gives "N/A"; when the label, with its prefix and closing phrase removed, gives day lines, the value is those lines joined by newlines, and otherwise it is "N/A"; a value other than "N/A" is always such a join |
| Extraction.SplitWithoutDays | scraper.py:317 | text with no weekday name is not cut |
| Extraction.OpeningHoursWithoutDays | scraper.py:314-322 | hours text with no weekday name gives its whole text stripped and trimmed of trailing marks, or "N/A" when it is blank |
| Extraction.OpeningHoursOfNotAvailable | scraper.py:314-322 | a label reading "N/A" yields one line, "N/A", the same value as the default for a page without hours |
| Outcodes.KeyLtOrder | app.py:84-90 | the `(letters, number)` order is a strict total order |
| Outcodes.Offer | app.py:52-60 | one outcode offered keeps `results` equal to the first entry of each non-empty outcode offered, and `seen` equal to their outcodes |
| Outcodes.OfferAll | app.py:51-60 | the same for a whole reply |
| Outcodes.SearchNearby | app.py:41-60 | the place loop yields the first entry of each outcode its replies offer, stopping at an exception |
| Outcodes.FetchPostcodes | app.py:30-91 | the result is the listed candidates of the place search and the direct lookup |
| Outcodes.ListedShape | app.py:52-90 | each outcode once, none empty, exactly the first entries offered, sorted by `sort_key` |
| Outcodes.ListedCovers | app.py:52-90 | every non-empty outcode offered is listed |
| Outcodes.NumberedDistrictsInNumericOrder | app.py:84-90 | "SW2" sorts before "SW10", although the strings compare the other way |
| Outcodes.ShortCodeLookedUp | app.py:64-65 | "sw1" is looked up directly |
| Outcodes.DigitFirstNotLookedUp | app.py:64-65 | "1ab" is not looked up directly |
| Outcodes.WantsDirectIff | app.py:64-65 | a location is looked up directly iff, stripped, it has at most four characters and its first is an ASCII letter of either case |
| Upload.ExistingPostcodesIncreasing | app.py:136-138 | the postcodes found are strictly increasing, so without duplicates |
| Upload.ExistingPostcodesMembers | app.py:136-138 | a postcode is listed iff it is not "—" and some store has it |
| Upload.SampleNamesReal | app.py:129-153 | no name in the sample of a loaded report is empty or "N/A" |
| Upload.SamplePrefix | app.py:150-153 | records after the first five never change the sample |
| Upload.SummariseUpload | app.py:135-161 | `total_stores` is the number of records and `with_phone` at most that; the postcodes found are strictly increasing without "—"; the sample has at most five entries |
| Upload.Complete | app.py:239-249 | the total announced is new plus existing, and the count with a phone is at most the total |
| Upload.CompletionMatchesReport | app.py:239-249 | the completion counts equal the merged report's row count and phone count |

## Left out

- Browser driving (Playwright pages, locators, timeouts, cookie consent, link
  extraction and the rest of `extract_place_details`) is foreign code. Its outcomes
  (feed present, per-round observations, per-postcode record lists, label texts) are
  parameters.
- Workbook reading and writing (openpyxl), styling, widths, freeze panes and filters are
  library I/O. A sheet is a list of rows of optional text cells, and the report is
  modelled by its cell values.
- Cells are text. `str(c)` of a numeric or date cell, and the falsiness of a numeric 0
  cell in the header test, are not modelled.
- `float(...)` is a parameter `parse`, and `round(avg, 1)` a parameter `round`. Real
  arithmetic stands in for floating point.
- `datetime.now()` is a parameter `when`. `build_url` and `quote()` are left out
  (library URL encoding).
- The HTTP calls to postcodes.io are replies given as parameters (a body, a bad status
  or an exception). Flask routes, file handling, the job and upload registries, threads,
  queues and `time.sleep` are I/O and concurrency.
- Progress and log messages are left out as text. The acceptance loop's progress
  figures (found, new, skipped, total) are modelled.
- Character classes are ASCII only:
  - `lower()` is exact for ASCII and for the two non-ASCII characters whose lower-case
    form contains an ASCII letter (U+212A, U+0130). Other characters are kept, which
    cannot change a key.
  - `isalpha`, `isdigit`, `upper` and the regular expression `\d` are ASCII only;
    non-ASCII letters and digits in outcodes, in review labels or in the location
    are not modelled. For example, `upper` turns "ß" into "SS" and so changes the
    length, and `isalpha` accepts "É"; the model's `Outcodes.WantsDirect` does neither.
- Updates in place are modelled on values: each method takes the old list, set or dict
  and returns the new one. Aliasing of the store dicts (`create_excel` writes `_source`
  into the caller's dicts) is not modelled. The summary dict is a list of pairs in
  insertion order.
- `list.sort` is modelled by a stable insertion sort on sequences. Its lemmas fix the
  result of any stable sort.
- `sorted(postcode_summary.items())` compares by postcode only. Python would compare the
  summary dicts on a tie, but the postcodes of a dict are distinct, so no tie arises.
- Reading the coordinates, the two numbers after "@" in the page address
  (scraper.py:325-328), is part of `extract_place_details`. A scraped record's
  coordinates are therefore given as input, either `Degrees` or the default
  `CellText("")`.
- Report.MainRow: the title cell A1 (scraper.py:524-529), holding the query, the time
  and the "N existing + M new" counts, is not modelled; the report is modelled from its
  header row down, with the counts in `Report.InfoRows`.
- The look-up of the hours element and the review button on the page is left out (browser
  code); their label texts are parameters of `OpeningHours` and `ReviewCount`.
- The `set` then `sorted` of the upload's postcode list is modelled as first-occurrence
  deduplication followed by the sort, which gives the same list of strings.
- Loader.GetInt: `int(float(x))` of a cell holding "inf" or "1e999" raises
  `OverflowError`, which the `except (ValueError, TypeError)` of scraper.py:129-132 does
  not catch, so the whole upload fails. The model's `parse` yields finite reals only, so
  it returns a number there instead.
- Orchestrator.ScrapePostcodes: the `store_callback` call that streams each accepted
  record to the front end (scraper.py:437-438, app.py:226) is a side effect on a queue
  and is not modelled; the records it would send are the new results the model keeps.
- Outcodes.SearchNearby: a reply is read whole or fails before its first entry. An
  exception raised part-way through a reply's entries (app.py:51-60) would keep the
  entries listed before it and leave the failing outcode in `seen` but unlisted, so
  that even the direct lookup (app.py:73) skips it. A reply cannot express this.

## Where the code differs from what one might expect

- A key insensitive to case and punctuation might be expected to equate "Joe's Café" and
  "JOES CAFE". The code keeps only `a-z0-9` after lower-casing, so the é is dropped and
  the keys differ (`Dedup.CafeLosesAccent`). The model follows the code.
- The key `|` of a record with neither a usable name nor a usable address is set aside
  only by the loader (scraper.py:156). The acceptance loop of a run has no such guard and
  accepts the first record with that key (`Orchestrator.EmptyKeyAccepted`). The model
  follows the code.
- The loader's "Could not find a 'Store Name' or 'Name' column" error cannot be reached:
  a header row contains "name", and "name" is an alias of the name field
  (`Loader.HeaderRowNamesName`).
- The summary sheet shows "—" for an average rating of exactly 0, as for no average,
  because the code tests the average's truthiness (`Report.AvgCell`).
- An hours label that does not start with a weekday name keeps its leading text as a
  first line of its own (`Extraction.DayLinesSpec` promises the weekday name only from
  the second line on).
- A label reading "N/A" gives one hours line, "N/A", which the report cannot tell apart
  from the default for a page without hours (`Extraction.OpeningHoursOfNotAvailable`).
  So "N/A" does not mean that no line was found.
