/**
 * The data written by `create_excel` (scraper.py, lines 466-646): the records of
 * the uploaded report and of this run merged into one list ordered by postcode
 * and name, each projected to the fourteen values of its row; the summary sheet
 * with one row per postcode; and the record counts of the info sheet. Fonts,
 * fills, widths and the workbook file itself are not part of this model.
 */
module Report {
  import opened Wrappers
  import opened Text
  import opened Stores
  import Sorting
  import opened Dedup
  import Orchestrator

  // ---------------------------------------------------------------- merging

  /** `s["_source"] = s.get("_source", default)` */
  function Tag(s: Store, default: Source): Store {
    if s.source.Some? then s else s.(source := Some(default))
  }

  /** Every record of `xs`, tagged. */
  function TagAll(xs: seq<Store>, default: Source): (r: seq<Store>)
    ensures |r| == |xs|
  {
    if xs == [] then [] else TagAll(xs[..|xs| - 1], default) + [Tag(xs[|xs| - 1], default)]
  }

  /** Tagging leaves a record as it was apart from a missing source, which becomes `default`. */
  lemma {:induction false} TagAllKeeps(xs: seq<Store>, default: Source)
    ensures forall i :: 0 <= i < |xs| ==> TagAll(xs, default)[i].source == Some(xs[i].source.GetOr(default))
    ensures forall i :: 0 <= i < |xs| ==> TagAll(xs, default)[i].(source := None) == xs[i].(source := None)
  {
    if xs != [] {
      TagAllKeeps(xs[..|xs| - 1], default);
    }
  }

  /** The sort key `(x.get("postcode", "ZZZ"), x.get("name", ""))`. */
  function SortKey(s: Store): (string, string) {
    (s.postcode.GetOr("ZZZ"), s.name)
  }

  /** Python's `<` on pairs of strings: the first components decide, the second break ties. */
  predicate KeyLt(a: (string, string), b: (string, string)) {
    StrLt(a.0, b.0) || (a.0 == b.0 && StrLt(a.1, b.1))
  }

  /** The pair order is a strict total order, so the sort is well defined. */
  lemma KeyLtOrder()
    ensures Sorting.StrictTotalOrder(KeyLt)
  {
    forall a: (string, string)
      ensures !KeyLt(a, a)
    {
      StrLtIrreflexive(a.0);
      StrLtIrreflexive(a.1);
    }
    forall a: (string, string), b: (string, string), c: (string, string) | KeyLt(a, b) && KeyLt(b, c)
      ensures KeyLt(a, c)
    {
      if StrLt(a.0, b.0) && StrLt(b.0, c.0) {
        StrLtTransitive(a.0, b.0, c.0);
      } else if a.0 == b.0 && b.0 == c.0 {
        StrLtTransitive(a.1, b.1, c.1);
      }
    }
    forall a: (string, string), b: (string, string)
      ensures a == b || KeyLt(a, b) || KeyLt(b, a)
    {
      StrLtTotal(a.0, b.0);
      StrLtTotal(a.1, b.1);
    }
  }

  /** `combined` once sorted: the uploaded records then the new ones, tagged, in a stable
      sort by postcode and name. It holds exactly the tagged records of both lists, so its
      length is the sum of theirs, and it is ordered by postcode, then name. */
  function Merged(existing: seq<Store>, scraped: seq<Store>): (r: seq<Store>)
    ensures multiset(r) == multiset(TagAll(existing, Existing)) + multiset(TagAll(scraped, New))
    ensures |r| == |existing| + |scraped|
    ensures Sorting.SortedBy(r, SortKey, KeyLt)
  {
    KeyLtOrder();
    Sorting.SortBySorted(TagAll(existing, Existing) + TagAll(scraped, New), SortKey, KeyLt);
    Sorting.SortBy(TagAll(existing, Existing) + TagAll(scraped, New), SortKey, KeyLt)
  }

  /** Builds `combined` and sorts it. */
  method Combine(existing: seq<Store>, scraped: seq<Store>) returns (combined: seq<Store>)
    ensures combined == Merged(existing, scraped)
  {
    combined := [];
    for i := 0 to |existing|
      invariant combined == TagAll(existing[..i], Existing)
    {
      assert existing[..i + 1][..i] == existing[..i];
      combined := combined + [Tag(existing[i], Existing)];
    }
    assert existing[..|existing|] == existing;
    for i := 0 to |scraped|
      invariant combined == TagAll(existing, Existing) + TagAll(scraped[..i], New)
    {
      assert scraped[..i + 1][..i] == scraped[..i];
      combined := combined + [Tag(scraped[i], New)];
    }
    assert scraped[..|scraped|] == scraped;
    combined := Sorting.SortBy(combined, SortKey, KeyLt);
  }

  /** Records with the same postcode and name keep their order: the uploaded ones come
      first, in the order of the upload, then the new ones in the order found. */
  lemma MergedStable(existing: seq<Store>, scraped: seq<Store>, k: (string, string))
    ensures Sorting.WithKey(Merged(existing, scraped), SortKey, k)
         == Sorting.WithKey(TagAll(existing, Existing), SortKey, k) + Sorting.WithKey(TagAll(scraped, New), SortKey, k)
  {
    KeyLtOrder();
    Sorting.SortByStable(TagAll(existing, Existing) + TagAll(scraped, New), SortKey, KeyLt, k);
    Sorting.WithKeyAppend(TagAll(existing, Existing), TagAll(scraped, New), SortKey, k);
  }

  /** Sorting does not change how many merged records have a known phone. */
  lemma MergedPhones(existing: seq<Store>, scraped: seq<Store>)
    ensures PhoneCount(Merged(existing, scraped)) == PhoneCount(existing) + PhoneCount(scraped)
  {
    Sorting.SortByCount(TagAll(existing, Existing) + TagAll(scraped, New), SortKey, KeyLt, HasPhone);
    Sorting.CountIfAppend(TagAll(existing, Existing), TagAll(scraped, New), HasPhone);
    TagAllPhones(existing, Existing);
    TagAllPhones(scraped, New);
  }

  lemma {:induction false} TagAllPhones(xs: seq<Store>, default: Source)
    ensures PhoneCount(TagAll(xs, default)) == PhoneCount(xs)
  {
    if xs != [] {
      var init, last := xs[..|xs| - 1], xs[|xs| - 1];
      TagAllPhones(init, default);
      Sorting.CountIfAppend(TagAll(init, default), [Tag(last, default)], HasPhone);
      Sorting.CountIfAppend(init, [last], HasPhone);
      assert init + [last] == xs;
    }
  }

  // ---------------------------------------------------------------- the "All Stores" sheet

  /** A cell value: a number or a piece of text. */
  datatype Value = Int(i: int) | Num(r: real) | Text(t: string)

  /** Python truthiness of a cell value. */
  predicate Truthy(v: Value) {
    match v
    case Int(n) => n != 0
    case Num(x) => x != 0.0
    case Text(t) => t != ""
  }

  /** The header row. */
  const MainHeaders: seq<string> := [
    "#", "Source", "Postcode", "Store Name", "Address", "Phone Number", "Rating",
    "Reviews", "Category", "Website", "Opening Hours", "Latitude", "Longitude",
    "Google Maps URL"]

  /** `store.get("_source", "new")` */
  function SourceOf(s: Store): Source {
    s.source.GetOr(New)
  }

  /** The label of the Source column. */
  function SourceLabel(s: Store): string {
    if SourceOf(s) == Existing then "Existing" else "★ New"
  }

  function RatingValue(r: Rating): Value {
    match r
    case Stars(x) => Num(x)
    case NoRating => Text(NotAvailable)
  }

  /** A coordinate is written as a number cell when it holds degrees, as text otherwise. */
  function CoordinateValue(c: Coordinate): Value {
    match c
    case Degrees(x) => Num(x)
    case CellText(t) => Text(t)
  }

  /** The values of the row of the record at index `i` of the merged list: one per header,
      the record numbered from 1, labelled "Existing" exactly for an uploaded record, and
      its postcode, or the em dash when it has none. */
  function MainRow(i: nat, s: Store): (r: seq<Value>)
    ensures |r| == |MainHeaders|
    ensures r[0] == Int(i + 1)
    ensures r[1] == Text("Existing") <==> SourceOf(s) == Existing
    ensures r[2] == Text(if s.postcode.Some? then s.postcode.value else NoPostcode)
    ensures r[11].Num? <==> s.latitude.Degrees?
    ensures r[12].Num? <==> s.longitude.Degrees?
    ensures s.latitude.Degrees? ==> r[11] == Num(s.latitude.value)
    ensures s.longitude.Degrees? ==> r[12] == Num(s.longitude.value)
    ensures s.latitude.CellText? ==> r[11] == Text(s.latitude.text)
    ensures s.longitude.CellText? ==> r[12] == Text(s.longitude.text)
  {
    [Int(i + 1), Text(SourceLabel(s)), Text(s.postcode.GetOr(NoPostcode)),
     Text(s.name), Text(s.address), Text(s.phone), RatingValue(s.rating),
     Int(s.totalReviews), Text(s.category), Text(s.website), Text(s.openingHours),
     CoordinateValue(s.latitude), CoordinateValue(s.longitude), Text(s.mapsUrl)]
  }

  /** Whether the cell in column `column` (counted from 1) holding `v` gets a hyperlink. */
  predicate IsLink(column: nat, v: Value) {
    (column == 10 || column == 14) && Truthy(v) && v != Text(NotAvailable)
  }

  /** Whether a text value is turned into a link. */
  predicate Linkable(t: string) {
    t != "" && t != NotAvailable
  }

  /** The columns of a row that carry a hyperlink. */
  function LinkColumns(row: seq<Value>): set<nat> {
    set c: nat | c < |row| && IsLink(c + 1, row[c]) :: c + 1
  }

  /** Only the website and the Google Maps columns carry links, each when its text is
      neither empty nor "N/A". */
  lemma MainRowLinks(i: nat, s: Store)
    ensures LinkColumns(MainRow(i, s))
         == (if Linkable(s.website) then {10} else {}) + (if Linkable(s.mapsUrl) then {14} else {})
  {
    var row := MainRow(i, s);
    var expected := (if Linkable(s.website) then {10} else {}) + (if Linkable(s.mapsUrl) then {14} else {});
    forall c: nat
      ensures c in LinkColumns(row) <==> c in expected
    {
      if c in LinkColumns(row) {
        var d: nat :| d < |row| && IsLink(d + 1, row[d]) && c == d + 1;
        assert d == 9 || d == 13;
      }
      if c == 10 && Linkable(s.website) {
        assert IsLink(9 + 1, row[9]);
      }
      if c == 14 && Linkable(s.mapsUrl) {
        assert IsLink(13 + 1, row[13]);
      }
    }
  }

  /** Writes the data rows of the merged list. */
  method MainRows(combined: seq<Store>) returns (rows: seq<seq<Value>>)
    ensures |rows| == |combined|
    ensures forall i :: 0 <= i < |combined| ==> rows[i] == MainRow(i, combined[i])
  {
    rows := [];
    for i := 0 to |combined|
      invariant |rows| == i
      invariant forall j :: 0 <= j < i ==> rows[j] == MainRow(j, combined[j])
    {
      rows := rows + [MainRow(i, combined[i])];
    }
  }

  /** Every row of the merged sheet is labelled by where its record came from: the
      uploaded records as "Existing", the records of this run as new. */
  lemma MergedLabels(existing: seq<Store>, scraped: seq<Store>)
    requires forall s :: s in existing ==> s.source != Some(New)
    requires forall s :: s in scraped ==> s.source != Some(Existing)
    ensures CountLabelled(Merged(existing, scraped)) == |existing|
    ensures forall s :: s in Merged(existing, scraped) ==> (IsExisting(s) <==> s in TagAll(existing, Existing))
  {
    MergedLabelCount(existing, scraped);
    forall s | s in Merged(existing, scraped)
      ensures IsExisting(s) <==> s in TagAll(existing, Existing)
    {
      assert s in multiset(TagAll(existing, Existing) + TagAll(scraped, New));
      if s in TagAll(existing, Existing) {
        TaggedExisting(existing, s);
      } else {
        TaggedNew(scraped, s);
      }
    }
  }

  lemma MergedLabelCount(existing: seq<Store>, scraped: seq<Store>)
    requires forall s :: s in existing ==> s.source != Some(New)
    requires forall s :: s in scraped ==> s.source != Some(Existing)
    ensures CountLabelled(Merged(existing, scraped)) == |existing|
  {
    var tagged := TagAll(existing, Existing) + TagAll(scraped, New);
    Sorting.SortByCount(tagged, SortKey, KeyLt, IsExisting);
    Sorting.CountIfAppend(TagAll(existing, Existing), TagAll(scraped, New), IsExisting);
    TagAllKeeps(existing, Existing);
    TagAllKeeps(scraped, New);
    AllExisting(TagAll(existing, Existing), existing);
    NoneExisting(TagAll(scraped, New), scraped);
  }

  /** A record tagged as existing, from records none of which is marked new, is labelled "Existing". */
  lemma TaggedExisting(xs: seq<Store>, s: Store)
    requires forall x :: x in xs ==> x.source != Some(New)
    ensures s in TagAll(xs, Existing) ==> IsExisting(s)
  {
    if s in TagAll(xs, Existing) {
      TagAllKeeps(xs, Existing);
      var k :| 0 <= k < |xs| && TagAll(xs, Existing)[k] == s;
      assert xs[k] in xs;
    }
  }

  /** A record tagged as new, from records none of which is marked existing, is not labelled "Existing". */
  lemma TaggedNew(xs: seq<Store>, s: Store)
    requires forall x :: x in xs ==> x.source != Some(Existing)
    ensures s in TagAll(xs, New) ==> !IsExisting(s)
  {
    if s in TagAll(xs, New) {
      TagAllKeeps(xs, New);
      var k :| 0 <= k < |xs| && TagAll(xs, New)[k] == s;
      assert xs[k] in xs;
    }
  }

  predicate IsExisting(s: Store) {
    SourceOf(s) == Existing
  }

  /** How many records are labelled "Existing". */
  function CountLabelled(xs: seq<Store>): nat {
    Sorting.CountIf(xs, IsExisting)
  }

  lemma {:induction false} AllExisting(xs: seq<Store>, orig: seq<Store>)
    requires |xs| == |orig|
    requires forall i :: 0 <= i < |xs| ==> xs[i].source == Some(orig[i].source.GetOr(Existing))
    requires forall s :: s in orig ==> s.source != Some(New)
    ensures Sorting.CountIf(xs, IsExisting) == |xs|
  {
    if xs != [] {
      assert orig[0] in orig;
      AllExisting(xs[1..], orig[1..]);
    }
  }

  lemma {:induction false} NoneExisting(xs: seq<Store>, orig: seq<Store>)
    requires |xs| == |orig|
    requires forall i :: 0 <= i < |xs| ==> xs[i].source == Some(orig[i].source.GetOr(New))
    requires forall s :: s in orig ==> s.source != Some(Existing)
    ensures Sorting.CountIf(xs, IsExisting) == 0
  {
    if xs != [] {
      assert orig[0] in orig;
      NoneExisting(xs[1..], orig[1..]);
    }
  }

  // ---------------------------------------------------------------- the "Postcode Summary" sheet

  const SummaryHeaders: seq<string> := ["Postcode", "New Stores", "With Phone", "Avg Rating"]

  /** The postcode of a summary entry. */
  function EntryPostcode(e: (string, Orchestrator.Summary)): string {
    e.0
  }

  /** `sorted(postcode_summary.items())`. The postcodes of a summary table are distinct,
      so the order of the pairs is the order of their postcodes. */
  function SortedEntries(table: Orchestrator.SummaryTable): seq<(string, Orchestrator.Summary)> {
    Sorting.SortBy(table, EntryPostcode, StrLt)
  }

  lemma StrLtOrder()
    ensures Sorting.StrictTotalOrder(StrLt)
  {
    forall a: string
      ensures !StrLt(a, a)
    {
      StrLtIrreflexive(a);
    }
    forall a: string, b: string, c: string | StrLt(a, b) && StrLt(b, c)
      ensures StrLt(a, c)
    {
      StrLtTransitive(a, b, c);
    }
    forall a: string, b: string
      ensures a == b || StrLt(a, b) || StrLt(b, a)
    {
      StrLtTotal(a, b);
    }
  }

  /** The summary rows list every entry once, in strictly increasing postcode order. */
  lemma SortedEntriesIncreasing(table: Orchestrator.SummaryTable)
    requires Orchestrator.DistinctPostcodes(table)
    ensures multiset(SortedEntries(table)) == multiset(table)
    ensures forall i, j :: 0 <= i < j < |SortedEntries(table)| ==> StrLt(SortedEntries(table)[i].0, SortedEntries(table)[j].0)
  {
    var r := SortedEntries(table);
    StrLtOrder();
    Sorting.SortBySorted(table, EntryPostcode, StrLt);
    assert Sorting.DistinctKeys(table, EntryPostcode);
    Sorting.PermutationKeepsDistinctKeys(table, r, EntryPostcode);
    Sorting.SortedDistinctIncreasing(r, EntryPostcode, StrLt);
  }

  /** The Avg Rating cell of a postcode without an average (an em dash). */
  const NoAverage: string := "\U{2014}"

  /** The Avg Rating cell: the average (rounded by `round`), or the em dash when there is
      none, and also when it is 0, which Python's truthiness treats alike. */
  function AvgCell(avg: Option<real>, round: real -> real): (v: Value)
    ensures v == Text(NoAverage) <==> avg.None? || avg.value == 0.0
  {
    if avg.Some? && avg.value != 0.0 then Num(round(avg.value)) else Text(NoAverage)
  }

  /** The row of one summary entry: one value per header, the postcode first, then the
      count of new records and of those with a phone, then the average cell. */
  function SummaryRow(e: (string, Orchestrator.Summary), round: real -> real): (r: seq<Value>)
    ensures |r| == |SummaryHeaders|
    ensures r[0] == Text(e.0) && r[1] == Int(e.1.count) && r[2] == Int(e.1.phoneCount)
    ensures r[3] == Text(NoAverage) <==> e.1.avgRating.None? || e.1.avgRating.value == 0.0
  {
    [Text(e.0), Int(e.1.count), Int(e.1.phoneCount), AvgCell(e.1.avgRating, round)]
  }

  // ---------------------------------------------------------------- the "Scrape Info" sheet

  /** The rows of the info sheet; `when` is the time the report is written. The total
      it reports is the length of the merged list, which is the sum of the two counts
      above it. */
  function InfoRows(query: string, when: string, existing: seq<Store>, scraped: seq<Store>): (r: seq<(string, Value)>)
    ensures |r| == 8
    ensures r[4] == ("Existing Stores Loaded", Int(|existing|)) && r[5] == ("New Stores Scraped", Int(|scraped|))
    ensures r[6] == ("Total Stores in File", Int(|existing| + |scraped|))
  {
    [("Search Query", Text(query)),
     ("Date Scraped", Text(when)),
     ("Method", Text("Playwright browser automation (Free)")),
     ("", Text("")),
     ("Existing Stores Loaded", Int(|existing|)),
     ("New Stores Scraped", Int(|scraped|)),
     ("Total Stores in File", Int(|Merged(existing, scraped)|)),
     ("Duplicates Skipped", Text("Auto-deduplicated by name + address"))]
  }

  // ---------------------------------------------------------------- the report as a whole

  /** No two rows of the report share a dedup key, when the uploaded records have distinct
      keys and the seen set the run starts from holds all of them. */
  lemma ReportKeysDistinct(existing: seq<Store>, existingKeys: set<string>, postcodes: seq<string>, batches: seq<seq<Store>>)
    requires |batches| == |postcodes|
    requires Sorting.DistinctKeys(existing, StoreKey)
    requires forall s :: s in existing ==> StoreKey(s) in existingKeys
    ensures Sorting.DistinctKeys(Merged(existing, Orchestrator.NewResults(existingKeys, postcodes, batches, |batches|)), StoreKey)
  {
    Orchestrator.NewResultsDistinct(existingKeys, postcodes, batches);
    assert Sorting.DistinctKeys(Orchestrator.NewResults(existingKeys, postcodes, batches, |batches|), StoreKey);
    assert forall i :: 0 <= i < |Orchestrator.NewResults(existingKeys, postcodes, batches, |batches|)| ==>
                         StoreKey(Orchestrator.NewResults(existingKeys, postcodes, batches, |batches|)[i]) !in existingKeys;
    MergedKeysDistinct(existing, Orchestrator.NewResults(existingKeys, postcodes, batches, |batches|), existingKeys);
  }

  /** Merging keeps keys distinct when each list has distinct keys and the keys of the
      first all lie in a set that holds none of the keys of the second. */
  lemma MergedKeysDistinct(existing: seq<Store>, scraped: seq<Store>, keys: set<string>)
    requires Sorting.DistinctKeys(existing, StoreKey) && Sorting.DistinctKeys(scraped, StoreKey)
    requires forall s :: s in existing ==> StoreKey(s) in keys
    requires forall i :: 0 <= i < |scraped| ==> StoreKey(scraped[i]) !in keys
    ensures Sorting.DistinctKeys(Merged(existing, scraped), StoreKey)
  {
    TaggedKeysDistinct(existing, Existing);
    TaggedKeysDistinct(scraped, New);
    var xs, ys := TagAll(existing, Existing), TagAll(scraped, New);
    forall i, j | 0 <= i < |xs| && 0 <= j < |ys|
      ensures StoreKey(xs[i]) != StoreKey(ys[j])
    {
      assert existing[i] in existing;
    }
    Sorting.DistinctKeysAppend(xs, ys, StoreKey);
    Sorting.PermutationKeepsDistinctKeys(xs + ys, Merged(existing, scraped), StoreKey);
  }

  /** Tagging keeps every record's dedup key, so keys distinct before are distinct after. */
  lemma TaggedKeysDistinct(xs: seq<Store>, default: Source)
    ensures forall i :: 0 <= i < |xs| ==> StoreKey(TagAll(xs, default)[i]) == StoreKey(xs[i])
    ensures Sorting.DistinctKeys(xs, StoreKey) ==> Sorting.DistinctKeys(TagAll(xs, default), StoreKey)
  {
    TagAllKeeps(xs, default);
    forall i | 0 <= i < |xs|
      ensures StoreKey(TagAll(xs, default)[i]) == StoreKey(xs[i])
    {
      assert TagAll(xs, default)[i].(source := None).name == xs[i].(source := None).name;
      assert TagAll(xs, default)[i].(source := None).address == xs[i].(source := None).address;
    }
  }
}
