/**
 * Reading an earlier report back: `load_existing_excel` (scraper.py, lines
 * 34-161), from the point where the workbook has been opened and each sheet
 * is a list of rows of cells. A cell is `None` when empty and otherwise the
 * text it holds.
 */
module Loader {
  import opened Wrappers
  import opened Lists
  import opened Text
  import opened Stores
  import opened Dedup
  import opened FirstSeen

  type Cell = Option<string>
  type Row = seq<Cell>

  datatype Sheet = Sheet(title: string, rows: seq<Row>)

  /** What `load_workbook` gives: the sheets in order, or the exception's text. */
  datatype Opened = Opened(sheets: seq<Sheet>) | OpenFailed(detail: string)

  /** The fields a column can be mapped to, in the order the alias table lists them. */
  datatype Field =
    | NameField | AddressField | PhoneField | RatingField | ReviewsField | CategoryField
    | WebsiteField | HoursField | PostcodeField | LatitudeField | LongitudeField | MapsUrlField

  /** The header texts that identify each field. */
  function Aliases(f: Field): seq<string> {
    match f
    case NameField => ["store name", "name", "shop name", "business name", "store"]
    case AddressField => ["address", "formatted address", "location", "full address"]
    case PhoneField => ["phone", "phone number", "telephone", "tel", "phone no", "contact"]
    case RatingField => ["rating", "stars", "google rating"]
    case ReviewsField => ["reviews", "total reviews", "review count", "no of reviews", "ratings count"]
    case CategoryField => ["category", "type", "primary type", "business type", "store type"]
    case WebsiteField => ["website", "web", "url", "site", "website url"]
    case HoursField => ["opening hours", "hours", "open hours", "timings"]
    case PostcodeField => ["postcode", "postcode area", "post code", "zip", "outcode"]
    case LatitudeField => ["latitude", "lat"]
    case LongitudeField => ["longitude", "lng", "lon", "long"]
    case MapsUrlField => ["google maps url", "google maps", "maps url", "maps link", "google maps link"]
  }

  /** The ways loading can fail, each returned with no stores and no keys. */
  datatype LoadError = UnreadableFile(detail: string) | EmptyFile | HeaderNotFound | NameColumnMissing

  /** The message shown for each failure. */
  function Message(e: LoadError): string {
    match e
    case UnreadableFile(detail) => "Could not open file: " + detail
    case EmptyFile => "File is empty"
    case HeaderNotFound => "Could not find header row (looking for a column containing 'name')"
    case NameColumnMissing => "Could not find a 'Store Name' or 'Name' column"
  }

  // ---------------------------------------------------------------- the sheet

  /** A sheet whose lower-cased title mentions "store" or "all" is preferred. */
  predicate IsStoreSheetTitle(title: string) {
    Contains(Lower(title), "store") || Contains(Lower(title), "all")
  }

  /** Sheet `i` is the one chosen: the first with a preferred title, or else the first sheet. */
  ghost predicate IsChosenSheet(titles: seq<string>, i: nat) {
    && i < |titles|
    && (forall j :: 0 <= j < i ==> !IsStoreSheetTitle(titles[j]))
    && (IsStoreSheetTitle(titles[i]) || (i == 0 && forall j :: 0 <= j < |titles| ==> !IsStoreSheetTitle(titles[j])))
  }

  /** The titles of a workbook's sheets, in order. */
  function Titles(sheets: seq<Sheet>): (r: seq<string>)
    ensures |r| == |sheets| && forall i :: 0 <= i < |sheets| ==> r[i] == sheets[i].title
  {
    seq(|sheets|, i requires 0 <= i < |sheets| => sheets[i].title)
  }

  /** The first sheet with a preferred title, or else the first sheet. */
  method SelectSheet(titles: seq<string>) returns (i: nat)
    requires |titles| > 0
    ensures i < |titles|
    ensures forall j :: 0 <= j < i ==> !IsStoreSheetTitle(titles[j])
    ensures IsStoreSheetTitle(titles[i]) || (i == 0 && forall j :: 0 <= j < |titles| ==> !IsStoreSheetTitle(titles[j]))
  {
    var k := 0;
    while k < |titles|
      invariant k <= |titles|
      invariant forall j :: 0 <= j < k ==> !IsStoreSheetTitle(titles[j])
    {
      if IsStoreSheetTitle(titles[k]) {
        return k;
      }
      k := k + 1;
    }
    return 0;
  }

  // ---------------------------------------------------------------- the header row

  /** How a header cell is compared: `str(c).lower().strip()`, "" for an empty cell. */
  function HeaderText(c: Cell): string {
    match c
    case None => ""
    case Some(t) => Strip(Lower(t))
  }

  function Headers(row: Row): (hs: seq<string>)
    ensures |hs| == |row| && forall i :: 0 <= i < |row| ==> hs[i] == HeaderText(row[i])
  {
    seq(|row|, i requires 0 <= i < |row| => HeaderText(row[i]))
  }

  /** Whether a header cell mentions "name". */
  predicate MentionsNameCell(c: Cell) {
    Contains(HeaderText(c), "name")
  }

  /** A row is taken for the header row when one of its cells mentions "name". */
  predicate IsHeaderRow(row: Row) {
    Any(row, MentionsNameCell)
  }

  /** Only the first five rows are searched for the header row. */
  const HeaderSearchRows: nat := 5

  /** The first of the first five rows that is a header row, if any. */
  method FindHeaderRow(rows: seq<Row>) returns (h: Option<nat>)
    ensures h.Some? ==> h.value < HeaderSearchRows && h.value < |rows| && IsHeaderRow(rows[h.value])
    ensures h.Some? ==> forall j :: 0 <= j < h.value ==> !IsHeaderRow(rows[j])
    ensures h.None? <==> forall j :: 0 <= j < |rows| && j < HeaderSearchRows ==> !IsHeaderRow(rows[j])
  {
    h := FirstMatch(rows, IsHeaderRow, HeaderSearchRows);
  }

  // ---------------------------------------------------------------- the column map

  /** A header text equals or contains one of `aliases`. */
  predicate MatchesAlias(h: string, aliases: seq<string>) {
    exists a :: a in aliases && (a == h || Contains(h, a))
  }

  /** A header text names a field when it equals or contains one of the field's aliases. */
  predicate Names(h: string, f: Field) {
    MatchesAlias(h, Aliases(f))
  }

  /** Column `i` is where `f` is found: the first header that names it. */
  predicate IsColumnOf(headers: seq<string>, f: Field, i: nat) {
    i < |headers| && Names(headers[i], f) && forall j :: 0 <= j < i ==> !Names(headers[j], f)
  }

  /** No header names field `f`. */
  predicate Unnamed(headers: seq<string>, f: Field) {
    forall i :: 0 <= i < |headers| ==> !Names(headers[i], f)
  }

  /** Every field is mapped to the first column naming it, and a field no column names is absent. */
  predicate IsColumnMap(headers: seq<string>, colMap: map<Field, nat>) {
    forall f: Field ::
      && (f in colMap <==> exists i :: 0 <= i < |headers| && Names(headers[i], f))
      && (f in colMap ==> IsColumnOf(headers, f, colMap[f]))
  }

  const AllFields: seq<Field> := [
    NameField, AddressField, PhoneField, RatingField, ReviewsField, CategoryField,
    WebsiteField, HoursField, PostcodeField, LatitudeField, LongitudeField, MapsUrlField]

  lemma AllFieldsListed(f: Field)
    ensures f in AllFields
  {
  }

  /** The test `any(alias == h or alias in h for alias in aliases)`. */
  method MatchAlias(h: string, aliases: seq<string>) returns (b: bool)
    ensures b <==> MatchesAlias(h, aliases)
  {
    b := false;
    var k := 0;
    while k < |aliases|
      invariant k <= |aliases|
      invariant b <==> exists j :: 0 <= j < k && (aliases[j] == h || Contains(h, aliases[j]))
    {
      if aliases[k] == h || Contains(h, aliases[k]) {
        b := true;
      }
      k := k + 1;
    }
    if MatchesAlias(h, aliases) {
      var a :| a in aliases && (a == h || Contains(h, a));
      var j :| 0 <= j < |aliases| && aliases[j] == a;
    }
    if b {
      var j :| 0 <= j < |aliases| && (aliases[j] == h || Contains(h, aliases[j]));
      assert aliases[j] in aliases;
    }
  }

  /** The first column whose header names `f`, if any. */
  method FindColumn(headers: seq<string>, f: Field) returns (c: Option<nat>)
    ensures c.Some? ==> IsColumnOf(headers, f, c.value)
    ensures c.None? ==> Unnamed(headers, f)
  {
    var i := 0;
    while i < |headers|
      invariant i <= |headers|
      invariant forall j :: 0 <= j < i ==> !Names(headers[j], f)
    {
      var named := MatchAlias(headers[i], Aliases(f));
      if named {
        return Some(i);
      }
      i := i + 1;
    }
    return None;
  }

  /** The loop over `fields`: each one found is mapped to the first header naming it. */
  method MapFields(headers: seq<string>, fields: seq<Field>) returns (colMap: map<Field, nat>)
    ensures forall f :: f in colMap ==> IsColumnOf(headers, f, colMap[f])
    ensures forall f :: f in fields && f !in colMap ==> Unnamed(headers, f)
  {
    colMap := map[];
    for n := 0 to |fields|
      invariant forall f :: f in colMap ==> IsColumnOf(headers, f, colMap[f])
      invariant forall f :: f in fields[..n] && f !in colMap ==> Unnamed(headers, f)
    {
      forall f {
        InPrefix(fields, n + 1, f);
      }
      var c := FindColumn(headers, fields[n]);
      if c.Some? {
        colMap := colMap[fields[n] := c.value];
      }
    }
    assert fields[..|fields|] == fields;
  }

  /** The column of each field: for each field in turn, the first header naming it. */
  method BuildColumnMap(headers: seq<string>) returns (colMap: map<Field, nat>)
    ensures IsColumnMap(headers, colMap)
  {
    colMap := MapFields(headers, AllFields);
    forall f: Field | f !in colMap
      ensures Unnamed(headers, f)
    {
      AllFieldsListed(f);
    }
  }

  /** The name field is always found in a header row, since "name" is one of its aliases:
      the error for a missing name column can never be returned. */
  lemma HeaderRowNamesName(row: Row, colMap: map<Field, nat>)
    requires IsHeaderRow(row) && IsColumnMap(Headers(row), colMap)
    ensures NameField in colMap
  {
    AnyIff(row, MentionsNameCell);
    var i :| 0 <= i < |row| && MentionsNameCell(row[i]);
    assert "name" in Aliases(NameField);
    assert Names(Headers(row)[i], NameField);
  }

  // ---------------------------------------------------------------- the data rows

  /** A row with no cells, or with only empty or blank cells, is skipped. */
  predicate IsBlankRow(row: Row) {
    forall i :: 0 <= i < |row| ==> row[i].None? || Strip(row[i].value) == []
  }

  /** The cell of `f` in `row`, if the field has a column, the row reaches it and the cell is not empty. */
  function CellOf(row: Row, colMap: map<Field, nat>, f: Field): (c: Cell)
    ensures c.Some? <==> f in colMap && colMap[f] < |row| && row[colMap[f]].Some?
    ensures c.Some? ==> c == row[colMap[f]]
  {
    if f in colMap && colMap[f] < |row| then row[colMap[f]] else None
  }

  /** `get_val`: the stripped text of the field's cell, or `default` when it is missing or blank. */
  function GetVal(row: Row, colMap: map<Field, nat>, f: Field, default: string): (r: string)
    ensures CellOf(row, colMap, f).None? ==> r == default
    ensures CellOf(row, colMap, f).Some? && IsBlank(CellOf(row, colMap, f).value) ==> r == default
    ensures CellOf(row, colMap, f).Some? && !IsBlank(CellOf(row, colMap, f).value)
            ==> r == Strip(CellOf(row, colMap, f).value) && r != []
  {
    match CellOf(row, colMap, f)
    case None => default
    case Some(t) => var v := Strip(t); if v == [] then default else v
  }

  /** `get_num`: the number the field's cell holds, or "N/A" when it is missing or is not a number.
      `parse` stands for Python's `float` on the cell's text. */
  function GetNum(row: Row, colMap: map<Field, nat>, f: Field, parse: string -> Option<real>): (r: Rating)
    ensures r.Stars? <==> CellOf(row, colMap, f).Some? && parse(CellOf(row, colMap, f).value).Some?
    ensures r.Stars? ==> r.value == parse(CellOf(row, colMap, f).value).value
  {
    match CellOf(row, colMap, f)
    case None => NoRating
    case Some(t) =>
      match parse(t)
      case None => NoRating
      case Some(x) => Stars(x)
  }

  /** `int(x)` on a float: the integer part, rounding toward zero. */
  function TruncateToInt(x: real): (n: int)
    ensures 0.0 <= x ==> n as real <= x < n as real + 1.0
    ensures x <= 0.0 ==> n as real - 1.0 < x <= n as real
  {
    if x >= 0.0 then x.Floor else -((-x).Floor)
  }

  /** `get_int`: the integer part of the number in the field's cell, or 0. */
  function GetInt(row: Row, colMap: map<Field, nat>, f: Field, parse: string -> Option<real>): (r: int)
    ensures CellOf(row, colMap, f).None? ==> r == 0
    ensures CellOf(row, colMap, f).Some? && parse(CellOf(row, colMap, f).value).None? ==> r == 0
    ensures CellOf(row, colMap, f).Some? && parse(CellOf(row, colMap, f).value).Some?
            ==> r == TruncateToInt(parse(CellOf(row, colMap, f).value).value)
  {
    match CellOf(row, colMap, f)
    case None => 0
    case Some(t) =>
      match parse(t)
      case None => 0
      case Some(x) => TruncateToInt(x)
  }

  /** The record one data row gives, or `None` for a row that is skipped: a blank row,
      or one whose name is blank or "N/A". Every record read back is marked as existing. */
  function ParseRow(row: Row, colMap: map<Field, nat>, parse: string -> Option<real>): (r: Option<Store>)
    ensures r.None? <==> IsBlankRow(row) || GetVal(row, colMap, NameField, "") in {"", NotAvailable}
    ensures r.Some? ==> r.value.name != "" && r.value.name != NotAvailable
    ensures r.Some? ==> r.value.source == Some(Existing) && r.value.postcode.Some?
  {
    if IsBlankRow(row) then None
    else
      var name := GetVal(row, colMap, NameField, "");
      if name == "" || name == NotAvailable then None
      else Some(Store(
        name := name,
        address := GetVal(row, colMap, AddressField, NotAvailable),
        phone := GetVal(row, colMap, PhoneField, NotAvailable),
        rating := GetNum(row, colMap, RatingField, parse),
        totalReviews := GetInt(row, colMap, ReviewsField, parse),
        category := GetVal(row, colMap, CategoryField, NotAvailable),
        website := GetVal(row, colMap, WebsiteField, NotAvailable),
        openingHours := GetVal(row, colMap, HoursField, NotAvailable),
        postcode := Some(GetVal(row, colMap, PostcodeField, NoPostcode)),
        latitude := CellText(GetVal(row, colMap, LatitudeField, "")),
        longitude := CellText(GetVal(row, colMap, LongitudeField, "")),
        mapsUrl := GetVal(row, colMap, MapsUrlField, NotAvailable),
        source := Some(Existing)))
  }

  /** `ParseRow` with the column map and the number parser fixed. */
  function RowParser(colMap: map<Field, nat>, parse: string -> Option<real>): Row -> Option<Store> {
    row => ParseRow(row, colMap, parse)
  }

  /** The records of the data rows that are not skipped, in row order. */
  function Candidates(rows: seq<Row>, colMap: map<Field, nat>, parse: string -> Option<real>): (r: seq<Store>)
    ensures |r| <= |rows|
    ensures forall s :: s in r ==> s.source == Some(Existing) && s.name != "" && s.name != NotAvailable
  {
    var r := FilterMap(rows, RowParser(colMap, parse));
    assert forall s :: s in r ==> s.source == Some(Existing) && s.name != "" && s.name != NotAvailable by {
      forall s | s in r
        ensures s.source == Some(Existing) && s.name != "" && s.name != NotAvailable
      {
        FilterMapFrom(rows, RowParser(colMap, parse), s);
      }
    }
    r
  }

  /** The stores of a report: each candidate whose key is neither the empty key "|" nor
      the key of an earlier candidate. */
  function LoadedStores(rows: seq<Row>, colMap: map<Field, nat>, parse: string -> Option<real>): seq<Store> {
    FirstFresh({EmptyKey}, Candidates(rows, colMap, parse), StoreKey)
  }

  /** One record offered to the seen set: it is kept, and its key recorded, when the key is
      neither the empty key nor one already seen. */
  method Admit(store: Store, stores: seq<Store>, keys: set<string>, ghost offered: seq<Store>)
      returns (stores': seq<Store>, keys': set<string>)
    requires stores == FirstFresh({EmptyKey}, offered, StoreKey) && keys == KeysOf(stores, StoreKey)
    ensures stores' == FirstFresh({EmptyKey}, offered + [store], StoreKey)
    ensures keys' == KeysOf(stores', StoreKey)
  {
    FirstFreshStep({EmptyKey}, offered, store, StoreKey);
    var key := StoreKey(store);
    if key !in keys && key != EmptyKey {
      KeysOfAppend(stores, [store], StoreKey);
      assert KeysOf([store], StoreKey) == {key};
      stores', keys' := stores + [store], keys + {key};
    } else {
      assert stores + [] == stores;
      stores', keys' := stores, keys;
    }
  }

  /** The loop over the data rows: parse each row and offer its record to the seen set.
      `parser` is `ParseRow` with the column map fixed, as the row helpers of the original
      close over it. */
  method ReadStores(rows: seq<Row>, parser: Row -> Option<Store>) returns (stores: seq<Store>, keys: set<string>)
    ensures stores == FirstFresh({EmptyKey}, FilterMap(rows, parser), StoreKey)
    ensures keys == KeysOf(stores, StoreKey)
  {
    stores, keys := [], {};
    for i := 0 to |rows|
      invariant stores == FirstFresh({EmptyKey}, FilterMap(rows[..i], parser), StoreKey)
      invariant keys == KeysOf(stores, StoreKey)
    {
      var parsed := parser(rows[i]);
      FilterMapPrefix(rows, i, parser);
      if parsed.Some? {
        stores, keys := Admit(parsed.value, stores, keys, FilterMap(rows[..i], parser));
      }
    }
    assert rows[..|rows|] == rows;
  }

  /** What reading the rows of a sheet gives: the empty-file error exactly for a sheet with
      no rows, the header error exactly when none of the first rows is a header row, and
      otherwise the stores of the rows below the first header row, read through that row's
      column map; the keys are always those of the stores, and an error comes with neither. */
  ghost predicate RowsLoaded(rows: seq<Row>, parse: string -> Option<real>,
                             stores: seq<Store>, keys: set<string>, err: Option<LoadError>)
  {
    && (err == Some(EmptyFile) <==> rows == [])
    && (err == Some(HeaderNotFound)
        <==> rows != [] && forall j :: 0 <= j < |rows| && j < HeaderSearchRows ==> !IsHeaderRow(rows[j]))
    && (err.Some? ==> err.value in {EmptyFile, HeaderNotFound} && stores == [] && keys == {})
    && (err.None? ==> exists h, colMap ::
          && 0 <= h < HeaderSearchRows && h < |rows| && IsHeaderRow(rows[h])
          && (forall j :: 0 <= j < h ==> !IsHeaderRow(rows[j]))
          && IsColumnMap(Headers(rows[h]), colMap)
          && stores == LoadedStores(rows[h + 1..], colMap, parse))
    && keys == KeysOf(stores, StoreKey)
  }

  /** `load_existing_excel` on the rows of the chosen sheet: the stores and their keys,
      or an error with neither. */
  method LoadRows(rows: seq<Row>, parse: string -> Option<real>)
      returns (stores: seq<Store>, keys: set<string>, err: Option<LoadError>)
    ensures RowsLoaded(rows, parse, stores, keys, err)
  {
    if rows == [] {
      NothingLoaded(rows, parse, EmptyFile);
      return [], {}, Some(EmptyFile);
    }
    var h := FindHeaderRow(rows);
    if h.None? {
      NothingLoaded(rows, parse, HeaderNotFound);
      return [], {}, Some(HeaderNotFound);
    }
    stores, keys, err := ReadBelowHeader(rows, h.value, parse);
  }

  /** The part of `load_existing_excel` after the header row is found: map the columns
      and read the rows below it. The name column is always found. */
  method ReadBelowHeader(rows: seq<Row>, h: nat, parse: string -> Option<real>)
      returns (stores: seq<Store>, keys: set<string>, err: Option<LoadError>)
    requires h < HeaderSearchRows && h < |rows| && IsHeaderRow(rows[h])
    requires forall j :: 0 <= j < h ==> !IsHeaderRow(rows[j])
    ensures RowsLoaded(rows, parse, stores, keys, err) && err.None?
  {
    var colMap := BuildColumnMap(Headers(rows[h]));
    HeaderRowNamesName(rows[h], colMap);
    if NameField !in colMap {
      assert false;
      return [], {}, Some(NameColumnMissing);
    }
    stores, keys := ReadStores(rows[h + 1..], RowParser(colMap, parse));
    err := None;
    HeaderFound(rows, h, colMap, parse, stores, keys);
  }

  /** A sheet with no rows gives the empty-file error, and one with rows but no header row
      among the first ones the header error, each with no stores and no keys. */
  lemma NothingLoaded(rows: seq<Row>, parse: string -> Option<real>, e: LoadError)
    requires e == EmptyFile ==> rows == []
    requires e == HeaderNotFound ==> rows != [] && forall j :: 0 <= j < |rows| && j < HeaderSearchRows ==> !IsHeaderRow(rows[j])
    requires e in {EmptyFile, HeaderNotFound}
    ensures RowsLoaded(rows, parse, [], {}, Some(e))
  {
    assert KeysOf([], StoreKey) == {};
  }

  /** The rows below the first header row, read through its column map, are what a sheet
      with a header row loads to. */
  lemma HeaderFound(rows: seq<Row>, h: nat, colMap: map<Field, nat>, parse: string -> Option<real>,
                    stores: seq<Store>, keys: set<string>)
    requires h < HeaderSearchRows && h < |rows| && IsHeaderRow(rows[h])
    requires forall j :: 0 <= j < h ==> !IsHeaderRow(rows[j])
    requires IsColumnMap(Headers(rows[h]), colMap)
    requires stores == FirstFresh({EmptyKey}, FilterMap(rows[h + 1..], RowParser(colMap, parse)), StoreKey)
    requires keys == KeysOf(stores, StoreKey)
    ensures RowsLoaded(rows, parse, stores, keys, None)
  {
    assert stores == LoadedStores(rows[h + 1..], colMap, parse);
  }

  /** `load_existing_excel`: open the workbook, choose a sheet and read it. The workbook
      library always gives at least one sheet. */
  method LoadExisting(book: Opened, parse: string -> Option<real>)
      returns (stores: seq<Store>, keys: set<string>, err: Option<LoadError>)
    requires book.Opened? ==> |book.sheets| > 0
    ensures book.OpenFailed? ==> err == Some(UnreadableFile(book.detail))
    ensures book.Opened? ==> exists c: nat ::
              IsChosenSheet(Titles(book.sheets), c) && RowsLoaded(book.sheets[c].rows, parse, stores, keys, err)
    ensures err.Some? ==> stores == [] && keys == {}
    ensures keys == KeysOf(stores, StoreKey)
    ensures err != Some(NameColumnMissing)
    ensures forall i, j :: 0 <= i < j < |stores| ==> StoreKey(stores[i]) != StoreKey(stores[j])
    ensures forall s :: s in stores ==> StoreKey(s) != EmptyKey && s.source == Some(Existing)
  {
    if book.OpenFailed? {
      return [], {}, Some(UnreadableFile(book.detail));
    }
    var chosen := SelectSheet(Titles(book.sheets));
    stores, keys, err := LoadRows(book.sheets[chosen].rows, parse);
    if err.None? {
      ghost var rows := book.sheets[chosen].rows;
      ghost var h, colMap :| && 0 <= h < |rows| && stores == LoadedStores(rows[h + 1..], colMap, parse);
      LoadedStoresDistinct(rows[h + 1..], colMap, parse);
    }
  }

  // ---------------------------------------------------------------- properties of the result

  /** The stores read back have pairwise distinct keys, none of them the empty key,
      and all are marked as existing. */
  lemma LoadedStoresDistinct(rows: seq<Row>, colMap: map<Field, nat>, parse: string -> Option<real>)
    ensures forall i, j :: 0 <= i < j < |LoadedStores(rows, colMap, parse)|
              ==> StoreKey(LoadedStores(rows, colMap, parse)[i]) != StoreKey(LoadedStores(rows, colMap, parse)[j])
    ensures forall s :: s in LoadedStores(rows, colMap, parse) ==> StoreKey(s) != EmptyKey
    ensures forall s :: s in LoadedStores(rows, colMap, parse) ==> s.source == Some(Existing)
  {
    var cs := Candidates(rows, colMap, parse);
    FirstFreshDistinct({EmptyKey}, cs, StoreKey);
    FirstFreshSubset({EmptyKey}, cs, StoreKey);
    forall s | s in LoadedStores(rows, colMap, parse)
      ensures StoreKey(s) != EmptyKey
    {
      var i :| 0 <= i < |LoadedStores(rows, colMap, parse)| && LoadedStores(rows, colMap, parse)[i] == s;
    }
  }

  /** The keys returned are those of every row read, less the empty key: a later row
      whose key was already seen adds nothing. */
  lemma LoadedKeys(rows: seq<Row>, colMap: map<Field, nat>, parse: string -> Option<real>)
    ensures KeysOf(LoadedStores(rows, colMap, parse), StoreKey)
         == KeysOf(Candidates(rows, colMap, parse), StoreKey) - {EmptyKey}
  {
    FirstFreshKeys({EmptyKey}, Candidates(rows, colMap, parse), StoreKey);
  }

  /** A field has no usable text when it has no column, the row is too short, the cell
      is empty or it holds only white space. */
  predicate Missing(row: Row, colMap: map<Field, nat>, f: Field) {
    CellOf(row, colMap, f).None? || IsBlank(CellOf(row, colMap, f).value)
  }

  /** The defaults of a record read back: "N/A" for text, an em dash for the postcode,
      "" for the coordinates, "N/A" for the rating and 0 for the review count; a field
      with usable text keeps it, stripped. */
  lemma ParsedDefaults(row: Row, colMap: map<Field, nat>, parse: string -> Option<real>)
    requires ParseRow(row, colMap, parse).Some?
    ensures var s := ParseRow(row, colMap, parse).value;
      && (Missing(row, colMap, AddressField) ==> s.address == NotAvailable)
      && (Missing(row, colMap, PhoneField) ==> s.phone == NotAvailable)
      && (Missing(row, colMap, CategoryField) ==> s.category == NotAvailable)
      && (Missing(row, colMap, WebsiteField) ==> s.website == NotAvailable)
      && (Missing(row, colMap, HoursField) ==> s.openingHours == NotAvailable)
      && (Missing(row, colMap, MapsUrlField) ==> s.mapsUrl == NotAvailable)
      && (Missing(row, colMap, PostcodeField) ==> s.postcode == Some(NoPostcode))
      && (Missing(row, colMap, LatitudeField) ==> s.latitude == CellText(""))
      && (Missing(row, colMap, LongitudeField) ==> s.longitude == CellText(""))
      && (CellOf(row, colMap, RatingField).None? ==> s.rating == NoRating)
      && (CellOf(row, colMap, ReviewsField).None? ==> s.totalReviews == 0)
      && s.name == Strip(CellOf(row, colMap, NameField).value)
      && (!Missing(row, colMap, AddressField) ==> s.address == Strip(CellOf(row, colMap, AddressField).value))
      && (!Missing(row, colMap, PhoneField) ==> s.phone == Strip(CellOf(row, colMap, PhoneField).value))
      && (!Missing(row, colMap, CategoryField) ==> s.category == Strip(CellOf(row, colMap, CategoryField).value))
      && (!Missing(row, colMap, WebsiteField) ==> s.website == Strip(CellOf(row, colMap, WebsiteField).value))
      && (!Missing(row, colMap, HoursField) ==> s.openingHours == Strip(CellOf(row, colMap, HoursField).value))
      && (!Missing(row, colMap, MapsUrlField) ==> s.mapsUrl == Strip(CellOf(row, colMap, MapsUrlField).value))
      && (!Missing(row, colMap, PostcodeField) ==> s.postcode == Some(Strip(CellOf(row, colMap, PostcodeField).value)))
      && (!Missing(row, colMap, LatitudeField) ==> s.latitude == CellText(Strip(CellOf(row, colMap, LatitudeField).value)))
      && (!Missing(row, colMap, LongitudeField) ==> s.longitude == CellText(Strip(CellOf(row, colMap, LongitudeField).value)))
  {
  }

  /** The number fields of a record read back, for a parser that, like Python's `float`,
      rejects empty and blank text: a missing or blank rating cell gives "N/A" and a
      missing or blank review-count cell gives 0; a cell that parses gives its value,
      the review count cut to its integer part. */
  lemma ParsedNumberDefaults(row: Row, colMap: map<Field, nat>, parse: string -> Option<real>)
    requires ParseRow(row, colMap, parse).Some?
    requires forall t :: IsBlank(t) ==> parse(t).None?
    ensures var s := ParseRow(row, colMap, parse).value;
      && (Missing(row, colMap, RatingField) ==> s.rating == NoRating)
      && (Missing(row, colMap, ReviewsField) ==> s.totalReviews == 0)
      && (CellOf(row, colMap, RatingField).Some? && parse(CellOf(row, colMap, RatingField).value).Some?
          ==> s.rating == Stars(parse(CellOf(row, colMap, RatingField).value).value))
      && (CellOf(row, colMap, ReviewsField).Some? && parse(CellOf(row, colMap, ReviewsField).value).Some?
          ==> s.totalReviews == TruncateToInt(parse(CellOf(row, colMap, ReviewsField).value).value))
  {
  }
}
