/**
 * The postcode districts offered for a location: `fetch_postcodes_for_location`
 * (app.py, lines 30-91). The web service is replaced by its replies: the place
 * search, the nearby-outcode lookup of each place found, and the direct lookup
 * of the location as an outcode. The districts are collected in the order the
 * replies list them, each outcode once, and sorted by letters, then number.
 */
module Outcodes {
  import opened Wrappers
  import opened Text
  import opened FirstSeen
  import Sorting

  /** What a request gives back: a body when the status is 200, nothing for any other
      status, or an exception (a network failure or a malformed body). */
  datatype Reply<T> = Ok(body: T) | BadStatus | Raised

  /** A place the search finds. */
  datatype Place = Place(latitude: Option<real>, longitude: Option<real>)

  /** An outcode record as the service returns it. */
  datatype OutcodeRecord = OutcodeRecord(outcode: string, adminDistrict: seq<string>, latitude: Option<real>, longitude: Option<real>)

  /** An entry of the result. */
  datatype Entry = Entry(outcode: string, adminDistrict: string, latitude: Option<real>, longitude: Option<real>)

  function ToEntry(r: OutcodeRecord): Entry {
    Entry(r.outcode, Join(r.adminDistrict, ", "), r.latitude, r.longitude)
  }

  function Entries(rs: seq<OutcodeRecord>): (r: seq<Entry>)
    ensures |r| == |rs|
  {
    seq(|rs|, i requires 0 <= i < |rs| => ToEntry(rs[i]))
  }

  function Code(e: Entry): string {
    e.outcode
  }

  /** `if lat and lon`: both present and non-zero. */
  predicate HasCoordinates(p: Place) {
    p.latitude.Some? && p.latitude.value != 0.0 && p.longitude.Some? && p.longitude.value != 0.0
  }

  /** The outcodes the nearby lookups of `places` give, in order. An exception ends the
      whole search: the places after it are not looked up. */
  function PlaceCandidates(places: seq<Place>, nearby: Place -> Reply<seq<OutcodeRecord>>): seq<Entry> {
    if places == [] then []
    else if !HasCoordinates(places[0]) then PlaceCandidates(places[1..], nearby)
    else match nearby(places[0])
      case Ok(rs) => Entries(rs) + PlaceCandidates(places[1..], nearby)
      case BadStatus => PlaceCandidates(places[1..], nearby)
      case Raised => []
  }

  function SearchCandidates(search: Reply<seq<Place>>, nearby: Place -> Reply<seq<OutcodeRecord>>): seq<Entry> {
    if search.Ok? then PlaceCandidates(search.body, nearby) else []
  }

  /** `s.upper()` on ASCII letters; other characters are kept. */
  function Upper(s: string): (r: string)
    ensures |r| == |s|
    ensures forall i :: 0 <= i < |s| ==> (IsAsciiLetter(r[i]) <==> IsAsciiLetter(s[i])) && !IsAsciiLower(r[i])
  {
    if s == [] then []
    else [if IsAsciiLower(s[0]) then (s[0] as int - 32) as char else s[0]] + Upper(s[1..])
  }

  /** Whether the location is also looked up as an outcode: once stripped and upper-cased
      it has at most four characters, the first a letter. */
  predicate WantsDirect(location: string)
    requires Strip(location) != []
  {
    var u := Upper(Strip(location));
    |u| <= 4 && IsAsciiLetter(u[0])
  }

  function DirectCandidates(location: string, direct: Reply<OutcodeRecord>): seq<Entry>
    requires Strip(location) != []
  {
    if WantsDirect(location) && direct.Ok? then [ToEntry(direct.body)] else []
  }

  /** The characters of `s` passing `p`, in order: `"".join(c for c in s if p(c))`. */
  function Keep(s: string, p: char -> bool): (r: string)
    ensures |r| <= |s| && forall i :: 0 <= i < |r| ==> p(r[i])
  {
    if s == [] then [] else (if p(s[0]) then [s[0]] else []) + Keep(s[1..], p)
  }

  /** `sort_key`: the letters of the outcode, and the number its digits spell (0 when it
      has none). */
  function OutcodeKey(e: Entry): (string, int) {
    var digits := Keep(e.outcode, IsDigit);
    (Keep(e.outcode, IsAsciiLetter), if digits == [] then 0 else DecimalValue(digits))
  }

  /** Python's `<` on the key pairs. */
  predicate KeyLt(a: (string, int), b: (string, int)) {
    StrLt(a.0, b.0) || (a.0 == b.0 && a.1 < b.1)
  }

  lemma KeyLtOrder()
    ensures Sorting.StrictTotalOrder(KeyLt)
  {
    forall a: (string, int)
      ensures !KeyLt(a, a)
    {
      StrLtIrreflexive(a.0);
    }
    forall a: (string, int), b: (string, int), c: (string, int) | KeyLt(a, b) && KeyLt(b, c)
      ensures KeyLt(a, c)
    {
      if StrLt(a.0, b.0) && StrLt(b.0, c.0) {
        StrLtTransitive(a.0, b.0, c.0);
      }
    }
    forall a: (string, int), b: (string, int)
      ensures a == b || KeyLt(a, b) || KeyLt(b, a)
    {
      StrLtTotal(a.0, b.0);
    }
  }

  /** Every outcode the replies offer, in the order they are considered. */
  function Candidates(location: string, search: Reply<seq<Place>>, nearby: Place -> Reply<seq<OutcodeRecord>>,
                      direct: Reply<OutcodeRecord>): seq<Entry>
    requires Strip(location) != []
  {
    SearchCandidates(search, nearby) + DirectCandidates(location, direct)
  }

  /** The first entry of every non-empty outcode of `offered`, sorted by `sort_key`. */
  function Listed(offered: seq<Entry>): seq<Entry> {
    Sorting.SortBy(FirstFresh({""}, offered, Code), OutcodeKey, KeyLt)
  }

  /** The result: the outcodes the lookups offer, listed. */
  function Fetched(location: string, search: Reply<seq<Place>>, nearby: Place -> Reply<seq<OutcodeRecord>>,
                   direct: Reply<OutcodeRecord>): seq<Entry>
    requires Strip(location) != []
  {
    Listed(Candidates(location, search, nearby, direct))
  }

  /** `if outcode and outcode not in seen: seen.add(outcode); results.append(...)` */
  method Offer(e: Entry, results: seq<Entry>, seen: set<string>, ghost before: seq<Entry>)
      returns (results': seq<Entry>, seen': set<string>)
    requires results == FirstFresh({""}, before, Code) && seen == KeysOf(results, Code)
    ensures results' == FirstFresh({""}, before + [e], Code) && seen' == KeysOf(results', Code)
  {
    FirstFreshStep({""}, before, e, Code);
    if e.outcode != "" && e.outcode !in seen {
      KeysOfAppend(results, [e], Code);
      assert KeysOf([e], Code) == {e.outcode};
      seen' := seen + {e.outcode};
      results' := results + [e];
    } else {
      results', seen' := results, seen;
      assert results' + [] == results';
    }
  }

  /** The same for each entry of `offered` in turn. */
  method OfferAll(offered: seq<Entry>, results: seq<Entry>, seen: set<string>, ghost before: seq<Entry>)
      returns (results': seq<Entry>, seen': set<string>)
    requires results == FirstFresh({""}, before, Code) && seen == KeysOf(results, Code)
    ensures results' == FirstFresh({""}, before + offered, Code) && seen' == KeysOf(results', Code)
  {
    results', seen' := results, seen;
    assert before + offered[..0] == before;
    for j := 0 to |offered|
      invariant results' == FirstFresh({""}, before + offered[..j], Code)
      invariant seen' == KeysOf(results', Code)
    {
      assert before + offered[..j + 1] == (before + offered[..j]) + [offered[j]];
      results', seen' := Offer(offered[j], results', seen', before + offered[..j]);
    }
    assert offered[..|offered|] == offered;
  }

  /** `fetch_postcodes_for_location`. The route only calls it with a location that is not
      blank. */
  method FetchPostcodes(location: string, search: Reply<seq<Place>>, nearby: Place -> Reply<seq<OutcodeRecord>>,
                        direct: Reply<OutcodeRecord>) returns (results: seq<Entry>)
    requires Strip(location) != []
    ensures results == Fetched(location, search, nearby, direct)
  {
    results := [];
    var seen: set<string> := {};
    if search.Ok? {
      results, seen := SearchNearby(search.body, nearby);
    }
    ghost var offered := SearchCandidates(search, nearby);
    if WantsDirect(location) && direct.Ok? {
      results, seen := OfferAll([ToEntry(direct.body)], results, seen, offered);
    } else {
      assert offered + [] == offered;
    }
    results := Sorting.SortBy(results, OutcodeKey, KeyLt);
  }

  /** The loop over the places found, from empty `results` and `seen`. */
  method SearchNearby(places: seq<Place>, nearby: Place -> Reply<seq<OutcodeRecord>>)
      returns (results: seq<Entry>, seen: set<string>)
    ensures results == FirstFresh({""}, PlaceCandidates(places, nearby), Code)
    ensures seen == KeysOf(results, Code)
  {
    results, seen := [], {};
    ghost var offered: seq<Entry> := [];
    var i := 0;
    var failed := false;
    while i < |places| && !failed
      invariant i <= |places|
      invariant results == FirstFresh({""}, offered, Code) && seen == KeysOf(results, Code)
      invariant offered + (if failed then [] else PlaceCandidates(places[i..], nearby)) == PlaceCandidates(places, nearby)
      decreases |places| - i, !failed
    {
      var place := places[i];
      assert places[i..][1..] == places[i + 1..];
      if HasCoordinates(place) {
        var reply := nearby(place);
        match reply {
          case Ok(records) =>
            var entries := Entries(records);
            results, seen := OfferAll(entries, results, seen, offered);
            offered := offered + entries;
          case BadStatus =>
          case Raised =>
            failed := true;
        }
      }
      if !failed {
        i := i + 1;
      }
    }
    if !failed {
      assert places[i..] == [];
    }
    assert offered + [] == offered;
  }

  // ---------------------------------------------------------------- what the result promises

  /** Each outcode appears once and none is empty; the result holds exactly the first
      entry of every outcode offered, ordered by `sort_key`. */
  lemma ListedShape(offered: seq<Entry>)
    ensures var r := Listed(offered);
      && multiset(r) == multiset(FirstFresh({""}, offered, Code))
      && Sorting.SortedBy(r, OutcodeKey, KeyLt)
      && Sorting.DistinctKeys(r, Code)
      && (forall i :: 0 <= i < |r| ==> r[i].outcode != "")
  {
    var kept := FirstFresh({""}, offered, Code);
    var r := Listed(offered);
    KeyLtOrder();
    Sorting.SortBySorted(kept, OutcodeKey, KeyLt);
    FirstFreshDistinct({""}, offered, Code);
    assert Sorting.DistinctKeys(kept, Code);
    Sorting.PermutationKeepsDistinctKeys(kept, r, Code);
    forall i | 0 <= i < |r|
      ensures r[i].outcode != ""
    {
      assert r[i] in multiset(kept);
      var k :| 0 <= k < |kept| && kept[k] == r[i];
    }
  }

  /** Every non-empty outcode offered appears in the result. */
  lemma ListedCovers(offered: seq<Entry>, c: string)
    requires c != "" && c in KeysOf(offered, Code)
    ensures exists i :: 0 <= i < |Listed(offered)| && Listed(offered)[i].outcode == c
  {
    var kept := FirstFresh({""}, offered, Code);
    var r := Listed(offered);
    FirstFreshKeys({""}, offered, Code);
    assert c in KeysOf(kept, Code);
    var e :| e in kept && Code(e) == c;
    assert e in multiset(r);
    var i :| 0 <= i < |r| && r[i] == e;
  }

  /** The digits compare as a number: "SW2" comes before "SW10" although the strings
      compare the other way round. */
  lemma NumberedDistrictsInNumericOrder(a: Entry, b: Entry)
    requires a.outcode == "SW2" && b.outcode == "SW10"
    ensures KeyLt(OutcodeKey(a), OutcodeKey(b))
    ensures StrLt(b.outcode, a.outcode)
  {
    assert Keep("SW2", IsDigit) == "2";
    assert Keep("SW10", IsDigit) == "10";
    assert Keep("SW2", IsAsciiLetter) == "SW";
    assert Keep("SW10", IsAsciiLetter) == "SW";
    assert DecimalValue("10") == 10 by {
      assert "10"[..1] == "1";
    }
  }

  /** A location is looked up directly exactly when, stripped, it has at most four
      characters and starts with a letter of either case. */
  lemma WantsDirectIff(location: string)
    requires Strip(location) != []
    ensures WantsDirect(location) <==> |Strip(location)| <= 4 && IsAsciiLetter(Strip(location)[0])
  {
  }

  /** A short code is looked up directly, whatever its case. */
  lemma ShortCodeLookedUp()
    ensures Strip("sw1") == "sw1" && WantsDirect("sw1")
  {
    assert TrimStart("sw1") == "sw1";
    assert TrimEnd("sw1") == "sw1";
    assert Upper("sw1") == "SW1";
  }

  /** A code that starts with a digit is not looked up directly. */
  lemma DigitFirstNotLookedUp()
    ensures Strip("1ab") == "1ab" && !WantsDirect("1ab")
  {
    assert TrimStart("1ab") == "1ab";
    assert TrimEnd("1ab") == "1ab";
    assert Upper("1ab")[0] == '1';
  }
}
