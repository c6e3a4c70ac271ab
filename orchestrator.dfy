/**
 * The acceptance loop of `scrape_postcodes` (scraper.py, lines 372-461). The
 * browser session is replaced by its outcome: for each postcode, the list of
 * records the page yielded. A record is accepted when its key is not yet in
 * the seen set (which starts as the keys of the uploaded report); accepted
 * records are stamped with the postcode and marked new, and each postcode gets
 * a summary entry.
 */
module Orchestrator {
  import opened Wrappers
  import opened Lists
  import opened Stores
  import opened Dedup
  import opened FirstSeen
  import Sorting

  /** One entry of `postcode_summary`. `avgRating` is `None` when no accepted record has a rating. */
  datatype Summary = Summary(count: nat, phoneCount: nat, avgRating: Option<real>)

  /** The figures of the progress line logged after each postcode. */
  datatype Progress = Progress(postcode: string, found: nat, newCount: nat, skipped: nat, totalNew: nat)

  /** `postcode_summary`: a dict from postcode to summary, in insertion order. */
  type SummaryTable = seq<(string, Summary)>

  /** The value stored under `postcode`, if any. */
  function Lookup(t: SummaryTable, postcode: string): Option<Summary> {
    if t == [] then None else if t[0].0 == postcode then Some(t[0].1) else Lookup(t[1..], postcode)
  }

  predicate DistinctPostcodes(t: SummaryTable) {
    forall i, j :: 0 <= i < j < |t| ==> t[i].0 != t[j].0
  }

  /** `t[postcode] = s`: a postcode already present keeps its place and takes the new value,
      a new one is added at the end; every other entry is unchanged. */
  function Put(t: SummaryTable, postcode: string, s: Summary): (r: SummaryTable)
    ensures Lookup(r, postcode) == Some(s)
    ensures forall q :: q != postcode ==> Lookup(r, q) == Lookup(t, q)
    ensures Lookup(t, postcode).Some? ==> |r| == |t|
    ensures Lookup(t, postcode).None? ==> r == t + [(postcode, s)]
  {
    if t == [] then [(postcode, s)]
    else if t[0].0 == postcode then [(postcode, s)] + t[1..]
    else [t[0]] + Put(t[1..], postcode, s)
  }

  /** Every entry of `Put`'s result holds the new postcode or one that was there before. */
  lemma {:induction false} PutKeys(t: SummaryTable, postcode: string, s: Summary, i: nat)
    requires i < |Put(t, postcode, s)|
    ensures Put(t, postcode, s)[i].0 == postcode || Lookup(t, Put(t, postcode, s)[i].0).Some?
  {
    var r := Put(t, postcode, s);
    if t != [] && i > 0 {
      if t[0].0 == postcode {
        LookupFound(t, i);
      } else {
        PutKeys(t[1..], postcode, s, i - 1);
      }
    }
  }

  /** A table built by `Put` never holds a postcode twice. */
  lemma {:induction false} PutDistinct(t: SummaryTable, postcode: string, s: Summary)
    requires DistinctPostcodes(t)
    ensures DistinctPostcodes(Put(t, postcode, s))
  {
    if t != [] && t[0].0 != postcode {
      var rest := Put(t[1..], postcode, s);
      PutDistinct(t[1..], postcode, s);
      LookupAbsent(t[1..], t[0].0);
      forall i | 0 <= i < |rest|
        ensures rest[i].0 != t[0].0
      {
        PutKeys(t[1..], postcode, s, i);
      }
    }
  }

  /** The key of any entry is found by `Lookup`. */
  lemma {:induction false} LookupFound(t: SummaryTable, i: nat)
    requires i < |t|
    ensures Lookup(t, t[i].0).Some?
  {
    if i > 0 && t[0].0 != t[i].0 {
      LookupFound(t[1..], i - 1);
    }
  }

  /** A postcode no entry holds is not found. */
  lemma {:induction false} LookupAbsent(t: SummaryTable, postcode: string)
    requires forall i :: 0 <= i < |t| ==> t[i].0 != postcode
    ensures Lookup(t, postcode).None?
  {
    if t != [] {
      LookupAbsent(t[1..], postcode);
    }
  }

  /** After `Put`, a postcode is present exactly when it was before or is the one put. */
  lemma PutPresence(t: SummaryTable, postcode: string, s: Summary, q: string)
    ensures Lookup(Put(t, postcode, s), q).Some? <==> Lookup(t, q).Some? || q == postcode
  {
  }

  /** The table left by putting `summaries[i]` for `postcodes[i]`, for each `i` in turn. */
  function Tabulate(postcodes: seq<string>, summaries: seq<Summary>): SummaryTable
    requires |postcodes| == |summaries|
  {
    if postcodes == [] then []
    else Put(Tabulate(postcodes[..|postcodes| - 1], summaries[..|summaries| - 1]),
             postcodes[|postcodes| - 1], summaries[|summaries| - 1])
  }

  lemma {:induction false} TabulateDistinct(postcodes: seq<string>, summaries: seq<Summary>)
    requires |postcodes| == |summaries|
    ensures DistinctPostcodes(Tabulate(postcodes, summaries))
  {
    if postcodes != [] {
      var n := |postcodes| - 1;
      TabulateDistinct(postcodes[..n], summaries[..n]);
      PutDistinct(Tabulate(postcodes[..n], summaries[..n]), postcodes[n], summaries[n]);
    }
  }

  lemma {:induction false} TabulateHas(postcodes: seq<string>, summaries: seq<Summary>, q: string)
    requires |postcodes| == |summaries|
    ensures Lookup(Tabulate(postcodes, summaries), q).Some? <==> q in postcodes
  {
    if postcodes != [] {
      var n := |postcodes| - 1;
      TabulateHas(postcodes[..n], summaries[..n], q);
      InPrefix(postcodes, n + 1, q);
      assert postcodes[..n + 1] == postcodes;
      PutPresence(Tabulate(postcodes[..n], summaries[..n]), postcodes[n], summaries[n], q);
    }
  }

  lemma {:induction false} TabulateKeepsLast(postcodes: seq<string>, summaries: seq<Summary>, j: nat)
    requires j < |postcodes| == |summaries|
    requires forall i :: j < i < |postcodes| ==> postcodes[i] != postcodes[j]
    ensures Lookup(Tabulate(postcodes, summaries), postcodes[j]) == Some(summaries[j])
  {
    var n := |postcodes| - 1;
    if j < n {
      var init, sinit := postcodes[..n], summaries[..n];
      assert init[j] == postcodes[j] && sinit[j] == summaries[j];
      TabulateKeepsLast(init, sinit, j);
    }
  }

  // ---------------------------------------------------------------- accepting one record

  /** `store["postcode"] = postcode; store["_source"] = "new"` */
  function Stamp(s: Store, postcode: string): Store {
    s.(postcode := Some(postcode), source := Some(New))
  }

  /** What a record says about the listing itself, without the stamp. */
  function Listing(s: Store): Store {
    s.(postcode := None, source := None)
  }

  /** Stamping sets the postcode and the source tag and nothing else: the key, the phone
      and the rating stay as they were. */
  lemma StampKeeps(s: Store, postcode: string)
    ensures Stamp(s, postcode).postcode == Some(postcode) && Stamp(s, postcode).source == Some(New)
    ensures Listing(Stamp(s, postcode)) == Listing(s)
    ensures StoreKey(Stamp(s, postcode)) == StoreKey(s)
    ensures HasPhone(Stamp(s, postcode)) == HasPhone(s) && RatingOf(Stamp(s, postcode)) == RatingOf(s)
  {
  }

  /** Every record of `xs`, stamped. */
  function StampAll(xs: seq<Store>, postcode: string): (r: seq<Store>)
    ensures |r| == |xs|
  {
    if xs == [] then [] else StampAll(xs[..|xs| - 1], postcode) + [Stamp(xs[|xs| - 1], postcode)]
  }

  /** Every record of `xs`, without its stamp. */
  function Listings(xs: seq<Store>): seq<Store> {
    seq(|xs|, i requires 0 <= i < |xs| => Listing(xs[i]))
  }

  /** The rating of a record, when it has one. */
  function RatingOf(s: Store): Option<real> {
    if s.rating.Stars? then Some(s.rating.value) else None
  }

  /** `ratings`: the ratings of the accepted records that have one, in order. */
  function Ratings(xs: seq<Store>): seq<real> {
    FilterMap(xs, RatingOf)
  }

  function Sum(xs: seq<real>): real {
    if xs == [] then 0.0 else Sum(xs[..|xs| - 1]) + xs[|xs| - 1]
  }

  /** `sum(ratings) / len(ratings)` */
  function Mean(xs: seq<real>): real
    requires xs != []
  {
    Sum(xs) / (|xs| as real)
  }

  /** The summary entry of a postcode, from the records accepted for it. */
  function SummaryOf(accepted: seq<Store>): Summary {
    var ratings := Ratings(accepted);
    Summary(|accepted|, PhoneCount(accepted), if ratings == [] then None else Some(Mean(ratings)))
  }

  /** A summary counts every record accepted, never more phones than records, and has no
      average exactly when none of the records has a rating. */
  lemma SummaryCounts(accepted: seq<Store>)
    ensures SummaryOf(accepted).count == |accepted|
    ensures SummaryOf(accepted).phoneCount <= SummaryOf(accepted).count
    ensures SummaryOf(accepted).avgRating.None? <==> forall i :: 0 <= i < |accepted| ==> accepted[i].rating == NoRating
  {
    RatingsEmpty(accepted);
  }

  lemma {:induction false} RatingsEmpty(xs: seq<Store>)
    ensures Ratings(xs) == [] <==> forall i :: 0 <= i < |xs| ==> xs[i].rating == NoRating
  {
    if xs != [] {
      var init := xs[..|xs| - 1];
      RatingsEmpty(init);
      FilterMapSnoc(init, xs[|xs| - 1], RatingOf);
      assert init + [xs[|xs| - 1]] == xs;
    }
  }

  /** The state of the loop over one postcode's records once the records `offered` have
      been seen: the ones accepted are `FirstFresh(seen0, offered, StoreKey)`, and every
      variable of the loop is the figure of those. */
  ghost predicate Tallied(postcode: string, seen0: set<string>, base: seq<Store>, offered: seq<Store>,
                          newResults: seq<Store>, seen: set<string>, newCount: nat, skipped: nat,
                          phoneCount: nat, ratings: seq<real>)
  {
    var kept := FirstFresh(seen0, offered, StoreKey);
    && newResults == base + StampAll(kept, postcode)
    && seen == seen0 + KeysOf(kept, StoreKey)
    && newCount == |kept| && newCount + skipped == |offered|
    && phoneCount == PhoneCount(kept) && ratings == Ratings(kept)
  }

  /** One pass of the loop body: the record is skipped when its key is already seen, and
      otherwise recorded, stamped, appended and counted. */
  method AcceptRecord(postcode: string, store: Store, newResults: seq<Store>, seen: set<string>,
                      newCount: nat, skipped: nat, phoneCount: nat, ratings: seq<real>,
                      ghost seen0: set<string>, ghost base: seq<Store>, ghost offered: seq<Store>)
      returns (newResults': seq<Store>, seen': set<string>, newCount': nat, skipped': nat,
               phoneCount': nat, ratings': seq<real>)
    requires Tallied(postcode, seen0, base, offered, newResults, seen, newCount, skipped, phoneCount, ratings)
    ensures Tallied(postcode, seen0, base, offered + [store], newResults', seen', newCount', skipped', phoneCount', ratings')
  {
    ghost var kept := FirstFresh(seen0, offered, StoreKey);
    FirstFreshStep(seen0, offered, store, StoreKey);
    newResults', seen', newCount', skipped', phoneCount', ratings' := newResults, seen, newCount, skipped, phoneCount, ratings;
    var key := StoreKey(store);
    if key in seen {
      skipped' := skipped + 1;
      assert kept + [] == kept;
      return;
    }
    KeptStep(base, kept, store, postcode);
    UnionAssoc(seen0, KeysOf(kept, StoreKey), {key});
    seen' := seen + {key};
    newResults' := newResults + [Stamp(store, postcode)];
    newCount' := newCount + 1;
    if store.phone != NotAvailable {
      phoneCount' := phoneCount + 1;
    }
    if store.rating.Stars? {
      ratings' := ratings + [store.rating.value];
    }
  }

  /** The loop over the records found for one postcode, starting from `newResults` and the
      seen set `seen`. */
  method AcceptBatch(postcode: string, batch: seq<Store>, newResults: seq<Store>, seen: set<string>)
      returns (newResults': seq<Store>, seen': set<string>, newCount: nat, skipped: nat, phoneCount: nat, ratings: seq<real>)
    ensures Tallied(postcode, seen, newResults, batch, newResults', seen', newCount, skipped, phoneCount, ratings)
  {
    newResults', seen' := newResults, seen;
    newCount, skipped, phoneCount, ratings := 0, 0, 0, [];
    for i := 0 to |batch|
      invariant Tallied(postcode, seen, newResults, batch[..i], newResults', seen', newCount, skipped, phoneCount, ratings)
    {
      assert batch[..i + 1] == batch[..i] + [batch[i]];
      newResults', seen', newCount, skipped, phoneCount, ratings :=
        AcceptRecord(postcode, batch[i], newResults', seen', newCount, skipped, phoneCount, ratings, seen, newResults, batch[..i]);
    }
    assert batch[..|batch|] == batch;
  }

  /** What accepting one more record does to each figure of the batch. */
  lemma KeptStep(base: seq<Store>, kept: seq<Store>, store: Store, postcode: string)
    ensures base + StampAll(kept + [store], postcode) == base + StampAll(kept, postcode) + [Stamp(store, postcode)]
    ensures KeysOf(kept + [store], StoreKey) == KeysOf(kept, StoreKey) + {StoreKey(store)}
    ensures PhoneCount(kept + [store]) == PhoneCount(kept) + (if HasPhone(store) then 1 else 0)
    ensures Ratings(kept + [store]) == Ratings(kept) + (if store.rating.Stars? then [store.rating.value] else [])
  {
    assert (kept + [store])[..|kept|] == kept;
    KeysOfAppend(kept, [store], StoreKey);
    assert KeysOf([store], StoreKey) == {StoreKey(store)};
    Sorting.CountIfAppend(kept, [store], HasPhone);
    FilterMapSnoc(kept, store, RatingOf);
  }

  // ---------------------------------------------------------------- the whole run

  /** The keys seen before the postcode at index `k` is processed. */
  ghost function SeenBefore(existing: set<string>, batches: seq<seq<Store>>, k: nat): set<string>
    requires k <= |batches|
  {
    existing + KeysOf(Flatten(batches[..k]), StoreKey)
  }

  /** The records accepted for the postcode at index `k`, before stamping. */
  ghost function BatchNew(existing: set<string>, batches: seq<seq<Store>>, k: nat): seq<Store>
    requires k < |batches|
  {
    FirstFresh(SeenBefore(existing, batches, k), batches[k], StoreKey)
  }

  /** `new_results` after the first `k` postcodes. */
  ghost function NewResults(existing: set<string>, postcodes: seq<string>, batches: seq<seq<Store>>, k: nat): seq<Store>
    requires k <= |batches| == |postcodes|
  {
    if k == 0 then []
    else NewResults(existing, postcodes, batches, k - 1) + StampAll(BatchNew(existing, batches, k - 1), postcodes[k - 1])
  }

  /** The summary of each of the first `k` postcodes, in order. */
  ghost function Summaries(existing: set<string>, batches: seq<seq<Store>>, k: nat): (r: seq<Summary>)
    requires k <= |batches|
    ensures |r| == k
  {
    seq(k, i requires 0 <= i < k => SummaryOf(BatchNew(existing, batches, i)))
  }

  /** `postcode_summary` after the first `k` postcodes. */
  ghost function Table(existing: set<string>, postcodes: seq<string>, batches: seq<seq<Store>>, k: nat): SummaryTable
    requires k <= |batches| == |postcodes|
  {
    Tabulate(postcodes[..k], Summaries(existing, batches, k))
  }

  lemma TableStep(existing: set<string>, postcodes: seq<string>, batches: seq<seq<Store>>, k: nat)
    requires k < |batches| == |postcodes|
    ensures Table(existing, postcodes, batches, k + 1)
         == Put(Table(existing, postcodes, batches, k), postcodes[k], SummaryOf(BatchNew(existing, batches, k)))
  {
    assert postcodes[..k + 1][..k] == postcodes[..k];
    assert Summaries(existing, batches, k + 1)[..k] == Summaries(existing, batches, k);
  }

  /** The progress figures logged for the postcode at index `k`. */
  ghost function ProgressAt(existing: set<string>, postcodes: seq<string>, batches: seq<seq<Store>>, k: nat): Progress
    requires k < |batches| == |postcodes|
  {
    var accepted := |BatchNew(existing, batches, k)|;
    Progress(postcodes[k], |batches[k]|, accepted, |batches[k]| - accepted,
             |NewResults(existing, postcodes, batches, k + 1)|)
  }

  /** The state of `scrape_postcodes` once the first `k` postcodes are done. */
  ghost predicate ScrapedUpTo(existing: set<string>, postcodes: seq<string>, batches: seq<seq<Store>>, k: nat,
                              newResults: seq<Store>, summary: SummaryTable, seen: set<string>, progress: seq<Progress>)
    requires k <= |batches| == |postcodes|
  {
    && newResults == NewResults(existing, postcodes, batches, k)
    && summary == Table(existing, postcodes, batches, k)
    && seen == SeenBefore(existing, batches, k)
    && |progress| == k
    && forall j :: 0 <= j < k ==> progress[j] == ProgressAt(existing, postcodes, batches, j)
  }

  /** The body of the loop over postcodes, for the postcode at index `k`. */
  method ScrapePostcode(existing: set<string>, postcodes: seq<string>, batches: seq<seq<Store>>, k: nat,
                        newResults: seq<Store>, summary: SummaryTable, seen: set<string>, progress: seq<Progress>)
      returns (newResults': seq<Store>, summary': SummaryTable, seen': set<string>, progress': seq<Progress>)
    requires k < |batches| == |postcodes|
    requires ScrapedUpTo(existing, postcodes, batches, k, newResults, summary, seen, progress)
    ensures ScrapedUpTo(existing, postcodes, batches, k + 1, newResults', summary', seen', progress')
  {
    var postcode, batch := postcodes[k], batches[k];
    var newCount, skipped, phoneCount, ratings;
    newResults', seen', newCount, skipped, phoneCount, ratings := AcceptBatch(postcode, batch, newResults, seen);
    SeenStep(existing, batches, k);
    TableStep(existing, postcodes, batches, k);
    var avg := if ratings == [] then None else Some(Mean(ratings));
    summary' := Put(summary, postcode, Summary(newCount, phoneCount, avg));
    progress' := progress + [Progress(postcode, |batch|, newCount, skipped, |newResults'|)];
  }

  /**
   * `scrape_postcodes` from the point where each postcode's records are known:
   * `batches[k]` is what the page yielded for `postcodes[k]`.
   */
  method ScrapePostcodes(existing: set<string>, postcodes: seq<string>, batches: seq<seq<Store>>)
      returns (newResults: seq<Store>, summary: SummaryTable, seen: set<string>, progress: seq<Progress>)
    requires |batches| == |postcodes|
    ensures ScrapedUpTo(existing, postcodes, batches, |batches|, newResults, summary, seen, progress)
    ensures seen == existing + KeysOf(Flatten(batches), StoreKey)
  {
    newResults, summary, seen, progress := [], [], existing, [];
    for k := 0 to |batches|
      invariant ScrapedUpTo(existing, postcodes, batches, k, newResults, summary, seen, progress)
    {
      newResults, summary, seen, progress := ScrapePostcode(existing, postcodes, batches, k, newResults, summary, seen, progress);
    }
    assert batches[..|batches|] == batches;
  }

  /** The seen set after a postcode is the seen set before it plus all of its records' keys. */
  lemma SeenStep(existing: set<string>, batches: seq<seq<Store>>, k: nat)
    requires k < |batches|
    ensures SeenBefore(existing, batches, k + 1)
         == SeenBefore(existing, batches, k) + KeysOf(BatchNew(existing, batches, k), StoreKey)
  {
    FlattenPrefix(batches, k);
    KeysOfAppend(Flatten(batches[..k]), batches[k], StoreKey);
    FirstFreshKeys(SeenBefore(existing, batches, k), batches[k], StoreKey);
  }

  // ---------------------------------------------------------------- what the run promises

  lemma ListingsAppend(xs: seq<Store>, ys: seq<Store>)
    ensures Listings(xs + ys) == Listings(xs) + Listings(ys)
  {
    assert forall i :: 0 <= i < |xs| ==> (xs + ys)[i] == xs[i];
  }

  lemma {:induction false} StampAllStamped(xs: seq<Store>, postcode: string)
    ensures Listings(StampAll(xs, postcode)) == Listings(xs)
    ensures forall i :: 0 <= i < |xs| ==> StampAll(xs, postcode)[i].postcode == Some(postcode)
    ensures forall i :: 0 <= i < |xs| ==> StampAll(xs, postcode)[i].source == Some(New)
  {
    if xs != [] {
      var init, last := xs[..|xs| - 1], xs[|xs| - 1];
      StampAllStamped(init, postcode);
      StampKeeps(last, postcode);
      ListingsAppend(StampAll(init, postcode), [Stamp(last, postcode)]);
      ListingsAppend(init, [last]);
      assert init + [last] == xs;
    }
  }

  /** Stamps aside, the records a run adds are the records of all postcodes in order,
      each kept at the first occurrence of its key and only when the uploaded report
      does not hold that key. */
  lemma {:induction false} NewResultsAreFirstFresh(existing: set<string>, postcodes: seq<string>, batches: seq<seq<Store>>, k: nat)
    requires k <= |batches| == |postcodes|
    ensures Listings(NewResults(existing, postcodes, batches, k))
         == Listings(FirstFresh(existing, Flatten(batches[..k]), StoreKey))
  {
    if k > 0 {
      var j := k - 1;
      NewResultsAreFirstFresh(existing, postcodes, batches, j);
      FlattenPrefix(batches, j);
      FirstFreshAppend(existing, Flatten(batches[..j]), batches[j], StoreKey);
      ListingsAppend(NewResults(existing, postcodes, batches, j), StampAll(BatchNew(existing, batches, j), postcodes[j]));
      StampAllStamped(BatchNew(existing, batches, j), postcodes[j]);
      ListingsAppend(FirstFresh(existing, Flatten(batches[..j]), StoreKey), BatchNew(existing, batches, j));
    }
  }

  /** No two records a run adds share a key, and none has the key of a record of the
      uploaded report. */
  lemma NewResultsDistinct(existing: set<string>, postcodes: seq<string>, batches: seq<seq<Store>>)
    requires |batches| == |postcodes|
    ensures var r := NewResults(existing, postcodes, batches, |batches|);
      && (forall i :: 0 <= i < |r| ==> StoreKey(r[i]) !in existing)
      && (forall i, j :: 0 <= i < j < |r| ==> StoreKey(r[i]) != StoreKey(r[j]))
  {
    var r := NewResults(existing, postcodes, batches, |batches|);
    var all := Flatten(batches[..|batches|]);
    var ff := FirstFresh(existing, all, StoreKey);
    NewResultsAreFirstFresh(existing, postcodes, batches, |batches|);
    FirstFreshDistinct(existing, all, StoreKey);
    assert |r| == |ff| by {
      assert |Listings(r)| == |Listings(ff)|;
    }
    forall i | 0 <= i < |r|
      ensures StoreKey(r[i]) == StoreKey(ff[i])
    {
      assert Listings(r)[i] == Listings(ff)[i];
    }
  }

  /** Every record a run adds carries the postcode it was found for and the tag `New`. */
  lemma {:induction false} NewResultsStamped(existing: set<string>, postcodes: seq<string>, batches: seq<seq<Store>>, k: nat)
    requires k <= |batches| == |postcodes|
    ensures forall i :: 0 <= i < |NewResults(existing, postcodes, batches, k)| ==>
      NewResults(existing, postcodes, batches, k)[i].source == Some(New)
      && NewResults(existing, postcodes, batches, k)[i].postcode.Some?
      && NewResults(existing, postcodes, batches, k)[i].postcode.value in postcodes[..k]
  {
    if k > 0 {
      var j := k - 1;
      var before := NewResults(existing, postcodes, batches, j);
      var added := StampAll(BatchNew(existing, batches, j), postcodes[j]);
      NewResultsStamped(existing, postcodes, batches, j);
      StampAllStamped(BatchNew(existing, batches, j), postcodes[j]);
      assert postcodes[..k] == postcodes[..j] + [postcodes[j]];
      var all: seq<Store> := before + added;
      forall i | 0 <= i < |all|
        ensures all[i].source == Some(New)
        ensures all[i].postcode.Some? && all[i].postcode.value in postcodes[..k]
      {
        if i >= |before| {
          assert all[i] == added[i - |before|];
        }
      }
    }
  }

  /** The summary table never lists a postcode twice. */
  lemma TableDistinct(existing: set<string>, postcodes: seq<string>, batches: seq<seq<Store>>, k: nat)
    requires k <= |batches| == |postcodes|
    ensures DistinctPostcodes(Table(existing, postcodes, batches, k))
  {
    TabulateDistinct(postcodes[..k], Summaries(existing, batches, k));
  }

  /** The summary table has an entry exactly for the postcodes processed. */
  lemma TableHasProcessed(existing: set<string>, postcodes: seq<string>, batches: seq<seq<Store>>, k: nat, q: string)
    requires k <= |batches| == |postcodes|
    ensures Lookup(Table(existing, postcodes, batches, k), q).Some? <==> q in postcodes[..k]
  {
    TabulateHas(postcodes[..k], Summaries(existing, batches, k), q);
  }

  /** A postcode listed more than once keeps the summary of its last occurrence only. */
  lemma TableKeepsLast(existing: set<string>, postcodes: seq<string>, batches: seq<seq<Store>>, k: nat, j: nat)
    requires j < k <= |batches| == |postcodes|
    requires forall i :: j < i < k ==> postcodes[i] != postcodes[j]
    ensures Lookup(Table(existing, postcodes, batches, k), postcodes[j]) == Some(SummaryOf(BatchNew(existing, batches, j)))
  {
    var pcs := postcodes[..k];
    assert forall i :: j < i < k ==> pcs[i] != pcs[j];
    TabulateKeepsLast(pcs, Summaries(existing, batches, k), j);
  }

  lemma {:induction false} SumBounds(xs: seq<real>, lo: real, hi: real)
    requires forall i :: 0 <= i < |xs| ==> lo <= xs[i] <= hi
    ensures lo * (|xs| as real) <= Sum(xs) <= hi * (|xs| as real)
  {
    if xs != [] {
      SumBounds(xs[..|xs| - 1], lo, hi);
    }
  }

  /** The mean of values within bounds is within the same bounds. */
  lemma MeanWithin(xs: seq<real>, lo: real, hi: real)
    requires xs != []
    requires forall i :: 0 <= i < |xs| ==> lo <= xs[i] <= hi
    ensures lo <= Mean(xs) <= hi
  {
    SumBounds(xs, lo, hi);
    var n, m := |xs| as real, Mean(xs);
    assert m * n == Sum(xs);
  }

  /** The average rating of a postcode lies within the range of its records' ratings. */
  lemma AverageWithinRatings(accepted: seq<Store>, lo: real, hi: real)
    requires forall s :: s in accepted && s.rating.Stars? ==> lo <= s.rating.value <= hi
    ensures SummaryOf(accepted).avgRating.Some? ==> lo <= SummaryOf(accepted).avgRating.value <= hi
  {
    var ratings := Ratings(accepted);
    forall i | 0 <= i < |ratings|
      ensures lo <= ratings[i] <= hi
    {
      assert ratings[i] in ratings;
      FilterMapFrom(accepted, RatingOf, ratings[i]);
    }
    if ratings != [] {
      MeanWithin(ratings, lo, hi);
    }
  }

  /** Records without a rating count towards the total but not towards the average:
      ratings 4.0, 5.0 and "N/A" give three records averaging 4.5. */
  lemma AverageSkipsUnrated(a: Store, b: Store, c: Store)
    requires a.rating == Stars(4.0) && b.rating == Stars(5.0) && c.rating == NoRating
    ensures SummaryOf([a, b, c]).count == 3
    ensures SummaryOf([a, b, c]).avgRating == Some(4.5)
  {
    FilterMapSnoc([], a, RatingOf);
    FilterMapSnoc([a], b, RatingOf);
    FilterMapSnoc([a, b], c, RatingOf);
    assert [a] + [b] == [a, b] && [a, b] + [c] == [a, b, c];
    assert Ratings([a, b, c]) == [4.0, 5.0];
    assert Sum([4.0, 5.0]) == 9.0 by {
      assert [4.0, 5.0][..1] == [4.0];
      assert [4.0][..0] == [];
    }
  }

  /** Unlike the loader, the run does not set aside the key "|": the first record with
      neither a usable name nor a usable address is accepted, and a second such record
      is skipped as its duplicate. */
  lemma EmptyKeyAccepted(existing: set<string>, postcode: string, s: Store, t: Store)
    requires EmptyKey !in existing
    requires StoreKey(s) == EmptyKey && StoreKey(t) == EmptyKey
    ensures NewResults(existing, [postcode], [[s, t]], 1) == [Stamp(s, postcode)]
  {
    var batches := [[s, t]];
    assert batches[..0] == [];
    assert SeenBefore(existing, batches, 0) == existing;
    assert [s, t][..1] == [s] && [s][..0] == [];
    assert FirstFresh(existing, [s], StoreKey) == [s];
    assert FirstFresh(existing, [s, t], StoreKey) == [s];
    assert StampAll([s], postcode) == [Stamp(s, postcode)];
  }

  /** A record whose key the uploaded report already holds is skipped. */
  lemma KnownKeySkipped(existing: set<string>, postcode: string, s: Store)
    requires StoreKey(s) in existing
    ensures NewResults(existing, [postcode], [[s]], 1) == []
  {
    var batches := [[s]];
    assert batches[..0] == [];
    assert SeenBefore(existing, batches, 0) == existing;
    assert [s][..0] == [];
    assert FirstFresh(existing, [s], StoreKey) == [];
  }

  /** A listing found as "ACME STORE" at "1 Main St" is skipped when the uploaded report
      holds "Acme Store" at "1 Main St". */
  lemma AcmeDuplicateSkipped(postcode: string, s: Store)
    requires s.name == "ACME STORE" && s.address == "1 Main St"
    ensures NewResults({MakeDedupKey(Some("Acme Store"), Some("1 Main St"))}, [postcode], [[s]], 1) == []
  {
    AcmeKeysCollide();
    KnownKeySkipped({MakeDedupKey(Some("Acme Store"), Some("1 Main St"))}, postcode, s);
  }
}
