/**
 * The figures the web front end shows about an uploaded report (`upload_file`,
 * app.py, lines 134-161) and about a finished run (`run_scraper`, app.py,
 * lines 239-249). The requests, the saved files and the job table are not part
 * of this model; only the values computed from the records are.
 */
module Upload {
  import opened Wrappers
  import opened Text
  import opened Stores
  import opened FirstSeen
  import Sorting
  import Dedup
  import Loader
  import Report

  function Id(s: string): string {
    s
  }

  /** `s.get("postcode", "—")` for every record, in order. */
  function PostcodesOf(stores: seq<Store>): (r: seq<string>)
    ensures |r| == |stores|
  {
    seq(|stores|, i requires 0 <= i < |stores| => stores[i].postcode.GetOr(NoPostcode))
  }

  /** `sorted(set(postcode for each record if postcode != "—"))` */
  function ExistingPostcodes(stores: seq<Store>): seq<string> {
    Sorting.SortBy(FirstFresh({NoPostcode}, PostcodesOf(stores), Id), Id, StrLt)
  }

  /** The postcodes listed are in strictly increasing order, so each appears once. */
  lemma ExistingPostcodesIncreasing(stores: seq<Store>)
    ensures var r := ExistingPostcodes(stores);
      forall i, j :: 0 <= i < j < |r| ==> StrLt(r[i], r[j])
  {
    var all := PostcodesOf(stores);
    var kept := FirstFresh({NoPostcode}, all, Id);
    var r := ExistingPostcodes(stores);
    Report.StrLtOrder();
    Sorting.SortBySorted(kept, Id, StrLt);
    FirstFreshDistinct({NoPostcode}, all, Id);
    assert Sorting.DistinctKeys(kept, Id);
    Sorting.PermutationKeepsDistinctKeys(kept, r, Id);
    Sorting.SortedDistinctIncreasing(r, Id, StrLt);
  }

  /** The postcodes listed are exactly the postcodes of the records, the em dash aside. */
  lemma ExistingPostcodesMembers(stores: seq<Store>, p: string)
    ensures p in ExistingPostcodes(stores)
        <==> p != NoPostcode && exists k :: 0 <= k < |stores| && stores[k].postcode.GetOr(NoPostcode) == p
  {
    var all := PostcodesOf(stores);
    var kept := FirstFresh({NoPostcode}, all, Id);
    FirstFreshKeys({NoPostcode}, all, Id);
    assert p in ExistingPostcodes(stores) <==> p in multiset(kept);
    assert p in kept <==> p in KeysOf(kept, Id) by {
      assert forall x :: Id(x) == x;
    }
    assert p in all <==> p in KeysOf(all, Id) by {
      assert forall x :: Id(x) == x;
    }
    if p in all {
      var k :| 0 <= k < |all| && all[k] == p;
    }
    if exists k :: 0 <= k < |stores| && stores[k].postcode.GetOr(NoPostcode) == p {
      var k :| 0 <= k < |stores| && stores[k].postcode.GetOr(NoPostcode) == p;
      assert all[k] == p;
    }
  }

  /** One record of the sample: its name, address and phone. */
  datatype SampleEntry = SampleEntry(name: string, address: string, phone: string)

  /** `[{"name": ..., "address": ..., "phone": ...} for s in stores[:5]]` */
  function Sample(stores: seq<Store>): seq<SampleEntry> {
    var n := if |stores| < 5 then |stores| else 5;
    seq(n, i requires 0 <= i < n => SampleEntry(stores[i].name, stores[i].address, stores[i].phone))
  }

  /** Every record a report reads back has a real name, so none of the sample's names
      is empty or "N/A". */
  lemma SampleNamesReal(rows: seq<Loader.Row>, colMap: map<Loader.Field, nat>, parse: string -> Option<real>)
    ensures forall e :: e in Sample(Loader.LoadedStores(rows, colMap, parse)) ==> e.name != "" && e.name != NotAvailable
  {
    var stores := Loader.LoadedStores(rows, colMap, parse);
    FirstFreshSubset({Dedup.EmptyKey}, Loader.Candidates(rows, colMap, parse), Dedup.StoreKey);
    forall e | e in Sample(stores)
      ensures e.name != "" && e.name != NotAvailable
    {
      var i :| 0 <= i < |Sample(stores)| && Sample(stores)[i] == e;
      assert stores[i] in stores;
    }
  }

  /** Only the first five records are sampled: records after them never change the sample. */
  lemma SamplePrefix(xs: seq<Store>, ys: seq<Store>)
    requires |xs| >= 5
    ensures Sample(xs + ys) == Sample(xs)
  {
  }

  /** The summary returned for an uploaded report. */
  datatype UploadSummary = UploadSummary(totalStores: nat, withPhone: nat, postcodesFound: seq<string>, sample: seq<SampleEntry>)

  /** The summary of an uploaded report: `with_phone` never exceeds `total_stores`, the
      postcodes found are in strictly increasing order with no em dash among them, and
      the sample holds at most five entries. */
  function SummariseUpload(stores: seq<Store>): (r: UploadSummary)
    ensures r.totalStores == |stores| && r.withPhone <= r.totalStores
    ensures forall i, j :: 0 <= i < j < |r.postcodesFound| ==> StrLt(r.postcodesFound[i], r.postcodesFound[j])
    ensures NoPostcode !in r.postcodesFound
    ensures |r.sample| <= 5 && |r.sample| <= r.totalStores
  {
    ExistingPostcodesIncreasing(stores);
    ExistingPostcodesMembers(stores, NoPostcode);
    UploadSummary(|stores|, PhoneCount(stores), ExistingPostcodes(stores), Sample(stores))
  }

  /** The counts announced when a run completes. */
  datatype Completion = Completion(totalStores: nat, newStores: nat, existingStores: nat, totalWithPhone: nat)

  /** The total announced is the new records plus the existing ones, and no more of them
      have a phone than there are records. */
  function Complete(existing: seq<Store>, scraped: seq<Store>): (r: Completion)
    ensures r.totalStores == r.newStores + r.existingStores
    ensures r.newStores == |scraped| && r.existingStores == |existing|
    ensures r.totalWithPhone <= r.totalStores
  {
    Completion(|existing| + |scraped|, |scraped|, |existing|, PhoneCount(scraped) + PhoneCount(existing))
  }

  /** The counts announced agree with the merged report: its number of rows and its
      number of records with a phone. */
  lemma CompletionMatchesReport(existing: seq<Store>, scraped: seq<Store>)
    ensures Complete(existing, scraped).totalStores == |Report.Merged(existing, scraped)|
    ensures Complete(existing, scraped).totalWithPhone == PhoneCount(Report.Merged(existing, scraped))
    ensures Complete(existing, scraped).totalWithPhone <= Complete(existing, scraped).totalStores
  {
    Report.MergedPhones(existing, scraped);
  }
}
