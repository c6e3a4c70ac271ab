/**
 * The store record passed between the loader, the scraping loop and the
 * report writer (a Python dict with fixed keys in the original).
 */
module Stores {
  import opened Wrappers
  import Sorting

  /** The `_source` tag: whether a record came from an uploaded report or this run. */
  datatype Source = Existing | New

  /** The `rating` field: a number, or the "N/A" sentinel. */
  datatype Rating = NoRating | Stars(value: real)

  /**
   * A `latitude` or `longitude` field: the degrees read from a listing's map
   * address (a float), or the text a cell of an uploaded report held ("" when
   * unknown, which is also a fresh listing's default).
   */
  datatype Coordinate = CellText(text: string) | Degrees(value: real)

  /**
   * One business listing. `postcode` and `source` are absent (`None`) on a
   * freshly extracted listing until the scraping loop stamps it; the loader
   * always fills both.
   */
  datatype Store = Store(
    name: string,
    address: string,
    phone: string,
    rating: Rating,
    totalReviews: int,
    category: string,
    website: string,
    openingHours: string,
    postcode: Option<string>,
    latitude: Coordinate,
    longitude: Coordinate,
    mapsUrl: string,
    source: Option<Source>)

  /** The sentinel of an unknown text field. */
  const NotAvailable: string := "N/A"

  /** The sentinel of an unknown postcode (an em dash). */
  const NoPostcode: string := "\U{2014}"

  /** `s.get("phone", "N/A") != "N/A"` */
  predicate HasPhone(s: Store) {
    s.phone != NotAvailable
  }

  /** How many stores have a known phone number. */
  function PhoneCount(stores: seq<Store>): nat {
    Sorting.CountIf(stores, HasPhone)
  }
}
