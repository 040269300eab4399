/** The stored country record (the fields of the Country schema) and the
    `updateOne` upsert operation the refresh submits for it. */
module CountryModel {
  import opened Wrappers
  import opened JsValues

  /** A `Date`, as milliseconds since the epoch. */
  type Timestamp = int

  datatype Country = Country(
    name: string,
    capital: string,
    region: string,
    population: real,
    currencyCode: Option<string>,
    exchangeRate: Option<Number>,
    estimatedGdp: real,
    flagUrl: string,
    lastRefreshedAt: Timestamp)

  /** `{ updateOne: { filter: { name: filter }, update: { $set: update }, upsert: true } }` */
  datatype Upsert = Upsert(filter: string, update: Country)

  /** The store's shape: every record sits under its own name, so no two records share one. */
  ghost predicate KeyedByName(db: map<string, Country>) {
    forall k :: k in db ==> db[k].name == k
  }
}
