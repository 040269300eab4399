/**
  The Country collection as a map from name to record, the upsert semantics of the
  bulk write, and the service's state-changing operations: `refreshAllCountries`
  and `deleteCountryByName`.
 */
module CountryStore {
  import opened Wrappers
  import opened JsValues
  import opened CountryModel
  import opened Transformer
  import opened Queries

  /** The names a batch filters on. */
  function FilterSet(ops: seq<Upsert>): set<string> {
    set op | op in ops :: op.filter
  }

  /** The store after every upsert of `ops` has been applied in order: each one sets
      the whole record stored under its filter name, inserting it if absent. */
  function ApplyAll(db: map<string, Country>, ops: seq<Upsert>): (r: map<string, Country>)
    ensures r.Keys == db.Keys + FilterSet(ops)
    ensures forall k :: k in db && k !in FilterSet(ops) ==> r[k] == db[k]
    ensures forall k :: k in FilterSet(ops) ==> exists op :: op in ops && op.filter == k && r[k] == op.update
    decreases |ops|
  {
    if ops == [] then db
    else
      var n := |ops| - 1;
      var before := ApplyAll(db, ops[..n]);
      FilterSetStep(ops);
      assert ops[n] in ops;
      before[ops[n].filter := ops[n].update]
  }

  lemma FilterSetStep(ops: seq<Upsert>)
    requires ops != []
    ensures FilterSet(ops) == FilterSet(ops[..|ops| - 1]) + {ops[|ops| - 1].filter}
    ensures forall op :: op in ops[..|ops| - 1] ==> op in ops
  {
    assert ops == ops[..|ops| - 1] + [ops[|ops| - 1]];
  }

  /** A batch whose upserts each set the record named by their filter keeps every
      record under its own name: at most one record per name. */
  lemma ApplyAllKeepsKeyedByName(db: map<string, Country>, ops: seq<Upsert>)
    requires KeyedByName(db)
    requires forall op :: op in ops ==> op.filter == op.update.name
    ensures KeyedByName(ApplyAll(db, ops))
  {
  }

  /** Applying a batch overlays the records it upserts on the old store. */
  lemma {:induction false} ApplyAllOverlays(db: map<string, Country>, ops: seq<Upsert>)
    ensures ApplyAll(db, ops) == db + ApplyAll(map[], ops)
    decreases |ops|
  {
    if ops != [] {
      var n := |ops| - 1;
      ApplyAllOverlays(db, ops[..n]);
      OverlayThenSet(db, ApplyAll(map[], ops[..n]), ops[n].filter, ops[n].update);
    }
  }

  lemma OverlayThenSet(db: map<string, Country>, overlay: map<string, Country>, k: string, c: Country)
    ensures (db + overlay)[k := c] == db + overlay[k := c]
  {
  }

  /** Applying the same batch a second time changes nothing. */
  lemma ApplyAllIdempotent(db: map<string, Country>, ops: seq<Upsert>)
    ensures ApplyAll(ApplyAll(db, ops), ops) == ApplyAll(db, ops)
  {
    var overlay := ApplyAll(map[], ops);
    ApplyAllOverlays(db, ops);
    ApplyAllOverlays(db + overlay, ops);
    OverlayTwice(db, overlay);
  }

  lemma OverlayTwice(db: map<string, Country>, overlay: map<string, Country>)
    ensures (db + overlay) + overlay == db + overlay
  {
  }

  /** Two batches that upsert the same names, in the same order, lead to the same
      store shape. */
  lemma SameNamesSameKeys(ops1: seq<Upsert>, ops2: seq<Upsert>)
    requires Names(ops1) == Names(ops2)
    ensures FilterSet(ops1) == FilterSet(ops2)
  {
    forall k | k in FilterSet(ops1) ensures k in FilterSet(ops2) {
      var op :| op in ops1 && op.filter == k;
      var i :| 0 <= i < |ops1| && ops1[i] == op;
      assert Names(ops1)[i] == k;
      assert ops2[i] in ops2;
    }
    forall k | k in FilterSet(ops2) ensures k in FilterSet(ops1) {
      var op :| op in ops2 && op.filter == k;
      var i :| 0 <= i < |ops2| && ops2[i] == op;
      assert Names(ops2)[i] == k;
      assert ops1[i] in ops1;
    }
  }

  /** Refreshing twice from identical upstream data: the second refresh adds no record
      (the record count is unchanged), and every record it touches carries its time. */
  lemma RefreshTwiceSameData(db: map<string, Country>, items: seq<Value>, rates: Value,
                             draw1: nat -> real, now1: Timestamp, draw2: nat -> real, now2: Timestamp)
    ensures var once := ApplyAll(db, Batch(items, rates, draw1, now1));
      var twice := ApplyAll(once, Batch(items, rates, draw2, now2));
      && twice.Keys == once.Keys
      && |twice| == |once|
      && forall k :: k in FilterSet(Batch(items, rates, draw2, now2)) ==> twice[k].lastRefreshedAt == now2
  {
    var ops1, ops2 := Batch(items, rates, draw1, now1), Batch(items, rates, draw2, now2);
    BatchNamesIndependent(items, rates, draw1, now1, draw2, now2);
    SameNamesSameKeys(ops1, ops2);
    var once := ApplyAll(db, ops1);
    var twice := ApplyAll(once, ops2);
    assert twice.Keys == once.Keys;
    assert |twice.Keys| == |once.Keys|;
  }

  /** Once a refresh at `now` has upserted at least one record, and no stored record
      is newer than `now`, the status reports `now` as the last refresh. */
  lemma StatusAfterRefresh(db: map<string, Country>, ops: seq<Upsert>, now: Timestamp)
    requires ops != []
    requires forall op :: op in ops ==> op.update.lastRefreshedAt == now
    requires forall k :: k in db ==> db[k].lastRefreshedAt <= now
    ensures GetCountryStatus(ApplyAll(db, ops)).lastRefreshedAt == Some(now)
  {
    var after := ApplyAll(db, ops);
    forall k | k in after ensures after[k].lastRefreshedAt <= now {
      if k in FilterSet(ops) {
        var op :| op in ops && op.filter == k && after[k] == op.update;
      }
    }
    assert ops[0] in ops;
    var first := ops[0].filter;
    assert first in FilterSet(ops);
    var op :| op in ops && op.filter == first && after[first] == op.update;
    var status := GetCountryStatus(after);
    assert status.lastRefreshedAt.Some? by { assert first in after; }
    var t := status.lastRefreshedAt.value;
    assert now <= t;
    var k :| k in after && after[k].lastRefreshedAt == t;
    assert t <= now;
  }

  /** An upstream entry whose first currency descriptor has the non-empty code `c`,
      whose population coerces to a positive number, and for which the rate table
      holds the positive number `rates[c]`. */
  predicate RatedEntry(raw: Value, rates: Value, c: string) {
    var currencies := Member(raw, "currencies");
    && currencies.Arr? && |currencies.items| > 0
    && Member(currencies.items[0], "code") == Str(c) && c != ""
    && ToNumber(Member(raw, "population")).Finite? && ToNumber(Member(raw, "population")).r > 0.0
    && Member(rates, c).Num? && Member(rates, c).n.Finite? && Member(rates, c).n.r > 0.0
  }

  /** An upstream entry whose currency list is empty. */
  predicate NoCurrencyEntry(raw: Value) {
    Member(raw, "currencies") == Arr([])
  }

  /** A rated entry is upserted with its currency code, the looked-up rate and a
      positive GDP estimate (before rounding to cents). */
  lemma RatedEntryTransform(raw: Value, rates: Value, c: string, multiplier: real, now: Timestamp)
    requires RatedEntry(raw, rates, c)
    requires MinMultiplier <= multiplier < MaxMultiplier
    ensures var t := TransformCountry(raw, rates, multiplier, now);
      && t.Success?
      && t.value.update.currencyCode == Some(c)
      && t.value.update.exchangeRate == Some(Member(rates, c).n)
      && t.value.update.estimatedGdp > 0.0
  {
    var first := Member(raw, "currencies").items[0];
    assert first.Obj? && "code" in first.fields;
    assert CurrencyOf(raw) == Str(c);
    var rate := Member(rates, c);
    var population := Member(raw, "population");
    GdpWithinMultiplierBounds(population, rate, multiplier);
    var p, r := ToNumber(population).r, ToNumber(rate).r;
    assert p * MinMultiplier / r > 0.0;
  }

  /** An entry with an empty currency list is still upserted, with no currency code,
      no rate and a GDP estimate of 0, whatever the rate table. */
  lemma NoCurrencyTransform(raw: Value, rates: Value, multiplier: real, now: Timestamp)
    requires NoCurrencyEntry(raw)
    ensures var t := TransformCountry(raw, rates, multiplier, now);
      && t.Success?
      && t.value.update.currencyCode == None && t.value.update.exchangeRate == None
      && t.value.update.estimatedGdp == 0.0
  {
    assert CurrencyOf(raw) == Null;
  }

  /** The refresh batch for a rated entry followed by an entry without currencies:
      both are upserted, in order, the first with its code and a positive unrounded estimate,
      the second with no code and an estimate of 0. */
  lemma TwoEntryBatch(rated: Value, bare: Value, rates: Value, c: string, draw: nat -> real, now: Timestamp)
    requires RatedEntry(rated, rates, c) && NoCurrencyEntry(bare)
    requires MinMultiplier <= draw(0) < MaxMultiplier
    ensures var ops := Batch([rated, bare], rates, draw, now);
      && |ops| == 2
      && ops[0] == TransformCountry(rated, rates, draw(0), now).value
      && ops[1] == TransformCountry(bare, rates, draw(1), now).value
      && ops[0].update.currencyCode == Some(c) && ops[0].update.estimatedGdp > 0.0
      && ops[1].update.currencyCode == None && ops[1].update.estimatedGdp == 0.0
  {
    var items := [rated, bare];
    var t0 := TransformCountry(rated, rates, draw(0), now);
    var t1 := TransformCountry(bare, rates, draw(1), now);
    RatedEntryTransform(rated, rates, c, draw(0), now);
    NoCurrencyTransform(bare, rates, draw(1), now);
    var outcomes := Transforms(items, rates, draw, now);
    assert outcomes[0] == t0 && outcomes[1] == t1;
    SuccessesExtend(outcomes, 0);
    SuccessesExtend(outcomes, 1);
    assert outcomes[..0] == [] && outcomes[..2] == outcomes;
  }

  /** After refreshing an empty store with those two entries, an unfiltered listing
      holds the second record, and holds the first as well when their names differ. */
  lemma TwoEntryRefresh(rated: Value, bare: Value, rates: Value, c: string, draw: nat -> real, now: Timestamp)
    requires RatedEntry(rated, rates, c) && NoCurrencyEntry(bare)
    requires MinMultiplier <= draw(0) < MaxMultiplier
    ensures var ops := Batch([rated, bare], rates, draw, now);
      var db := ApplyAll(map[], ops);
      && |ops| == 2 && KeyedByName(db)
      && ops[1].update in GetAllCountries(db, Filters(None, None), SortOptions(false, false))
      && (ops[0].filter != ops[1].filter ==>
            ops[0].update in GetAllCountries(db, Filters(None, None), SortOptions(false, false)))
  {
    TwoEntryBatch(rated, bare, rates, c, draw, now);
    var ops := Batch([rated, bare], rates, draw, now);
    assert ops == [ops[0], ops[1]];
    ApplyAllTwo(map[], ops[0], ops[1]);
    var db := ApplyAll(map[], ops);
    ApplyAllKeepsKeyedByName(map[], ops);
    UnfilteredListingHasAll(db, ops[1].filter);
    if ops[0].filter != ops[1].filter {
      UnfilteredListingHasAll(db, ops[0].filter);
    }
  }

  lemma ApplyAllTwo(db: map<string, Country>, first: Upsert, second: Upsert)
    ensures ApplyAll(db, [first, second]) == db[first.filter := first.update][second.filter := second.update]
  {
    ApplyAllSnoc(db, [], first);
    ApplyAllSnoc(db, [first], second);
  }

  lemma ApplyAllSnoc(db: map<string, Country>, ops: seq<Upsert>, op: Upsert)
    ensures ApplyAll(db, ops + [op]) == ApplyAll(db, ops)[op.filter := op.update]
  {
    assert (ops + [op])[..|ops|] == ops;
  }

  lemma UnfilteredListingHasAll(db: map<string, Country>, k: string)
    requires KeyedByName(db) && k in db
    ensures db[k] in GetAllCountries(db, Filters(None, None), SortOptions(false, false))
  {
  }

  /** Why a refresh fails. The message of a fetch failure starts with
      "External data source unavailable: ". */
  datatype RefreshError = SourceUnavailable(message: string) | NotIterable

  const UnavailablePrefix: string := "External data source unavailable: "

  /** `{ totalProcessed, refreshTimestamp }` */
  datatype RefreshSummary = RefreshSummary(totalProcessed: nat, refreshTimestamp: Timestamp)

  /** The loop of `refreshAllCountries`: transform each entry in turn, keep the upserts
      of those that do not throw, and count them. */
  method TransformAll(items: seq<Value>, rates: Value, draw: nat -> real, now: Timestamp)
    returns (operations: seq<Upsert>, successCount: nat)
    ensures operations == Batch(items, rates, draw, now)
    ensures successCount == |operations|
  {
    operations := [];
    successCount := 0;
    ghost var outcomes := Transforms(items, rates, draw, now);
    var i := 0;
    while i < |items|
      invariant 0 <= i <= |items|
      invariant operations == Successes(outcomes[..i])
      invariant successCount == |operations|
    {
      var transformed := TransformCountry(items[i], rates, draw(i), now);
      if transformed.Success? {
        operations := operations + [transformed.value];
        successCount := successCount + 1;
      }
      SuccessesExtend(outcomes, i);
      i := i + 1;
    }
    assert outcomes[..|items|] == outcomes;
  }

  class CountryService {
    /** The Country collection. */
    var countries: map<string, Country>

    ghost predicate Valid()
      reads this
    {
      KeyedByName(countries)
    }

    constructor ()
      ensures Valid() && countries == map[]
    {
      countries := map[];
    }

    /** `Country.bulkWrite(operations)`: every upsert is applied. */
    method BulkWrite(operations: seq<Upsert>)
      requires Valid()
      requires forall op :: op in operations ==> op.filter == op.update.name
      modifies this
      ensures Valid()
      ensures countries == ApplyAll(old(countries), operations)
    {
      var i := 0;
      while i < |operations|
        invariant 0 <= i <= |operations|
        invariant countries == ApplyAll(old(countries), operations[..i])
        invariant KeyedByName(countries)
      {
        assert operations[i] in operations;
        countries := countries[operations[i].filter := operations[i].update];
        assert operations[..i + 1][..i] == operations[..i];
        i := i + 1;
      }
      assert operations[..|operations|] == operations;
    }

    /** `refreshAllCountries`, given what the two fetches returned (or their error
        messages), the time taken once before the loop, and the multiplier drawn for
        each entry. */
    method RefreshAllCountries(countriesData: Result<Value, string>, exchangeRates: Result<Value, string>,
                               now: Timestamp, draw: nat -> real)
      returns (result: Result<RefreshSummary, RefreshError>)
      requires Valid()
      modifies this
      ensures Valid()
      ensures countriesData.Failure? ==>
        result == Failure(SourceUnavailable(UnavailablePrefix + countriesData.error))
        && countries == old(countries)
      ensures countriesData.Success? && exchangeRates.Failure? ==>
        result == Failure(SourceUnavailable(UnavailablePrefix + exchangeRates.error))
        && countries == old(countries)
      ensures countriesData.Success? && exchangeRates.Success? && ForOfItems(countriesData.value).None? ==>
        result == Failure(NotIterable) && countries == old(countries)
      ensures countriesData.Success? && exchangeRates.Success? && ForOfItems(countriesData.value).Some? ==>
        var operations := Batch(ForOfItems(countriesData.value).value, exchangeRates.value, draw, now);
        && result == Success(RefreshSummary(|operations|, now))
        && countries == ApplyAll(old(countries), operations)
    {
      if countriesData.Failure? {
        return Failure(SourceUnavailable(UnavailablePrefix + countriesData.error));
      }
      if exchangeRates.Failure? {
        return Failure(SourceUnavailable(UnavailablePrefix + exchangeRates.error));
      }
      var entries := ForOfItems(countriesData.value);
      if entries.None? {
        return Failure(NotIterable);
      }
      var items, rates := entries.value, exchangeRates.value;
      var operations, successCount := TransformAll(items, rates, draw, now);
      if |operations| > 0 {
        BulkWrite(operations);
      }
      result := Success(RefreshSummary(successCount, now));
    }

    /** `deleteCountryByName`: removes the record `getACountryByName` finds and returns
        it; returns None and changes nothing when there is none. */
    method DeleteCountryByName(name: string) returns (deleted: Option<Country>)
      requires Valid()
      modifies this
      ensures Valid()
      ensures deleted == GetACountryByName(old(countries), name)
      ensures deleted.Some? ==> countries == old(countries) - {deleted.value.name}
      ensures deleted.None? ==> countries == old(countries)
    {
      deleted := GetACountryByName(countries, name);
      if deleted.Some? {
        countries := countries - {deleted.value.name};
      }
    }
  }
}
