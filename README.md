# Country currency service — a Dafny model of the refresh pipeline and store queries

This project models the core of a small country-data service (`services/countryService.js`):
the refresh that turns a fetched country catalogue and an exchange-rate table into
upserts of country records, and the queries, lookup, delete and status operations over
the stored records.

- `wrappers.dfy` — `Option` and `Result`.
- `js_values.dfy` (module `JsValues`) — the untyped JSON values the feeds deliver and the
  JavaScript coercions the service applies to them: truthiness, `== null`, `Number(x)`,
  `String(x)`, property reads (which throw on `null`/`undefined`), `for ... of`. The lemmas
  `TrimStartRemovesPrefix` and `TrimEndRemovesSuffix` document the whitespace trimming
  of `Number(x)`; no other proof relies on them.
- `country_model.dfy` (module `CountryModel`) — the stored record (the Country schema's
  fields) and the `updateOne … upsert: true` operation.
- `transformer.dfy` (module `Transformer`) — `extractCurrencyCodeSync`,
  `calculateEstimatedGDP` (the random multiplier is a parameter), one iteration of the
  refresh loop, and `Batch`, the `operations` array the loop builds.
- `ordering.dfy` (module `Ordering`) — binary string order and the store's names in that order.
- `queries.dfy` (module `Queries`) — `getAllCountries`, `getACountryByName`,
  `getCountryStatus` over the store (a map from name to record).
- `country_store.dfy` (module `CountryStore`) — upsert semantics (`ApplyAll`) and the class
  `CountryService`, whose field `countries` is the collection and whose methods are the
  refresh, the bulk write and the delete; the refresh loop itself is the module-level
  method `TransformAll`, which `RefreshAllCountries` calls.

The store invariant `KeyedByName` (every record sits under its own name) is what "at
most one record per name" means here. Every upsert in a batch filters on the name it
sets, so applying a batch keeps the invariant.

Facts about the code that the model keeps:
- Nothing in the code keeps `estimated_gdp` non-negative: it is negative when exactly
  one of the population and the rate is negative.
- The currency filter compares the stored code with the upper-cased input, so a code
  stored in lower case never matches.
- The type checks at `services/countryService.js:48-56` can never fire.
  `currency_code` is built as `String(code)` or `null`, and `estimated_gdp` as
  `Number(...) || 0`. In the model these fields have the types `Option<string>` and `real`.

## Model

| member | source | states |
|---|---|---|
| `JsValues.NumberOfStringOfNat` | services/countryService.js:36-39 | `Number(String(n)) == n` for every non-negative integer, tying the two coercions together |
| `Transformer.ExtractCurrencyCode` | services/countryService.js:88-99 | the result is null or truthy; it is non-null exactly when the list is a non-empty array whose first element is an object with a truthy `code`, and then it is that `code` |
| `Transformer.ExtractLooksOnlyAtFirst` | services/countryService.js:93-98 | only element 0 of the currency list influences the result |
| `Transformer.EstimateGdp` | services/countryService.js:101-123 | 0 when population or rate is null/undefined, either coerces to NaN, or the rate is 0 |
| `Transformer.GdpWithinMultiplierBounds` | services/countryService.js:116-120 | for a multiplier in [1000, 2000) and positive population and rate, `pop*1000/rate <= gdp < pop*2000/rate` |
| `Transformer.TransformCountry` | services/countryService.js:25-66 | throws exactly when the entry is null/undefined or it has a currency code and the rate table is null/undefined (the TypeError of converting an object with its own `toString`/`valueOf` is not modelled, see "## Left out"); otherwise the upsert filters on the record's name and carries the refresh time; name, capital, region and flag_url keep a string field as it is and become "" when the field is missing or falsy; population is `Number(population) \|\| 0`; currency_code is `String(code)` of the extracted code, or none without one; without a code there is no rate and the GDP is 0; with one, exchange_rate is `Number(rates[code])` when that is truthy (else none) and the GDP is estimated from `rates[code]` |
| `Transformer.GdpOfNumbersBounds` | services/countryService.js:116-120 | on finite positive numbers and a multiplier in [1000, 2000), `pop * multiplier / rate` lies in [`pop*1000/rate`, `pop*2000/rate`) |
| `Transformer.Transforms` | services/countryService.js:24-70 | one outcome per entry, in order; the i-th is the transform of the i-th entry with the i-th multiplier |
| `Transformer.SuccessesMembership` | services/countryService.js:58-69 | an upsert is pushed exactly when some iteration's transform produced it without throwing |
| `Transformer.SuccessesCount` | services/countryService.js:24-71 | every iteration either pushes one upsert or lands in the `catch`: pushed plus failed equals iterations |
| `Transformer.SuccessNamesAgree` | services/countryService.js:58-64 | two runs that succeed at the same iterations under the same names push the same sequence of names |
| `Transformer.Batch` | services/countryService.js:20-71 | at most one operation per entry; every operation filters on the name it sets and carries the single refresh timestamp |
| `Transformer.BatchMembership` | services/countryService.js:58-71 | an upsert is in the batch exactly when some entry transforms into it without throwing |
| `Transformer.BatchCountsSuccesses` | services/countryService.js:24-71 | operations plus skipped (throwing) entries equal the number of entries |
| `Transformer.BatchAppend` | services/countryService.js:24-71 | one more entry appends its upsert to the batch when its transform succeeds and leaves the batch unchanged when it throws |
| `Transformer.TransformNameIndependent` | services/countryService.js:26-45 | whether an entry throws, and the name it is filed under, do not depend on the multiplier or the clock |
| `Transformer.BatchNamesIndependent` | services/countryService.js:20-64 | the sequence of upserted names depends only on the upstream data, not on the random multipliers or the refresh time |
| `Ordering.SortedNames` | services/countryService.js:141-145 | lists each stored name once, in strictly ascending order |
| `Queries.ContainsIsInfix` | services/countryService.js:128-130 | the region test is the substring relation |
| `Queries.FilterMatching` | services/countryService.js:126-134 | keeps exactly the records matching the region and currency filters, preserving name order |
| `Queries.SortByGdp` | services/countryService.js:137-140 | ordered by estimated GDP (descending or ascending), a permutation of its input, keeping names distinct |
| `Queries.RecordsByName` | services/countryService.js:141-145 | every stored record once, in ascending name order |
| `Queries.GetAllCountries` | services/countryService.js:125-146 | exactly the stored records matching the filters, each once; GDP descending if `gdp_desc`, else GDP ascending if `gdp_asc`, else names ascending |
| `Queries.GetACountryByName` | services/countryService.js:148-150 | finds a record exactly when some stored name equals the query up to case; the record found is stored under a matching name, the least of the matching names |
| `Queries.LookupIgnoresCase` | services/countryService.js:148-150 | queries equal up to case (`FRANCE`, `france`) find the same record |
| `Queries.LookupAfterRemoval` | services/countryService.js:152-154 | after the found record is removed, the same lookup finds nothing exactly when no other stored name matches up to case |
| `Queries.GetCountryStatus` | services/countryService.js:156-164 | the record count, and the maximum `last_refreshed_at` attained by some record, or None exactly when the store is empty |
| `CountryStore.ApplyAll` | services/countryService.js:58-64 | after the batch the names are the old names plus the filtered ones; names not filtered keep their records; each filtered name holds the full record of an upsert on it |
| `CountryStore.ApplyAllSnoc` | services/countryService.js:58-64 | one more upsert sets its filter name to its record on top of the earlier ones |
| `CountryStore.ApplyAllTwo` | services/countryService.js:58-64 | a two-upsert batch sets the first name, then the second |
| `CountryStore.ApplyAllKeepsKeyedByName` | services/countryService.js:58-64 | a batch of name-keyed upserts keeps at most one record per name |
| `CountryStore.ApplyAllOverlays` | services/countryService.js:73-76 | a batch overlays the records it upserts on the old store |
| `CountryStore.ApplyAllIdempotent` | services/countryService.js:73-76 | applying the same batch twice equals applying it once |
| `CountryStore.SameNamesSameKeys` | services/countryService.js:58-64 | two batches upserting the same names touch the same keys |
| `CountryStore.RefreshTwiceSameData` | services/countryService.js:20-76 | a second refresh from identical upstream data leaves the set and number of records unchanged and stamps every record it touches with its own time |
| `CountryStore.StatusAfterRefresh` | services/countryService.js:156-163 | after a non-empty refresh at time t over records no newer than t, the status reports t |
| `CountryStore.RatedEntryTransform` | services/countryService.js:25-45 | an entry whose first currency descriptor has a non-empty code with a positive rate, and which has a positive population, is upserted with that code, that rate and a GDP that is positive before rounding |
| `CountryStore.NoCurrencyTransform` | services/countryService.js:25-45 | an entry with an empty currency list is still upserted, with no currency code, no rate and GDP 0, whatever the rate table |
| `CountryStore.TwoEntryBatch` | services/countryService.js:24-71 | for any rated entry followed by any entry with an empty currency list, the batch holds both upserts in entry order, the first with its code and a GDP that is positive before rounding, the second with no code and GDP 0 |
| `CountryStore.TwoEntryRefresh` | services/countryService.js:24-76 | after refreshing an empty store with two such entries, one record per name is kept and an unfiltered listing holds the second record, and also the first when their names differ |
| `CountryStore.TransformAll` | services/countryService.js:20-71 | the loop's `operations` is `Batch` of the entries, and `successCount` is its length |
| `CountryStore.CountryService.BulkWrite` | services/countryService.js:73-76 | the collection becomes `ApplyAll` of the old collection and the operations; one record per name is kept |
| `CountryStore.CountryService.RefreshAllCountries` | services/countryService.js:5-86 | a failed fetch or a non-iterable catalogue returns an error and changes nothing; otherwise it returns `Batch`'s length (the loop keeps `successCount` equal to the number of operations) and the shared timestamp, and the collection becomes `ApplyAll` of the batch (nothing is written for an empty batch) |
| `CountryStore.CountryService.DeleteCountryByName` | services/countryService.js:152-154 | returns what the case-insensitive lookup finds and removes only that record; returns None and changes nothing when there is no match |

## Left out

- Network fetches (`services/exchangeRateService.js`, axios, timeouts): the refresh takes each fetch's outcome as a `Result` (the data, or the error message).
- `Promise.all` concurrency: when both fetches fail, the model reports the countries error; which rejection comes first in the source depends on timing.
- `Math.random`: the multiplier for the i-th entry is the parameter `draw(i)`; `GdpWithinMultiplierBounds` assumes it lies in [1000, 2000).
- Transformer.EstimateGdp: returns the unrounded `pop * m / rate`; the rounding `Math.round(gdp * 100) / 100` (floating point) is not modelled. Its own contract states only the zero cases; the value in the other cases is bounded by `GdpWithinMultiplierBounds`.
- JavaScript numbers are exact reals or NaN: no infinities, no -0, no double rounding.
- JsValues.NumberToString: positional notation with at most 20 fraction digits; JavaScript's shortest round-trip digits and exponent notation are not modelled.
- JsValues.StrToNumber: accepts whitespace, a sign, digits and one decimal point; exponents, hex/octal/binary literals, "Infinity" and Unicode whitespace give NaN here.
- JsValues.Member: only own properties of plain objects; array and string indices, `length` and prototype properties (e.g. a rate table queried with the code "constructor") are not modelled.
- Transformer.TransformCountry: `String(x)`, `Number(x)` and the key conversion of `exchangeRates[currencyCode]` convert every JSON object as a plain object (`"[object Object]"`). In JavaScript an object with its own non-function `toString` (e.g. `{"name": {"toString": 0}}`) makes these conversions throw a TypeError, also inside an array, whose `join` converts each element. The source then skips the entry in its `catch`, but the model upserts it. `IsSkipped`, `BatchCountsSuccesses` and the count `RefreshAllCountries` returns therefore leave out entries skipped for this reason.
- Transformer.TransformCountry: the upsert filter is the coerced name `String(name || '')`. For a string raw name this equals the raw name. For any other raw name the source filters on the raw value: when the name is missing or null it filters on `{ name: undefined/null }`, which never matches the record stored with `name: ""`, so a second refresh inserts again and the unique index on `name` rejects that insert. The model files such an entry under `""` instead, and `RefreshTwiceSameData`'s "record count unchanged" depends on this choice for entries without a string name.
- Regular-expression semantics of user input: names match by case-folded equality and regions by case-insensitive substring; metacharacters in the input are not modelled, and case folding covers ASCII letters only. The same holds for the currency filter's `toUpperCase()`: `Queries.ToUpper` maps ASCII letters only, while JavaScript upper-cases all of Unicode ("ß" becomes "SS").
- Queries.GetACountryByName: when several stored names equal the query up to case, MongoDB returns the first in natural order; the model, which has no insertion order, returns the one with the least name.
- Queries.GetAllCountries: MongoDB leaves the order of equal GDPs unspecified; the model orders them by name.
- Mongoose internals: schema validation (`currency_code` is `required` but the refresh writes null), `trim`, `timestamps`, enforcement of the unique index, and per-item failures of the unordered `bulkWrite` are not modelled.
- CountryStore.CountryService.BulkWrite: the bulk write applies every operation, in sequence order. An unordered bulk write with two upserts of one name may apply them in either order.
- HTTP controllers, routes, status-code mapping, the summary image generator (`utils/imageGenerator.js` is not part of this model) and server bootstrap.
