/**
  The per-record part of `refreshAllCountries`: currency-code extraction, the GDP
  estimate, the coercion of one upstream entry into a stored record, and the batch
  of upserts the refresh loop accumulates.
 */
module Transformer {
  import opened Wrappers
  import opened JsValues
  import opened CountryModel

  /** `Math.random() * 1000 + 1000` lies in [MinMultiplier, MaxMultiplier). */
  const MinMultiplier: real := 1000.0
  const MaxMultiplier: real := 2000.0

  /** `extractCurrencyCodeSync`: the `code` of the first currency descriptor, or null.
      Never throws. */
  function ExtractCurrencyCode(currencies: Value): (code: Value)
    ensures code == Null || Truthy(code)
    ensures code != Null <==>
      && currencies.Arr? && |currencies.items| > 0
      && currencies.items[0].Obj?
      && "code" in currencies.items[0].fields
      && Truthy(currencies.items[0].fields["code"])
    ensures code != Null ==> code == currencies.items[0].fields["code"]
  {
    if !Truthy(currencies) || !currencies.Arr? || |currencies.items| == 0 then Null
    else
      var first := currencies.items[0];
      if !Truthy(first) || !IsObjectType(first) then Null
      else
        var c := Member(first, "code");
        if Truthy(c) then c else Null
  }

  /** Only the first descriptor of the currency list is ever looked at. */
  lemma ExtractLooksOnlyAtFirst(first: Value, rest: seq<Value>, other: seq<Value>)
    ensures ExtractCurrencyCode(Arr([first] + rest)) == ExtractCurrencyCode(Arr([first] + other))
  {
    assert ([first] + rest)[0] == first && ([first] + other)[0] == first;
  }

  /** The guard of `calculateEstimatedGDP`: missing or non-numeric inputs, or a zero rate. */
  predicate InvalidGdpInput(population: Value, exchangeRate: Value) {
    || IsNullish(population) || IsNullish(exchangeRate)
    || ToNumber(population).NaN? || ToNumber(exchangeRate).NaN?
    || ToNumber(exchangeRate).r == 0.0
  }

  /** `calculateEstimatedGDP` with the random multiplier passed in and without the
      final rounding to cents. */
  function EstimateGdp(population: Value, exchangeRate: Value, multiplier: real): (gdp: real)
    ensures InvalidGdpInput(population, exchangeRate) ==> gdp == 0.0
  {
    if IsNullish(population) || IsNullish(exchangeRate) then 0.0
    else GdpOfNumbers(ToNumber(population), ToNumber(exchangeRate), multiplier)
  }

  /** The arithmetic of `calculateEstimatedGDP` once both inputs are coerced to numbers. */
  function GdpOfNumbers(pop: Number, rate: Number, multiplier: real): real {
    if pop.NaN? || rate.NaN? || rate.r == 0.0 then 0.0
    else pop.r * multiplier / rate.r
  }

  /** For a positive population and rate the estimate lies in
      [pop * 1000 / rate, pop * 2000 / rate). */
  lemma GdpWithinMultiplierBounds(population: Value, exchangeRate: Value, multiplier: real)
    requires MinMultiplier <= multiplier < MaxMultiplier
    requires ToNumber(population).Finite? && ToNumber(population).r > 0.0
    requires ToNumber(exchangeRate).Finite? && ToNumber(exchangeRate).r > 0.0
    ensures var p, r := ToNumber(population).r, ToNumber(exchangeRate).r;
      p * MinMultiplier / r <= EstimateGdp(population, exchangeRate, multiplier) < p * MaxMultiplier / r
  {
    PositiveIsNotNullish(population);
    PositiveIsNotNullish(exchangeRate);
    assert EstimateGdp(population, exchangeRate, multiplier)
      == GdpOfNumbers(ToNumber(population), ToNumber(exchangeRate), multiplier);
    GdpOfNumbersBounds(ToNumber(population), ToNumber(exchangeRate), multiplier);
  }

  lemma PositiveIsNotNullish(v: Value)
    requires ToNumber(v).Finite? && ToNumber(v).r > 0.0
    ensures !IsNullish(v)
  {
  }

  lemma GdpOfNumbersBounds(pop: Number, rate: Number, m: real)
    requires pop.Finite? && pop.r > 0.0 && rate.Finite? && rate.r > 0.0
    requires MinMultiplier <= m < MaxMultiplier
    ensures pop.r * MinMultiplier / rate.r <= GdpOfNumbers(pop, rate, m) < pop.r * MaxMultiplier / rate.r
  {
    var p, r := pop.r, rate.r;
    var q := p / r;
    assert p * MinMultiplier / r == q * MinMultiplier;
    assert p * m / r == q * m;
    assert p * MaxMultiplier / r == q * MaxMultiplier;
    assert q * MinMultiplier <= q * m < q * MaxMultiplier;
  }

  /** The currency code extracted from one upstream entry. */
  function CurrencyOf(raw: Value): Value {
    ExtractCurrencyCode(Member(raw, "currencies"))
  }

  /** The two ways transforming one entry throws: the entry is null or undefined, or it
      has a currency code and the rate table is null or undefined. */
  predicate IsSkipped(raw: Value, rates: Value) {
    IsNullish(raw) || (Truthy(CurrencyOf(raw)) && IsNullish(rates))
  }

  /** The rate looked up for a code: `rates[code]`, or null without a code. */
  function RateFor(code: Value, rates: Value): Result<Value, Exception> {
    if Truthy(code) then GetProp(rates, ToStr(code)) else Success(Null)
  }

  /** `String(raw[key] || '')` as seen from outside: a string field is kept as it is,
      and a missing or falsy one becomes the empty string. */
  predicate TextField(raw: Value, key: string, t: string) {
    && (Member(raw, key).Str? ==> t == Member(raw, key).s)
    && (!Truthy(Member(raw, key)) ==> t == "")
  }

  /** One iteration of the refresh loop: build `countryUpdate` and its upsert, or throw. */
  function TransformCountry(raw: Value, rates: Value, multiplier: real, now: Timestamp): (r: Result<Upsert, Exception>)
    ensures r.Failure? <==> IsSkipped(raw, rates)
    ensures r.Success? ==> r.value.filter == r.value.update.name && r.value.update.lastRefreshedAt == now
    ensures r.Success? && Member(raw, "name").Str? ==> r.value.filter == Member(raw, "name").s
    ensures r.Success? ==>
      && TextField(raw, "name", r.value.update.name)
      && TextField(raw, "capital", r.value.update.capital)
      && TextField(raw, "region", r.value.update.region)
      && TextField(raw, "flag", r.value.update.flagUrl)
    ensures r.Success? ==> r.value.update.population == NumberOrZero(ToNumber(Member(raw, "population")))
    ensures r.Success? ==> (r.value.update.currencyCode.None? <==> CurrencyOf(raw) == Null)
    ensures r.Success? ==>
      r.value.update.currencyCode == (if Truthy(CurrencyOf(raw)) then Some(ToStr(CurrencyOf(raw))) else None)
    ensures r.Success? && r.value.update.currencyCode.None? ==>
      r.value.update.exchangeRate.None? && r.value.update.estimatedGdp == 0.0
    ensures r.Success? && r.value.update.currencyCode.Some? ==>
      && !IsNullish(rates)
      && var rate := Member(rates, r.value.update.currencyCode.value);
      && r.value.update.exchangeRate == (if Truthy(rate) then Some(ToNumber(rate)) else None)
      && r.value.update.estimatedGdp == EstimateGdp(Member(raw, "population"), rate, multiplier)
  {
    if IsNullish(raw) then Failure(TypeError("currencies"))
    else
      var code := CurrencyOf(raw);
      var lookup := RateFor(code, rates);
      if lookup.Failure? then Failure(lookup.error)
      else
        var rate := lookup.value;
        var gdp := EstimateGdp(Member(raw, "population"), rate, multiplier);
        var update := Country(
          name := ToStr(Or(Member(raw, "name"), Str(""))),
          capital := ToStr(Or(Member(raw, "capital"), Str(""))),
          region := ToStr(Or(Member(raw, "region"), Str(""))),
          population := NumberOrZero(ToNumber(Member(raw, "population"))),
          currencyCode := if Truthy(code) then Some(ToStr(code)) else None,
          exchangeRate := if Truthy(rate) then Some(ToNumber(rate)) else None,
          estimatedGdp := NumberOrZero(Finite(gdp)),
          flagUrl := ToStr(Or(Member(raw, "flag"), Str(""))),
          lastRefreshedAt := now);
        Success(Upsert(update.name, update))
  }

  /** The outcome of transforming each entry, in order; the i-th entry gets the i-th
      random multiplier. */
  function Transforms(items: seq<Value>, rates: Value, draw: nat -> real, now: Timestamp): (rs: seq<Result<Upsert, Exception>>)
    ensures |rs| == |items|
    ensures forall i :: 0 <= i < |items| ==> rs[i] == TransformCountry(items[i], rates, draw(i), now)
  {
    if items == [] then []
    else
      var n := |items| - 1;
      var rs := Transforms(items[..n], rates, draw, now) + [TransformCountry(items[n], rates, draw(n), now)];
      assert forall i :: 0 <= i < n ==> items[..n][i] == items[i];
      rs
  }

  /** The upserts carried by the successful outcomes, in order: what the loop pushes. */
  function Successes(rs: seq<Result<Upsert, Exception>>): (ops: seq<Upsert>)
    ensures |ops| <= |rs|
  {
    if rs == [] then []
    else
      var last := rs[|rs| - 1];
      Successes(rs[..|rs| - 1]) + (if last.Success? then [last.value] else [])
  }

  lemma SuccessesExtend(rs: seq<Result<Upsert, Exception>>, i: int)
    requires 0 <= i < |rs|
    ensures Successes(rs[..i + 1]) == Successes(rs[..i]) + (if rs[i].Success? then [rs[i].value] else [])
  {
    assert rs[..i + 1][..i] == rs[..i];
  }

  /** The positions of the failed outcomes. */
  function Failures(rs: seq<Result<Upsert, Exception>>): set<nat> {
    set i: nat | i < |rs| && rs[i].Failure?
  }

  lemma {:induction false} SuccessesMembership(rs: seq<Result<Upsert, Exception>>, op: Upsert)
    ensures op in Successes(rs) <==> exists i :: 0 <= i < |rs| && rs[i] == Success(op)
  {
    if rs != [] {
      var n := |rs| - 1;
      var prefix := rs[..n];
      SuccessesMembership(prefix, op);
      if op in Successes(prefix) {
        var i :| 0 <= i < n && prefix[i] == Success(op);
        assert rs[i] == Success(op);
      }
      if exists i :: 0 <= i < |rs| && rs[i] == Success(op) {
        var i :| 0 <= i < |rs| && rs[i] == Success(op);
        if i < n { assert prefix[i] == Success(op); }
      }
    }
  }

  lemma {:induction false} SuccessesCount(rs: seq<Result<Upsert, Exception>>)
    ensures |Successes(rs)| + |Failures(rs)| == |rs|
  {
    if rs != [] {
      var n := |rs| - 1;
      SuccessesCount(rs[..n]);
      FailuresSplit(rs);
      assert n !in Failures(rs[..n]);
    }
  }

  lemma FailuresSplit(rs: seq<Result<Upsert, Exception>>)
    requires rs != []
    ensures var n := |rs| - 1;
      Failures(rs) == Failures(rs[..n]) + (if rs[n].Failure? then {n} else {})
  {
    var n := |rs| - 1;
    var prefix := rs[..n];
    forall i: nat | i < n ensures prefix[i] == rs[i] { }
  }

  /** Two outcome lists that succeed at the same positions under the same names give
      the same names. */
  lemma {:induction false} SuccessNamesAgree(rs1: seq<Result<Upsert, Exception>>, rs2: seq<Result<Upsert, Exception>>)
    requires |rs1| == |rs2|
    requires forall i :: 0 <= i < |rs1| ==> rs1[i].Success? == rs2[i].Success?
    requires forall i :: 0 <= i < |rs1| && rs1[i].Success? ==> rs1[i].value.filter == rs2[i].value.filter
    ensures Names(Successes(rs1)) == Names(Successes(rs2))
  {
    if rs1 != [] {
      var n := |rs1| - 1;
      SuccessNamesAgree(rs1[..n], rs2[..n]);
      if rs1[n].Success? {
        NamesAppend(Successes(rs1[..n]), rs1[n].value);
        NamesAppend(Successes(rs2[..n]), rs2[n].value);
      }
    }
  }

  /** The operations the refresh loop collects: one upsert per entry whose transform
      does not throw, in the order of the entries. */
  function Batch(items: seq<Value>, rates: Value, draw: nat -> real, now: Timestamp): (ops: seq<Upsert>)
    ensures |ops| <= |items|
    ensures forall op :: op in ops ==> op.filter == op.update.name && op.update.lastRefreshedAt == now
  {
    var rs := Transforms(items, rates, draw, now);
    assert forall op :: op in Successes(rs) ==> op.filter == op.update.name && op.update.lastRefreshedAt == now by {
      forall op | op in Successes(rs) ensures op.filter == op.update.name && op.update.lastRefreshedAt == now {
        SuccessesMembership(rs, op);
        var i :| 0 <= i < |rs| && rs[i] == Success(op);
        assert TransformCountry(items[i], rates, draw(i), now) == Success(op);
      }
    }
    Successes(rs)
  }

  /** The positions of the entries the loop skips. */
  function Skipped(items: seq<Value>, rates: Value): set<nat> {
    set i: nat | i < |items| && IsSkipped(items[i], rates)
  }

  /** An operation is in the batch exactly when some entry transforms into it. */
  lemma BatchMembership(items: seq<Value>, rates: Value, draw: nat -> real, now: Timestamp, op: Upsert)
    ensures op in Batch(items, rates, draw, now) <==>
      exists i :: 0 <= i < |items| && TransformCountry(items[i], rates, draw(i), now) == Success(op)
  {
    var rs := Transforms(items, rates, draw, now);
    SuccessesMembership(rs, op);
    if op in Batch(items, rates, draw, now) {
      var i :| 0 <= i < |rs| && rs[i] == Success(op);
      assert TransformCountry(items[i], rates, draw(i), now) == Success(op);
    }
    if exists i :: 0 <= i < |items| && TransformCountry(items[i], rates, draw(i), now) == Success(op) {
      var i :| 0 <= i < |items| && TransformCountry(items[i], rates, draw(i), now) == Success(op);
      assert rs[i] == Success(op);
    }
  }

  /** Every entry lands either in the batch or among the skipped ones: the count the
      refresh returns is the number of entries minus the skipped ones. */
  lemma BatchCountsSuccesses(items: seq<Value>, rates: Value, draw: nat -> real, now: Timestamp)
    ensures |Batch(items, rates, draw, now)| + |Skipped(items, rates)| == |items|
  {
    var rs := Transforms(items, rates, draw, now);
    SuccessesCount(rs);
    forall i: nat | i < |items| ensures i in Failures(rs) <==> i in Skipped(items, rates) {
      assert rs[i] == TransformCountry(items[i], rates, draw(i), now);
    }
    assert Failures(rs) == Skipped(items, rates);
  }

  /** The names a batch upserts, in order. */
  function Names(ops: seq<Upsert>): (names: seq<string>)
    ensures |names| == |ops|
    ensures forall i :: 0 <= i < |ops| ==> names[i] == ops[i].filter
  {
    seq(|ops|, i requires 0 <= i < |ops| => ops[i].filter)
  }

  /** Which entries are upserted, and under which names, depends on the upstream data
      only: not on the random multipliers and not on the refresh time. */
  lemma BatchNamesIndependent(items: seq<Value>, rates: Value,
                              draw1: nat -> real, now1: Timestamp,
                              draw2: nat -> real, now2: Timestamp)
    ensures Names(Batch(items, rates, draw1, now1)) == Names(Batch(items, rates, draw2, now2))
  {
    var rs1, rs2 := Transforms(items, rates, draw1, now1), Transforms(items, rates, draw2, now2);
    forall i | 0 <= i < |items|
      ensures rs1[i].Success? == rs2[i].Success?
      ensures rs1[i].Success? ==> rs1[i].value.filter == rs2[i].value.filter
    {
      TransformNameIndependent(items[i], rates, draw1(i), now1, draw2(i), now2);
    }
    SuccessNamesAgree(rs1, rs2);
  }

  /** One more entry adds its upsert to the batch when its transform succeeds. */
  lemma BatchAppend(items: seq<Value>, rates: Value, draw: nat -> real, now: Timestamp)
    requires items != []
    ensures var n := |items| - 1;
      var t := TransformCountry(items[n], rates, draw(n), now);
      Batch(items, rates, draw, now) == Batch(items[..n], rates, draw, now) + (if t.Success? then [t.value] else [])
  {
    var n := |items| - 1;
    var rs := Transforms(items, rates, draw, now);
    assert rs[..n] == Transforms(items[..n], rates, draw, now);
  }

  /** Whether an entry is transformed, and the name it is filed under, do not depend
      on the multiplier or the clock. */
  lemma TransformNameIndependent(raw: Value, rates: Value, m1: real, now1: Timestamp, m2: real, now2: Timestamp)
    ensures var t1, t2 := TransformCountry(raw, rates, m1, now1), TransformCountry(raw, rates, m2, now2);
      t1.Success? == t2.Success? && (t1.Success? ==> t1.value.filter == t2.value.filter)
  {
  }

  lemma NamesAppend(ops: seq<Upsert>, op: Upsert)
    ensures Names(ops + [op]) == Names(ops) + [op.filter]
  {
  }
}
