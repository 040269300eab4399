/**
  The read side of the service over the store's records (a map from name to record):
  `getAllCountries` (filters and sort selection), `getACountryByName` and
  `getCountryStatus`.
 */
module Queries {
  import opened Wrappers
  import opened CountryModel
  import opened Ordering

  // ---------------------------------------------------------------- case folding

  function LowerChar(c: char): char {
    if 'A' <= c <= 'Z' then (c as int + 32) as char else c
  }

  function UpperChar(c: char): char {
    if 'a' <= c <= 'z' then (c as int - 32) as char else c
  }

  /** Case folding, as a case-insensitive pattern compares characters. */
  function Fold(s: string): (t: string)
    ensures |t| == |s|
  {
    seq(|s|, i requires 0 <= i < |s| => LowerChar(s[i]))
  }

  /** `s.toUpperCase()` */
  function ToUpper(s: string): (t: string)
    ensures |t| == |s|
  {
    seq(|s|, i requires 0 <= i < |s| => UpperChar(s[i]))
  }

  /** The stored name matches `^query$` case-insensitively. */
  predicate NameMatches(stored: string, query: string) {
    Fold(stored) == Fold(query)
  }

  /** `needle` occurs somewhere in `hay` (an unanchored pattern match). */
  predicate Contains(hay: string, needle: string)
    decreases |hay|
  {
    needle <= hay || (|hay| > 0 && Contains(hay[1..], needle))
  }

  /** `needle` sits in `hay` starting at position i. */
  predicate OccursAt(hay: string, needle: string, i: int) {
    0 <= i && i + |needle| <= |hay| && hay[i..i + |needle|] == needle
  }

  /** `Contains` is the substring relation. */
  lemma {:induction false} ContainsIsInfix(hay: string, needle: string)
    ensures Contains(hay, needle) <==> exists i :: OccursAt(hay, needle, i)
    decreases |hay|
  {
    if needle <= hay {
      assert OccursAt(hay, needle, 0);
    } else {
      if |hay| > 0 {
        ContainsIsInfix(hay[1..], needle);
        if Contains(hay[1..], needle) {
          var i :| OccursAt(hay[1..], needle, i);
          assert hay[i + 1..i + 1 + |needle|] == hay[1..][i..i + |needle|];
          assert OccursAt(hay, needle, i + 1);
        }
      }
      if exists i :: OccursAt(hay, needle, i) {
        var i :| OccursAt(hay, needle, i);
        if i > 0 {
          assert hay[1..][i - 1..i - 1 + |needle|] == hay[i..i + |needle|];
          assert OccursAt(hay[1..], needle, i - 1);
        }
      }
    }
  }

  // ---------------------------------------------------------------- filters and sort

  /** `filters` of `getAllCountries`; a filter applies only when it is a non-empty string. */
  datatype Filters = Filters(region: Option<string>, currency: Option<string>)

  /** `sort` of `getAllCountries`. */
  datatype SortOptions = SortOptions(gdpDesc: bool, gdpAsc: bool)

  /** `if (filters.x)`: present and truthy. */
  predicate Present(o: Option<string>) {
    o.Some? && o.value != ""
  }

  /** The query document: region as a case-insensitive substring, currency code equal to
      the upper-cased filter. */
  predicate Matches(c: Country, f: Filters) {
    && (Present(f.region) ==> Contains(Fold(c.region), Fold(f.region.value)))
    && (Present(f.currency) ==> c.currencyCode == Some(ToUpper(f.currency.value)))
  }

  predicate NamesAscending(s: seq<Country>) {
    forall i, j :: 0 <= i < j < |s| ==> StrLt(s[i].name, s[j].name)
  }

  predicate DistinctNames(s: seq<Country>) {
    forall i, j :: 0 <= i < j < |s| ==> s[i].name != s[j].name
  }

  predicate GdpBefore(a: Country, b: Country, desc: bool) {
    if desc then a.estimatedGdp >= b.estimatedGdp else a.estimatedGdp <= b.estimatedGdp
  }

  predicate GdpOrdered(s: seq<Country>, desc: bool) {
    forall i, j :: 0 <= i < j < |s| ==> GdpBefore(s[i], s[j], desc)
  }

  /** The records stored under `names`, in that order. */
  function RecordsAt(db: map<string, Country>, names: seq<string>): (recs: seq<Country>)
    requires forall k :: k in names ==> k in db
    ensures |recs| == |names|
    ensures forall i :: 0 <= i < |names| ==> recs[i] == db[names[i]]
  {
    seq(|names|, i requires 0 <= i < |names| => db[names[i]])
  }

  /** Every record of the store, once each, in ascending name order. */
  function RecordsByName(db: map<string, Country>): (recs: seq<Country>)
    requires KeyedByName(db)
    ensures forall c :: c in recs <==> c.name in db && db[c.name] == c
    ensures NamesAscending(recs)
  {
    var names := SortedNames(db.Keys);
    var recs := RecordsAt(db, names);
    RecordsByNameFacts(db, names, recs);
    recs
  }

  lemma RecordsByNameFacts(db: map<string, Country>, names: seq<string>, recs: seq<Country>)
    requires KeyedByName(db)
    requires forall k :: k in names <==> k in db
    requires forall i, j :: 0 <= i < j < |names| ==> StrLt(names[i], names[j])
    requires |recs| == |names| && forall i :: 0 <= i < |names| ==> recs[i] == db[names[i]]
    ensures forall c :: c in recs <==> c.name in db && db[c.name] == c
    ensures NamesAscending(recs)
  {
    forall c | c in recs ensures c.name in db && db[c.name] == c {
      var i :| 0 <= i < |recs| && recs[i] == c;
      assert c == db[names[i]];
    }
    forall c: Country | c.name in db && db[c.name] == c ensures c in recs {
      var i := Index(names, c.name);
      assert recs[i] == c;
    }
    forall i, j | 0 <= i < j < |recs| ensures StrLt(recs[i].name, recs[j].name) {
      assert recs[i].name == names[i] && recs[j].name == names[j];
    }
  }

  /** The position of an element of a sequence. */
  function Index<T(==)>(s: seq<T>, x: T): (i: nat)
    requires x in s
    ensures i < |s| && s[i] == x
  {
    if s[0] == x then 0 else 1 + Index(s[1..], x)
  }

  lemma AscendingSplit(s: seq<Country>)
    requires |s| > 0 && NamesAscending(s)
    ensures NamesAscending(s[1..])
    ensures forall y :: y in s[1..] ==> StrLt(s[0].name, y.name)
  {
    forall y | y in s[1..] ensures StrLt(s[0].name, y.name) {
      var k := Index(s[1..], y);
      assert s[k + 1] == y;
    }
  }

  lemma AscendingPrepend(x: Country, rest: seq<Country>)
    requires NamesAscending(rest)
    requires forall y :: y in rest ==> StrLt(x.name, y.name)
    ensures NamesAscending([x] + rest)
  {
    var r := [x] + rest;
    forall i, j | 0 <= i < j < |r| ensures StrLt(r[i].name, r[j].name) {
      assert r[j] == rest[j - 1];
      if i > 0 { assert r[i] == rest[i - 1]; }
    }
  }

  lemma DistinctSplit(s: seq<Country>)
    requires |s| > 0 && DistinctNames(s)
    ensures DistinctNames(s[1..])
    ensures forall y :: y in s[1..] ==> y.name != s[0].name
  {
    forall y | y in s[1..] ensures y.name != s[0].name {
      var k := Index(s[1..], y);
      assert s[k + 1] == y;
    }
    forall i, j | 0 <= i < j < |s[1..]| ensures s[1..][i].name != s[1..][j].name {
      assert s[1..][i] == s[i + 1] && s[1..][j] == s[j + 1];
    }
  }

  lemma DistinctPrepend(x: Country, rest: seq<Country>)
    requires DistinctNames(rest)
    requires forall y :: y in rest ==> y.name != x.name
    ensures DistinctNames([x] + rest)
  {
    var r := [x] + rest;
    forall i, j | 0 <= i < j < |r| ensures r[i].name != r[j].name {
      assert r[j] == rest[j - 1];
      if i > 0 { assert r[i] == rest[i - 1]; }
    }
  }

  lemma GdpSplit(s: seq<Country>, desc: bool)
    requires |s| > 0 && GdpOrdered(s, desc)
    ensures GdpOrdered(s[1..], desc)
    ensures forall y :: y in s[1..] ==> GdpBefore(s[0], y, desc)
  {
    forall y | y in s[1..] ensures GdpBefore(s[0], y, desc) {
      var k := Index(s[1..], y);
      assert s[k + 1] == y;
    }
    forall i, j | 0 <= i < j < |s[1..]| ensures GdpBefore(s[1..][i], s[1..][j], desc) {
      assert s[1..][i] == s[i + 1] && s[1..][j] == s[j + 1];
    }
  }

  lemma GdpPrepend(x: Country, rest: seq<Country>, desc: bool)
    requires GdpOrdered(rest, desc)
    requires forall y :: y in rest ==> GdpBefore(x, y, desc)
    ensures GdpOrdered([x] + rest, desc)
  {
    var r := [x] + rest;
    forall i, j | 0 <= i < j < |r| ensures GdpBefore(r[i], r[j], desc) {
      assert r[j] == rest[j - 1];
      if i > 0 { assert r[i] == rest[i - 1]; }
    }
  }

  function FilterMatching(s: seq<Country>, f: Filters): (r: seq<Country>)
    ensures forall c :: c in r <==> c in s && Matches(c, f)
    ensures NamesAscending(s) ==> NamesAscending(r)
  {
    if s == [] then []
    else
      assert s == [s[0]] + s[1..];
      var rest := FilterMatching(s[1..], f);
      if Matches(s[0], f) then
        assert NamesAscending(s) ==> NamesAscending([s[0]] + rest) by {
          if NamesAscending(s) {
            AscendingSplit(s);
            AscendingPrepend(s[0], rest);
          }
        }
        [s[0]] + rest
      else
        assert NamesAscending(s) ==> NamesAscending(s[1..]) by {
          if NamesAscending(s) { AscendingSplit(s); }
        }
        rest
  }

  /** Stable insertion of `c` into a GDP-ordered sequence. */
  function InsertByGdp(c: Country, s: seq<Country>, desc: bool): (r: seq<Country>)
    requires GdpOrdered(s, desc)
    ensures GdpOrdered(r, desc)
    ensures multiset(r) == multiset(s) + multiset{c}
    ensures DistinctNames(s) && (forall x :: x in s ==> x.name != c.name) ==> DistinctNames(r)
  {
    if s == [] || GdpBefore(c, s[0], desc) then
      InsertInFront(c, s, desc);
      [c] + s
    else
      GdpSplit(s, desc);
      var rest := InsertByGdp(c, s[1..], desc);
      InsertBehind(c, s, rest, desc);
      [s[0]] + rest
  }

  lemma InsertInFront(c: Country, s: seq<Country>, desc: bool)
    requires GdpOrdered(s, desc)
    requires s == [] || GdpBefore(c, s[0], desc)
    ensures GdpOrdered([c] + s, desc)
    ensures multiset([c] + s) == multiset(s) + multiset{c}
    ensures DistinctNames(s) && (forall x :: x in s ==> x.name != c.name) ==> DistinctNames([c] + s)
  {
    assert forall y :: y in s ==> GdpBefore(c, y, desc) by {
      if s != [] { GdpSplit(s, desc); }
    }
    GdpPrepend(c, s, desc);
    if DistinctNames(s) && (forall x :: x in s ==> x.name != c.name) { DistinctPrepend(c, s); }
  }

  lemma InsertBehind(c: Country, s: seq<Country>, rest: seq<Country>, desc: bool)
    requires s != [] && GdpOrdered(s, desc) && !GdpBefore(c, s[0], desc)
    requires GdpOrdered(rest, desc)
    requires multiset(rest) == multiset(s[1..]) + multiset{c}
    requires DistinctNames(s[1..]) && (forall x :: x in s[1..] ==> x.name != c.name) ==> DistinctNames(rest)
    ensures GdpOrdered([s[0]] + rest, desc)
    ensures multiset([s[0]] + rest) == multiset(s) + multiset{c}
    ensures DistinctNames(s) && (forall x :: x in s ==> x.name != c.name) ==> DistinctNames([s[0]] + rest)
  {
    assert s == [s[0]] + s[1..];
    GdpSplit(s, desc);
    assert GdpBefore(s[0], c, desc);
    assert forall x :: x in rest ==> x == c || x in s[1..] by {
      forall x | x in rest ensures x == c || x in s[1..] {
        assert x in multiset(rest);
      }
    }
    GdpPrepend(s[0], rest, desc);
    if DistinctNames(s) && (forall x :: x in s ==> x.name != c.name) {
      DistinctSplit(s);
      DistinctPrepend(s[0], rest);
    }
  }

  /** The records ordered by estimated GDP, ties kept in their input order. */
  function SortByGdp(s: seq<Country>, desc: bool): (r: seq<Country>)
    ensures GdpOrdered(r, desc)
    ensures multiset(r) == multiset(s)
    ensures DistinctNames(s) ==> DistinctNames(r)
  {
    if s == [] then []
    else
      var sorted := SortByGdp(s[1..], desc);
      assert s == [s[0]] + s[1..];
      assert DistinctNames(s) ==> DistinctNames(sorted) && forall x :: x in sorted ==> x.name != s[0].name by {
        if DistinctNames(s) {
          DistinctSplit(s);
          forall x | x in sorted ensures x.name != s[0].name {
            assert x in multiset(sorted);
          }
        }
      }
      InsertByGdp(s[0], sorted, desc)
  }

  lemma AscendingIsDistinct(s: seq<Country>)
    requires NamesAscending(s)
    ensures DistinctNames(s)
  {
  }

  lemma SameElements(a: seq<Country>, b: seq<Country>)
    requires multiset(a) == multiset(b)
    ensures forall c :: c in a <==> c in b
  {
    forall c ensures c in a <==> c in b {
      assert c in a <==> c in multiset(a);
      assert c in b <==> c in multiset(b);
    }
  }

  /** `getAllCountries`: exactly the matching records, each once; ordered by GDP
      descending when `gdp_desc` is set, else by GDP ascending when `gdp_asc` is set,
      else by name. */
  function GetAllCountries(db: map<string, Country>, filters: Filters, sort: SortOptions): (r: seq<Country>)
    requires KeyedByName(db)
    ensures forall c :: c in r <==> c.name in db && db[c.name] == c && Matches(c, filters)
    ensures DistinctNames(r)
    ensures sort.gdpDesc ==> GdpOrdered(r, true)
    ensures !sort.gdpDesc && sort.gdpAsc ==> GdpOrdered(r, false)
    ensures !sort.gdpDesc && !sort.gdpAsc ==> NamesAscending(r)
  {
    var matching := FilterMatching(RecordsByName(db), filters);
    AscendingIsDistinct(matching);
    if sort.gdpDesc || sort.gdpAsc then
      var sorted := SortByGdp(matching, sort.gdpDesc);
      SameElements(sorted, matching);
      sorted
    else matching
  }

  // ---------------------------------------------------------------- lookup by name

  /** `getACountryByName`: a record whose name equals `name` up to case, or None when
      there is none; among several such records, the one with the least name. */
  function GetACountryByName(db: map<string, Country>, name: string): (r: Option<Country>)
    requires KeyedByName(db)
    ensures r.Some? <==> exists k :: k in db && NameMatches(k, name)
    ensures r.Some? ==> r.value.name in db && db[r.value.name] == r.value && NameMatches(r.value.name, name)
    ensures r.Some? ==> forall k :: k in db && NameMatches(k, name) ==> StrLe(r.value.name, k)
  {
    var matching := set k | k in db && NameMatches(k, name);
    if matching == {} then
      assert forall k :: k in db && NameMatches(k, name) ==> k in matching;
      None
    else
      LeastExists(matching);
      LeastUnique(matching);
      var k :| IsLeast(k, matching);
      Some(db[k])
  }

  /** The lookup ignores case: "FRANCE" and "france" find the same record. */
  lemma LookupIgnoresCase(db: map<string, Country>, a: string, b: string)
    requires KeyedByName(db)
    requires Fold(a) == Fold(b)
    ensures GetACountryByName(db, a) == GetACountryByName(db, b)
  {
    var ra, rb := GetACountryByName(db, a), GetACountryByName(db, b);
    if ra.Some? {
      assert rb.Some?;
      StrLeAntisymmetric(ra.value.name, rb.value.name);
    }
  }

  /** After the matched record is removed, a lookup of the same name finds nothing
      unless another stored name equals it up to case. */
  lemma LookupAfterRemoval(db: map<string, Country>, name: string)
    requires KeyedByName(db)
    requires GetACountryByName(db, name).Some?
    ensures var gone := GetACountryByName(db, name).value.name;
      GetACountryByName(db - {gone}, name).None? <==>
        forall k :: k in db && NameMatches(k, name) ==> k == gone
  {
    var gone := GetACountryByName(db, name).value.name;
    var rest := db - {gone};
    assert KeyedByName(rest) by {
      forall k | k in rest ensures rest[k].name == k { assert rest[k] == db[k]; }
    }
    var others := forall k :: k in db && NameMatches(k, name) ==> k == gone;
    if others {
      forall k | k in rest ensures !NameMatches(k, name) { assert k in db && k != gone; }
    } else {
      var k :| k in db && NameMatches(k, name) && k != gone;
      assert k in rest;
    }
  }

  // ---------------------------------------------------------------- status

  datatype Status = Status(totalCountries: nat, lastRefreshedAt: Option<Timestamp>)

  /** The latest `last_refreshed_at` among the records stored under `names`. */
  function Latest(db: map<string, Country>, names: seq<string>): (t: Option<Timestamp>)
    requires forall k :: k in names ==> k in db
    ensures t.None? <==> names == []
    ensures t.Some? ==> exists i :: 0 <= i < |names| && db[names[i]].lastRefreshedAt == t.value
    ensures t.Some? ==> forall i :: 0 <= i < |names| ==> db[names[i]].lastRefreshedAt <= t.value
  {
    if names == [] then None
    else
      var here := db[names[0]].lastRefreshedAt;
      var rest := Latest(db, names[1..]);
      assert forall i :: 1 <= i < |names| ==> names[i] == names[1..][i - 1];
      if rest.Some? && rest.value > here then rest else Some(here)
  }

  /** `getCountryStatus`: the number of records and the most recent refresh time,
      None when the store is empty. */
  function GetCountryStatus(db: map<string, Country>): (s: Status)
    ensures s.totalCountries == |db|
    ensures s.lastRefreshedAt.None? <==> |db| == 0
    ensures s.lastRefreshedAt.Some? ==>
      && (exists k :: k in db && db[k].lastRefreshedAt == s.lastRefreshedAt.value)
      && (forall k :: k in db ==> db[k].lastRefreshedAt <= s.lastRefreshedAt.value)
  {
    var names := SortedNames(db.Keys);
    LatestOfAllKeys(db, names);
    Status(|db|, Latest(db, names))
  }

  lemma LatestOfAllKeys(db: map<string, Country>, names: seq<string>)
    requires forall k :: k in names <==> k in db
    requires |names| == |db.Keys|
    ensures Latest(db, names).None? <==> |db| == 0
    ensures Latest(db, names).Some? ==>
      && (exists k :: k in db && db[k].lastRefreshedAt == Latest(db, names).value)
      && (forall k :: k in db ==> db[k].lastRefreshedAt <= Latest(db, names).value)
  {
    assert |db| == |db.Keys|;
    var t := Latest(db, names);
    if t.Some? {
      var i :| 0 <= i < |names| && db[names[i]].lastRefreshedAt == t.value;
      assert names[i] in db;
      forall k | k in db ensures db[k].lastRefreshedAt <= t.value {
        var j :| 0 <= j < |names| && names[j] == k;
      }
    }
  }
}
