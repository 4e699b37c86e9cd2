/**
 * The `page` query parameter, on the dictionary `parse_qs` produces: every key
 * of the query string once, in order of first appearance, with the list of
 * its values. Percent-encoding is not modelled; keys and values are the
 * decoded strings.
 */
module PageQuery {
  import opened Wrappers
  import opened Numbers

  /** One dictionary entry: a query key and its values, in the order they appeared. */
  datatype Param = Param(key: string, values: seq<string>)

  /** The dictionary, in insertion order. */
  type Query = seq<Param>

  const PageKey: string := "page"

  function Keys(q: Query): (ks: seq<string>)
    ensures |ks| == |q|
    ensures forall i :: 0 <= i < |q| ==> ks[i] == q[i].key
  {
    if |q| == 0 then [] else [q[0].key] + Keys(q[1..])
  }

  /**
   * What `parse_qs` returns: no key twice, every key with at least one value,
   * and no blank value (blank values are dropped by default).
   */
  predicate WellFormed(q: Query) {
    && (forall i, j :: 0 <= i < j < |q| ==> q[i].key != q[j].key)
    && (forall i :: 0 <= i < |q| ==> |q[i].values| > 0)
    && (forall i, j :: 0 <= i < |q| && 0 <= j < |q[i].values| ==> q[i].values[j] != "")
  }

  /** `query.get(k)`. */
  function Lookup(q: Query, k: string): (r: Option<seq<string>>)
    ensures r.None? <==> k !in Keys(q)
    ensures r.Some? ==> exists i :: 0 <= i < |q| && q[i].key == k && q[i].values == r.value
  {
    if |q| == 0 then None
    else if q[0].key == k then Some(q[0].values)
    else Lookup(q[1..], k)
  }

  /** `int(query['page'][0])`, or `None` where that raises. */
  function PageNumber(q: Query): (r: Option<int>)
    ensures r.Some? ==> PageKey in Keys(q) && |Lookup(q, PageKey).value| > 0
  {
    match Lookup(q, PageKey)
    case None => None
    case Some(vs) => if |vs| == 0 then None else ParseInt(vs[0])
  }

  /** Appending an entry changes only the lookup of a key that was absent. */
  lemma {:induction false} LookupAppend(q: Query, p: Param, k: string)
    ensures Lookup(q + [p], k) ==
      if k in Keys(q) then Lookup(q, k) else if p.key == k then Some(p.values) else None
  {
    if |q| > 0 {
      assert (q + [p])[1..] == q[1..] + [p];
      LookupAppend(q[1..], p, k);
    }
  }

  /**
   * `if 'page' not in query: query['page'] = '1'`: assigning to a new key
   * appends it; the string `'1'` is encoded by `urlencode(doseq=True)` as the
   * single value `1`.
   */
  function Normalise(q: Query): (r: Query)
    ensures PageKey in Keys(q) ==> r == q
    ensures PageKey !in Keys(q) ==> Keys(r) == Keys(q) + [PageKey]
  {
    if PageKey in Keys(q) then q
    else
      var r := q + [Param(PageKey, ["1"])];
      assert Keys(r) == Keys(q) + [PageKey];
      r
  }

  /** After normalisation `page` has its old values, or the single value `1` if it was absent; every other key is unchanged. */
  lemma NormaliseLookup(q: Query, k: string)
    ensures Lookup(Normalise(q), k) ==
      if k == PageKey && PageKey !in Keys(q) then Some(["1"]) else Lookup(q, k)
  {
    if PageKey !in Keys(q) {
      LookupAppend(q, Param(PageKey, ["1"]), k);
    }
  }

  /** Normalisation keeps a query well formed. */
  lemma NormaliseWellFormed(q: Query)
    requires WellFormed(q)
    ensures WellFormed(Normalise(q))
  {
    var r := Normalise(q);
    if PageKey !in Keys(q) {
      assert forall i :: 0 <= i < |q| ==> r[i] == q[i];
    }
  }

  /** A normalised query is left alone by a second normalisation. */
  lemma NormaliseIdempotent(q: Query)
    ensures Normalise(Normalise(q)) == Normalise(q)
    ensures PageKey in Keys(Normalise(q))
  {
  }

  /** Every entry with key `k` gets the values `vs`; the order of the keys is kept. */
  function SetValues(q: Query, k: string, vs: seq<string>): (r: Query)
    ensures Keys(r) == Keys(q)
    ensures forall i :: 0 <= i < |q| ==> r[i] == if q[i].key == k then Param(k, vs) else q[i]
  {
    if |q| == 0 then []
    else [if q[0].key == k then Param(k, vs) else q[0]] + SetValues(q[1..], k, vs)
  }

  /** Replacing the values of `k` is seen by a lookup of `k` only. */
  lemma {:induction false} SetValuesLookup(q: Query, k: string, vs: seq<string>, k': string)
    ensures Lookup(SetValues(q, k, vs), k') ==
      if k' == k && k in Keys(q) then Some(vs) else Lookup(q, k')
  {
    if |q| > 0 {
      SetValuesLookup(q[1..], k, vs, k');
    }
  }

  /** Replacing the values of a key by a non-empty list without blanks keeps a query well formed. */
  lemma SetValuesWellFormed(q: Query, k: string, vs: seq<string>)
    requires WellFormed(q)
    requires |vs| > 0 && forall j :: 0 <= j < |vs| ==> vs[j] != ""
    ensures WellFormed(SetValues(q, k, vs))
  {
  }

  /** The outcome of the automatic page increment. */
  datatype Increment =
    | Incremented(query: Query)  // the query of the next page
    | NoPageKey                  // no `page` key: no next page is derived
    | BadPageValue               // `int(...)` raised: the crawl's exception handler ends pagination

  /**
   * `query['page'] = str(int(query['page'][0]) + 1)`: the first value is read
   * as an integer and the key's whole value list is replaced by the single
   * incremented value.
   */
  function IncrementPage(q: Query): (r: Increment)
    ensures r.NoPageKey? <==> PageKey !in Keys(q)
    ensures r.BadPageValue? <==> PageKey in Keys(q) && PageNumber(q).None?
    ensures r.Incremented? ==> Keys(r.query) == Keys(q)
  {
    if PageKey !in Keys(q) then NoPageKey
    else match PageNumber(q)
      case None => BadPageValue
      case Some(n) => Incremented(SetValues(q, PageKey, [IntToString(n + 1)]))
  }

  /** The increment replaces the `page` values by the single next number and leaves every other key alone. */
  lemma IncrementPageLookup(q: Query, k: string)
    requires IncrementPage(q).Incremented?
    ensures Lookup(IncrementPage(q).query, k) ==
      if k == PageKey then Some([IntToString(PageNumber(q).value + 1)]) else Lookup(q, k)
  {
    SetValuesLookup(q, PageKey, [IntToString(PageNumber(q).value + 1)], k);
  }

  /** The increment leaves the values of every key but `page` as they were. */
  lemma IncrementKeepsOthers(q: Query)
    requires IncrementPage(q).Incremented?
    ensures forall k :: k != PageKey ==> Lookup(IncrementPage(q).query, k) == Lookup(q, k)
  {
    forall k | k != PageKey
      ensures Lookup(IncrementPage(q).query, k) == Lookup(q, k)
    {
      IncrementPageLookup(q, k);
    }
  }

  /** The increment keeps a query well formed. */
  lemma IncrementPageWellFormed(q: Query)
    requires WellFormed(q) && IncrementPage(q).Incremented?
    ensures WellFormed(IncrementPage(q).query)
  {
    var v := IntToString(PageNumber(q).value + 1);
    assert v != "";
    SetValuesWellFormed(q, PageKey, [v]);
  }

  /** The incremented query reads back as the next page number. */
  lemma IncrementAdvances(q: Query)
    requires PageNumber(q).Some?
    ensures IncrementPage(q).Incremented?
    ensures PageNumber(IncrementPage(q).query) == Some(PageNumber(q).value + 1)
  {
    IntToStringRoundTrip(PageNumber(q).value + 1);
    IncrementPageLookup(q, PageKey);
  }
}
