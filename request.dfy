/**
 * Request: the value handed to an application handler. The constructor
 * normalises the body and the query filters; the header getters are
 * dictionary lookups.
 */
module Requests {
  import opened Strings
  import opened Dictionaries

  /** The collection HttpUtility.ParseQueryString builds, kept as the query text it came from. */
  datatype Filter = Filter(query: string)

  /**
   * NameValueCollection.HasKeys() of a parsed query: a pair without '=' is
   * stored under a null key, so some key is non-null exactly when a '=' occurs.
   */
  predicate HasKeys(f: Filter) {
    '=' in f.query
  }

  datatype Request = Request(
    body: string,
    hasBody: bool,
    filters: Option<Filter>,
    hasFilter: bool,
    headers: seq<Entry>)

  /** The Request constructor; None stands for a null filter or body. */
  function NewRequest(filter: Option<Filter>, headers: seq<Entry>, body: Option<string>): (r: Request)
    ensures r.headers == headers
  {
    var hasFilter := filter.Some? && HasKeys(filter.value);
    Request(
      if IsNullOrWhiteSpace(body) then "" else body.value,
      body.Some?,
      if hasFilter then filter else None,
      hasFilter,
      headers)
  }

  /** Body is empty for a null or white-space body; HasBody tells null apart from present. */
  lemma BodyNormalised(filter: Option<Filter>, headers: seq<Entry>, body: Option<string>)
    ensures var r := NewRequest(filter, headers, body);
      && (r.hasBody <==> body.Some?)
      && (body.None? ==> r.body == "")
      && (body.Some? && IsNullOrWhiteSpace(body) ==> r.body == "" && r.hasBody)
      && (!IsNullOrWhiteSpace(body) ==> r.body == body.value)
  {
  }

  /** HasFilter holds iff the filter is present and has keys; Filters is null otherwise. */
  lemma FiltersNormalised(filter: Option<Filter>, headers: seq<Entry>, body: Option<string>)
    ensures var r := NewRequest(filter, headers, body);
      && (r.hasFilter <==> filter.Some? && HasKeys(filter.value))
      && (r.hasFilter ==> r.filters == filter)
      && (!r.hasFilter ==> r.filters.None?)
  {
  }

  /** GetHeader: the stored value, or None (null) for a missing key. */
  function GetHeader(r: Request, key: string): (v: Option<string>)
    ensures v.Some? <==> key in Keys(r.headers)
    ensures v.Some? ==> Entry(key, v.value) in r.headers
  {
    Find(r.headers, key)
  }

  /** TryGetHeader: true and the value when present; false and null otherwise. */
  function TryGetHeader(r: Request, key: string): (result: (bool, Option<string>))
    ensures result.0 <==> key in Keys(r.headers)
    ensures result.1 == GetHeader(r, key)
  {
    var v := Find(r.headers, key);
    (v.Some?, v)
  }

  /** GetHeaders: the stored pairs, in the dictionary's order. */
  function GetHeaders(r: Request): seq<Entry> {
    r.headers
  }

  /** GetHeaders lists exactly the pairs GetHeader reports. */
  lemma GetHeadersExact(r: Request, key: string, value: string)
    requires UniqueKeys(r.headers)
    ensures Entry(key, value) in GetHeaders(r) <==> GetHeader(r, key) == Some(value)
  {
  }
}
