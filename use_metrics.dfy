/** The `useMetrics` hook: when the metrics query may run, the cache key it is
    stored under, and the request it sends to `GET /api/metrics`. */
module UseMetrics {
  import opened Wrappers
  import opened Text
  import opened JsValues
  import opened MetricFields
  import MetricsRoute

  /** The hook's arguments; every one of them may be missing. */
  datatype MetricsArgs = MetricsArgs(datasetId: Option<string>, from: Option<JsNumber>,
                                     to: Option<JsNumber>, fields: Option<seq<MetricField>>)

  /** `canFetch`: a non-empty dataset id and two finite numbers. */
  predicate CanFetch(p: MetricsArgs)
    ensures CanFetch(p) <==> exists id, f, t :: p.datasetId == Some(id) && id != "" &&
                                               p.from == Some(Finite(f)) && p.to == Some(Finite(t))
  {
    p.datasetId.Some? && |p.datasetId.value| > 0 &&
    p.from.Some? && IsFinite(p.from.value) &&
    p.to.Some? && IsFinite(p.to.value)
  }

  /** The query key: a missing dataset id becomes `''`, a missing bound `null`
      (`None`), missing fields `[]`, and the fields are sorted. */
  datatype MetricsKey = MetricsKey(datasetId: string, from: Option<JsNumber>, to: Option<JsNumber>,
                                   fields: seq<MetricField>)

  function FieldsOrEmpty(fields: Option<seq<MetricField>>): seq<MetricField> {
    if fields.Some? then fields.value else []
  }

  /** `metricsKey`. */
  function KeyOf(p: MetricsArgs): (r: MetricsKey)
    ensures r.datasetId == (if p.datasetId.Some? then p.datasetId.value else "")
    ensures r.from == p.from && r.to == p.to
    ensures Sorted(r.fields) && multiset(r.fields) == multiset(FieldsOrEmpty(p.fields))
  {
    MetricsKey(if p.datasetId.Some? then p.datasetId.value else "", p.from, p.to,
               SortFields(FieldsOrEmpty(p.fields)))
  }

  /** Two argument sets that differ only in the order of their fields share
      one cache entry. */
  lemma KeyIgnoresFieldOrder(p: MetricsArgs, q: MetricsArgs)
    requires p.datasetId == q.datasetId && p.from == q.from && p.to == q.to
    requires multiset(FieldsOrEmpty(p.fields)) == multiset(FieldsOrEmpty(q.fields))
    ensures KeyOf(p) == KeyOf(q)
  {
    SortPermutationInvariant(FieldsOrEmpty(p.fields), FieldsOrEmpty(q.fields));
  }

  /** Missing fields and an empty field list share one cache entry. */
  lemma KeyOfMissingFields(p: MetricsArgs)
    requires p.fields.None?
    ensures KeyOf(p) == KeyOf(p.(fields := Some([])))
  {
  }

  /** The parameters `fetchMetrics` receives. */
  datatype MetricsRequest = MetricsRequest(datasetId: string, from: int, to: int,
                                           fields: Option<seq<MetricField>>)

  const GuardMessage: string := "metrics query called without required params"

  /** What `queryFn` does: throw, or call `fetchMetrics`. */
  datatype QueryOutcome = Throws(message: string) | Fetch(request: MetricsRequest)

  /** `queryFn`: throws unless `canFetch` holds, and otherwise passes the
      arguments on with the fields in the caller's order. */
  function QueryFn(p: MetricsArgs): (r: QueryOutcome)
    ensures r.Fetch? <==>
              p.datasetId.Some? && p.datasetId.value != "" &&
              p.from.Some? && p.from.value.Finite? && p.to.Some? && p.to.value.Finite?
    ensures r.Throws? ==> r.message == GuardMessage
    ensures r.Fetch? ==>
              Some(r.request.datasetId) == p.datasetId &&
              Some(Finite(r.request.from)) == p.from && Some(Finite(r.request.to)) == p.to &&
              r.request.fields == p.fields
  {
    if !CanFetch(p) then Throws(GuardMessage)
    else Fetch(MetricsRequest(p.datasetId.value, p.from.value.value, p.to.value.value, p.fields))
  }

  /** `enabled`: the query runs on its own exactly when `canFetch` holds. */
  predicate Enabled(p: MetricsArgs) {
    CanFetch(p)
  }

  /** An enabled query never reaches the throw, and a disabled one always does. */
  lemma EnabledQueryFetches(p: MetricsArgs)
    ensures Enabled(p) <==> QueryFn(p).Fetch?
    ensures !Enabled(p) ==> QueryFn(p) == Throws(GuardMessage)
  {
  }

  /** The query string `fetchMetrics` sends: the bounds in decimal, the fields
      joined with commas, and no `fields` parameter when there are none. */
  function QueryOf(req: MetricsRequest): MetricsRoute.MetricsQuery {
    MetricsRoute.MetricsQuery(Some(req.datasetId), Some(IntToDecimal(req.from)), Some(IntToDecimal(req.to)),
                              if req.fields.Some? then Some(Join(MetricsRoute.Names(req.fields.value), ',')) else None)
  }

  /** The endpoint reads back the bounds the hook sent, and the fields in the
      order the caller gave them; with no fields it serves all of them. */
  lemma RequestRoundTrip(req: MetricsRequest)
    ensures var q := QueryOf(req);
            && MetricsRoute.ParseTimestamp(q.from) == Some(req.from)
            && MetricsRoute.ParseTimestamp(q.to) == Some(req.to)
            && MetricsRoute.ParseFields(q.fields) ==
                 (if req.fields.None? || req.fields.value == [] then AllFields else req.fields.value)
  {
    MetricsRoute.ParseTimestampOfDecimal(req.from);
    MetricsRoute.ParseTimestampOfDecimal(req.to);
    if req.fields.Some? && req.fields.value != [] {
      MetricsRoute.ParseFieldsOfJoin(req.fields.value);
    }
  }
}
