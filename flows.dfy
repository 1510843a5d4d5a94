/**
  The request-parameter layer of the flows endpoint (`pkg/handler/flows.go`):
  the filter parser, the start-time and limit rules, and the orchestration of
  `getFlows` with the query builder and the fetchers given as functions.
*/
module Handler {
  import opened Wrappers
  import opened GoStrings
  import opened GoStrconv
  import opened GoUrl

  const StartTimeKey: string := "startTime"
  const EndTimeKey: string := "endTime"
  const TimeRangeKey: string := "timeRange"
  const LimitKey: string := "limit"
  const ReporterKey: string := "reporter"
  const FiltersKey: string := "filters"

  const StatusOK: int := 200
  const StatusBadRequest: int := 400

  const GroupSeparator: char := '|'
  const FilterSeparator: char := '&'
  const PairSeparator: char := '='

  const TimeRangePrefix: string := "Could not parse time range: "
  const LimitPrefix: string := "Could not parse limit: "
  const BuildPrefix: string := "Can't build query: "
  const FetchPrefix: string := "Error while fetching flows from Loki: "

  /** A filter as the source keeps it: the pieces of `key=value` split at `=`; the parser keeps only two-piece ones. */
  type KeyValues = seq<string>

  /** The filters of one OR-group, all of which must match. */
  type Group = seq<KeyValues>

  // ---------------------------------------------------------------------
  // parseFilters

  /** The filter a candidate contributes: its `=`-pieces when there are exactly two, otherwise none. */
  function KeptPair(candidate: string): seq<KeyValues>
  {
    var pair := Split(candidate, PairSeparator);
    if |pair| == 2 then [pair] else []
  }

  /** The filters kept from the `&`-separated candidates of one group, in order. */
  function AndFilters(candidates: seq<string>): Group
  {
    if candidates == [] then []
    else AndFilters(candidates[..|candidates| - 1]) + KeptPair(candidates[|candidates| - 1])
  }

  /** The filters of each `|`-separated group, one entry per group, in order. */
  function ParsedGroups(groups: seq<string>): (parsed: seq<Group>)
    ensures |parsed| == |groups|
  {
    if groups == [] then []
    else ParsedGroups(groups[..|groups| - 1]) + [AndFilters(Split(groups[|groups| - 1], FilterSeparator))]
  }

  /** Entry `i` of the parsed groups is made from the `i`-th group alone. */
  lemma {:induction false} ParsedGroupsAt(groups: seq<string>, i: nat)
    requires i < |groups|
    ensures ParsedGroups(groups)[i] == AndFilters(Split(groups[i], FilterSeparator))
  {
    if i < |groups| - 1 {
      ParsedGroupsAt(groups[..|groups| - 1], i);
    }
  }

  /** The groups of a decoded filter string: one per `|`-separated piece. */
  function FilterGroups(decoded: string): seq<Group>
  {
    ParsedGroups(Split(decoded, GroupSeparator))
  }

  /** What `parseFilters` returns: the decoding error, or the groups of the decoded string. */
  function FiltersOf(raw: string): (r: Result<seq<Group>, string>)
    ensures r.Success? ==> |r.value| >= 1
  {
    match Unescape(raw)
    case Failure(e) => Failure(e)
    case Success(decoded) => Success(FilterGroups(decoded))
  }

  /** `parseFilters`: URL-unescape, split into `|`-groups, split each into `&`-candidates, keep two-piece `=` splits. */
  method ParseFilters(raw: string) returns (result: Result<seq<Group>, string>)
    ensures result == FiltersOf(raw)
    ensures Unescape(raw).Failure? <==> result.Failure?
    ensures result.Success? ==> |result.value| == Count(Unescape(raw).value, GroupSeparator) + 1
  {
    var unescaped := Unescape(raw);
    if unescaped.Failure? {
      return Failure(unescaped.error);
    }
    var decoded := unescaped.value;
    var parsed: seq<Group> := [];
    var groups := Split(decoded, GroupSeparator);
    for i := 0 to |groups|
      invariant parsed == ParsedGroups(groups[..i])
    {
      var andFilters: Group := [];
      var filters := Split(groups[i], FilterSeparator);
      for j := 0 to |filters|
        invariant andFilters == AndFilters(filters[..j])
      {
        var pair := Split(filters[j], PairSeparator);
        if |pair| == 2 {
          andFilters := andFilters + [pair];
        }
        assert filters[..j + 1][..j] == filters[..j];
      }
      assert filters[..|filters|] == filters;
      assert groups[..i + 1][..i] == groups[..i];
      parsed := parsed + [andFilters];
    }
    assert groups[..|groups|] == groups;
    SplitCount(decoded, GroupSeparator);
    return Success(parsed);
  }

  // ---------------------------------------------------------------------
  // getStartTime and getLimit

  /**
    `getStartTime`, with the clock reading `now` (Unix seconds) as a parameter.
    An explicit start time wins; otherwise a relative time range counts back
    from `now`, in 64-bit arithmetic; otherwise there is no start time.
  */
  function StartTime(params: Values, now: Int64): (r: Result<string, string>)
    ensures Get(params, StartTimeKey) != "" ==> r == Success(Get(params, StartTimeKey))
    ensures Get(params, StartTimeKey) == "" && Get(params, TimeRangeKey) == "" ==> r == Success("")
    ensures r.Failure? <==> Get(params, StartTimeKey) == "" && Get(params, TimeRangeKey) != ""
                            && ParseInt(Get(params, TimeRangeKey)).Failure?
    ensures r.Failure? ==> r.error == TimeRangePrefix + NumErrorText(ParseInt(Get(params, TimeRangeKey)).error)
  {
    var start := Get(params, StartTimeKey);
    if |start| == 0 then
      var tr := Get(params, TimeRangeKey);
      if |tr| > 0 then
        match ParseInt(tr)
        case Failure(e) => Failure(TimeRangePrefix + NumErrorText(e))
        case Success(range) => Success(FormatInt(Wrap64(now - range)))
      else Success(start)
    else Success(start)
  }

  /**
    `getLimit`: the limit as given (for the query text) and as an integer (for
    the merger's cap); no limit is `("", 0)`.
  */
  function Limit(params: Values): (r: Result<(string, Int64), string>)
    ensures Get(params, LimitKey) == "" ==> r == Success(("", 0))
    ensures r.Failure? <==> Get(params, LimitKey) != "" && ParseInt(Get(params, LimitKey)).Failure?
    ensures r.Failure? ==> r.error == LimitPrefix + NumErrorText(ParseInt(Get(params, LimitKey)).error)
    ensures r.Success? ==> r.value.0 == Get(params, LimitKey)
    ensures r.Success? && r.value.0 != "" ==> ParseInt(r.value.0) == Success(r.value.1)
  {
    var limit := Get(params, LimitKey);
    if |limit| > 0 then
      match ParseInt(limit)
      case Failure(e) => Failure(LimitPrefix + NumErrorText(e))
      case Success(l) => Success((limit, l))
    else Success((limit, 0))
  }

  // ---------------------------------------------------------------------
  // getFlows

  /** The parameters given to `loki.NewFlowQueryBuilder`. */
  datatype QueryParams = QueryParams(start: string, end: string, limit: string, reporter: string)

  /** The merged flow records returned by the stream merger; their shape is not modelled. */
  type Flows = seq<string>

  /** What a fetcher reports: the merged flows, or an error with its HTTP status code. */
  datatype Fetch = Fetched(flows: Flows) | FetchFailed(code: int, message: string)

  /**
    The collaborators of `getFlows`, whose code is not part of this model:
    `filters` is `qb.Filters` (the rejection message, if any), `build` is
    `qb.Build` after the given group was accepted (or with no group applied),
    and the fetchers receive the query or queries and the merger's cap.
  */
  datatype Collaborators = Collaborators(
    filters: (QueryParams, Group) -> Option<string>,
    build: (QueryParams, Option<Group>) -> string,
    fetchSingle: (string, int) -> Fetch,
    fetchParallel: (seq<string>, int) -> Fetch)

  /** The fetch `getFlows` performs: one query, or one query per group run in parallel; both with the merger's cap. */
  datatype FetchCall = Single(query: string, cap: int) | Parallel(queries: seq<string>, cap: int)

  /** The outcome of `getFlows`: the merged flows (status 200), or an error with its status code. */
  datatype Reply = Ok(flows: Flows) | Error(code: int, message: string)
  {
    function Status(): int
    {
      if Ok? then StatusOK else code
    }
  }

  /** The validated request: builder parameters, merger cap and filter groups. */
  datatype Request = Request(query: QueryParams, cap: int, groups: seq<Group>)

  predicate Accepted(c: Collaborators, q: QueryParams, g: Group)
  {
    c.filters(q, g).None?
  }

  /** The queries of the fan-out path, one per group in order, stopping at the first group the builder rejects. */
  function BuildAll(c: Collaborators, q: QueryParams, groups: seq<Group>): (r: Result<seq<string>, string>)
    ensures r.Success? ==> |r.value| == |groups|
    ensures r.Success? ==> forall k :: 0 <= k < |groups| ==> Accepted(c, q, groups[k])
    ensures r.Failure? ==> exists k :: 0 <= k < |groups| && !Accepted(c, q, groups[k]) && r.error == c.filters(q, groups[k]).value
  {
    if groups == [] then Success([])
    else
      var last := groups[|groups| - 1];
      match BuildAll(c, q, groups[..|groups| - 1])
      case Failure(e) => Failure(e)
      case Success(qs) =>
        match c.filters(q, last)
        case Some(e) => Failure(e)
        case None => Success(qs + [c.build(q, Some(last))])
  }

  /** Once a prefix of the groups fails to build, the whole list fails with the same error. */
  lemma {:induction false} BuildAllPrefixFailure(c: Collaborators, q: QueryParams, groups: seq<Group>, j: nat)
    requires j <= |groups|
    requires BuildAll(c, q, groups[..j]).Failure?
    ensures BuildAll(c, q, groups) == BuildAll(c, q, groups[..j])
    decreases |groups| - j
  {
    if j < |groups| {
      var init := groups[..|groups| - 1];
      assert init[..j] == groups[..j];
      BuildAllPrefixFailure(c, q, init, j);
    } else {
      assert groups[..j] == groups;
    }
  }

  /** When every group is accepted, there is exactly one query per group, built from that group. */
  lemma {:induction false} BuildAllAccepted(c: Collaborators, q: QueryParams, groups: seq<Group>)
    requires forall k :: 0 <= k < |groups| ==> Accepted(c, q, groups[k])
    ensures BuildAll(c, q, groups).Success?
    ensures |BuildAll(c, q, groups).value| == |groups|
    ensures forall k :: 0 <= k < |groups| ==> BuildAll(c, q, groups).value[k] == c.build(q, Some(groups[k]))
  {
    if groups != [] {
      var init := groups[..|groups| - 1];
      assert Accepted(c, q, groups[|groups| - 1]);
      BuildAllAccepted(c, q, init);
    }
  }

  /** The first rejected group decides the error, whatever the later groups are. */
  lemma {:induction false} BuildAllRejected(c: Collaborators, q: QueryParams, groups: seq<Group>, i: nat)
    requires i < |groups|
    requires forall k :: 0 <= k < i ==> Accepted(c, q, groups[k])
    requires !Accepted(c, q, groups[i])
    ensures BuildAll(c, q, groups) == Failure(c.filters(q, groups[i]).value)
  {
    var upTo := groups[..i + 1];
    assert upTo[..i] == groups[..i];
    BuildAllAccepted(c, q, groups[..i]);
    BuildAllPrefixFailure(c, q, groups, i + 1);
  }

  /** The decision of `getFlows` after validation: which fetch to run, or the builder's error message. */
  function Plan(c: Collaborators, req: Request): (r: Result<FetchCall, string>)
    ensures r.Success? ==> r.value.cap == req.cap
    ensures r.Success? ==> (r.value.Parallel? <==> |req.groups| > 1)
    ensures r.Success? && r.value.Parallel? ==> |r.value.queries| == |req.groups|
    ensures r.Failure? ==> exists k :: 0 <= k < |req.groups| && !Accepted(c, req.query, req.groups[k])
  {
    if |req.groups| > 1 then
      match BuildAll(c, req.query, req.groups)
      case Failure(e) => Failure(BuildPrefix + e)
      case Success(qs) => Success(Parallel(qs, req.cap))
    else if |req.groups| > 0 && !Accepted(c, req.query, req.groups[0]) then
      Failure(c.filters(req.query, req.groups[0]).value)
    else
      Success(Single(c.build(req.query, if |req.groups| > 0 then Some(req.groups[0]) else None), req.cap))
  }

  /** The reply for a fetch: the fetcher's status code with the prefixed message, or the flows. */
  function Outcome(c: Collaborators, call: FetchCall): (reply: Reply)
    ensures reply.Error? ==> FetchPrefix <= reply.message
  {
    var fetched := match call
      case Single(query, cap) => c.fetchSingle(query, cap)
      case Parallel(queries, cap) => c.fetchParallel(queries, cap);
    match fetched
    case FetchFailed(code, message) => Error(code, FetchPrefix + message)
    case Fetched(flows) => Ok(flows)
  }

  /** The reply for a validated request and the fetch run for it, if any. */
  function Dispatched(c: Collaborators, req: Request): (Reply, Option<FetchCall>)
  {
    match Plan(c, req)
    case Failure(e) => (Error(StatusBadRequest, e), None)
    case Success(call) => (Outcome(c, call), Some(call))
  }

  /**
    The reply of `getFlows` and the fetch it runs, if any: the start time, the
    limit and the filters are validated in that order, then the plan decides
    between an error and a fetch.
  */
  function Respond(c: Collaborators, params: Values, now: Int64): (r: (Reply, Option<FetchCall>))
    ensures r.1.Some? ==> StartTime(params, now).Success? && Limit(params).Success? && FiltersOf(Get(params, FiltersKey)).Success?
    ensures r.0.Ok? ==> r.1.Some?
  {
    match StartTime(params, now)
    case Failure(e) => (Error(StatusBadRequest, e), None)
    case Success(_) =>
      match Limit(params)
      case Failure(e) => (Error(StatusBadRequest, e), None)
      case Success(_) =>
        match FiltersOf(Get(params, FiltersKey))
        case Failure(e) => (Error(StatusBadRequest, e), None)
        case Success(_) => Dispatched(c, RequestOf(params, now))
  }

  /** The request `getFlows` validates from its parameters, given that each part parsed. */
  function RequestOf(params: Values, now: Int64): Request
    requires StartTime(params, now).Success? && Limit(params).Success? && FiltersOf(Get(params, FiltersKey)).Success?
  {
    Request(QueryParams(StartTime(params, now).value, Get(params, EndTimeKey), Limit(params).value.0, Get(params, ReporterKey)),
            Limit(params).value.1, FiltersOf(Get(params, FiltersKey)).value)
  }

  /**
    `getFlows`: validates the start time, then the limit, then the filters
    (each failure is a 400 and nothing is fetched); builds one query per group
    when there are several groups, a single query otherwise; fetches, and
    replies with the fetcher's status code on a fetch error. `call` is the
    fetch that was run, if any. (The exported `GetFlows` is the HTTP handler
    around this function and is not modelled.)
  */
  method GetFlowsCore(c: Collaborators, params: Values, now: Int64) returns (reply: Reply, call: Option<FetchCall>)
    ensures (reply, call) == Respond(c, params, now)
  {
    var startResult := StartTime(params, now);
    if startResult.Failure? {
      return Error(StatusBadRequest, startResult.error), None;
    }
    var start := startResult.value;
    var end := Get(params, EndTimeKey);
    var limitResult := Limit(params);
    if limitResult.Failure? {
      return Error(StatusBadRequest, limitResult.error), None;
    }
    var (limit, reqLimit) := limitResult.value;
    var reporter := Get(params, ReporterKey);
    var rawFilters := Get(params, FiltersKey);
    var groupsResult := ParseFilters(rawFilters);
    if groupsResult.Failure? {
      return Error(StatusBadRequest, groupsResult.error), None;
    }
    var filterGroups := groupsResult.value;
    var q := QueryParams(start, end, limit, reporter);
    reply, call := Dispatch(c, Request(q, reqLimit, filterGroups));
  }

  /**
    The second half of `getFlows`: builds one query per group when there are
    several groups, a single query otherwise; runs the fetch and maps its
    outcome to the reply. `call` is the fetch that was run, if any.
  */
  method Dispatch(c: Collaborators, req: Request) returns (reply: Reply, call: Option<FetchCall>)
    ensures (reply, call) == Dispatched(c, req)
  {
    var q := req.query;
    var filterGroups := req.groups;
    var reqLimit := req.cap;

    var fetched: Fetch;
    if |filterGroups| > 1 {
      var queries: seq<string> := [];
      for i := 0 to |filterGroups|
        invariant BuildAll(c, q, filterGroups[..i]) == Success(queries)
      {
        assert filterGroups[..i + 1][..i] == filterGroups[..i];
        var err := c.filters(q, filterGroups[i]);
        if err.Some? {
          BuildAllPrefixFailure(c, q, filterGroups, i + 1);
          return Error(StatusBadRequest, BuildPrefix + err.value), None;
        }
        queries := queries + [c.build(q, Some(filterGroups[i]))];
      }
      assert filterGroups[..|filterGroups|] == filterGroups;
      call := Some(Parallel(queries, reqLimit));
      fetched := c.fetchParallel(queries, reqLimit);
    } else {
      var group: Option<Group> := None;
      if |filterGroups| > 0 {
        var err := c.filters(q, filterGroups[0]);
        if err.Some? {
          return Error(StatusBadRequest, err.value), None;
        }
        group := Some(filterGroups[0]);
      }
      var query := c.build(q, group);
      call := Some(Single(query, reqLimit));
      fetched := c.fetchSingle(query, reqLimit);
    }
    match fetched {
      case FetchFailed(code, message) =>
        reply := Error(code, FetchPrefix + message);
      case Fetched(flows) =>
        reply := Ok(flows);
    }
  }
}
