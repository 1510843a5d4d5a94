/**
  Properties of `getFlows` in `pkg/handler/flows.go`: the order in which the
  parameters are validated, the fan-out rule, and the status code and message
  of every reply.
*/
module FlowProperties {
  import opened Wrappers
  import opened GoStrconv
  import opened GoUrl
  import opened Handler
  import opened FilterProperties

  /** With several groups, all accepted, one query is built per group, in group order, and fetched in parallel. */
  lemma FanOut(c: Collaborators, req: Request)
    requires |req.groups| > 1
    requires forall k :: 0 <= k < |req.groups| ==> Accepted(c, req.query, req.groups[k])
    ensures Plan(c, req).Success? && Plan(c, req).value.Parallel?
    ensures Plan(c, req).value.cap == req.cap
    ensures |Plan(c, req).value.queries| == |req.groups|
    ensures forall k :: 0 <= k < |req.groups| ==>
              Plan(c, req).value.queries[k] == c.build(req.query, Some(req.groups[k]))
  {
    BuildAllAccepted(c, req.query, req.groups);
  }

  /** With several groups, the first one the builder rejects gives a 400 prefixed "Can't build query: ", and nothing is fetched. */
  lemma FanOutRejected(c: Collaborators, req: Request, i: nat)
    requires |req.groups| > 1 && i < |req.groups|
    requires forall k :: 0 <= k < i ==> Accepted(c, req.query, req.groups[k])
    requires !Accepted(c, req.query, req.groups[i])
    ensures Dispatched(c, req) == (Error(StatusBadRequest, BuildPrefix + c.filters(req.query, req.groups[i]).value), None)
  {
    BuildAllRejected(c, req.query, req.groups, i);
  }

  /** With several groups, the parallel path is taken exactly when every group is accepted. */
  lemma FanOutAllOrNothing(c: Collaborators, req: Request)
    requires |req.groups| > 1
    ensures Plan(c, req).Success? <==> forall k :: 0 <= k < |req.groups| ==> Accepted(c, req.query, req.groups[k])
  {
    if !forall k :: 0 <= k < |req.groups| ==> Accepted(c, req.query, req.groups[k]) {
      var i := FirstRejected(c, req.query, req.groups);
      BuildAllRejected(c, req.query, req.groups, i);
    } else {
      BuildAllAccepted(c, req.query, req.groups);
    }
  }

  /** The least index of a rejected group. */
  lemma FirstRejected(c: Collaborators, q: QueryParams, groups: seq<Group>) returns (i: nat)
    requires exists k :: 0 <= k < |groups| && !Accepted(c, q, groups[k])
    ensures i < |groups| && !Accepted(c, q, groups[i])
    ensures forall k :: 0 <= k < i ==> Accepted(c, q, groups[k])
  {
    var k :| 0 <= k < |groups| && !Accepted(c, q, groups[k]);
    i := 0;
    while Accepted(c, q, groups[i])
      invariant i <= k
      invariant forall j :: 0 <= j < i ==> Accepted(c, q, groups[j])
      decreases k - i
    {
      i := i + 1;
    }
  }

  /**
    With one group, a single query is built with the group's filters; a
    rejection is a 400 whose message is the builder's, unprefixed. With no
    group at all, the query is built without applying any filters.
  */
  lemma SingleQuery(c: Collaborators, req: Request)
    requires |req.groups| <= 1
    ensures |req.groups| == 1 && Accepted(c, req.query, req.groups[0]) ==>
              Plan(c, req) == Success(Single(c.build(req.query, Some(req.groups[0])), req.cap))
    ensures |req.groups| == 1 && !Accepted(c, req.query, req.groups[0]) ==>
              Dispatched(c, req) == (Error(StatusBadRequest, c.filters(req.query, req.groups[0]).value), None)
    ensures |req.groups| == 0 ==> Plan(c, req) == Success(Single(c.build(req.query, None), req.cap))
  {
  }

  /** A fetch error keeps the fetcher's status code and is prefixed; a successful fetch is a 200 with the merged flows. */
  lemma FetchReply(c: Collaborators, call: FetchCall)
    ensures var fetched := if call.Single? then c.fetchSingle(call.query, call.cap) else c.fetchParallel(call.queries, call.cap);
      (fetched.FetchFailed? ==> Outcome(c, call) == Error(fetched.code, FetchPrefix + fetched.message)
                                && Outcome(c, call).Status() == fetched.code) &&
      (fetched.Fetched? ==> Outcome(c, call) == Ok(fetched.flows) && Outcome(c, call).Status() == StatusOK)
  {
  }

  /**
    The start time is checked first, then the limit, then the filters; the
    first failure is a 400 carrying that check's message, and nothing is
    fetched.
  */
  lemma ValidationOrder(c: Collaborators, params: Values, now: Int64)
    ensures StartTime(params, now).Failure? ==>
              Respond(c, params, now) == (Error(StatusBadRequest, StartTime(params, now).error), None)
    ensures StartTime(params, now).Success? && Limit(params).Failure? ==>
              Respond(c, params, now) == (Error(StatusBadRequest, Limit(params).error), None)
    ensures StartTime(params, now).Success? && Limit(params).Success? && FiltersOf(Get(params, FiltersKey)).Failure? ==>
              Respond(c, params, now) == (Error(StatusBadRequest, FiltersOf(Get(params, FiltersKey)).error), None)
  {
  }

  /** A malformed percent-escape in `filters` is a 400 once the start time and limit are valid. */
  lemma BadEscapeIsBadRequest(c: Collaborators, params: Values, now: Int64, i: nat)
    requires StartTime(params, now).Success? && Limit(params).Success?
    requires BadEscapeAt(Get(params, FiltersKey), i)
    ensures Respond(c, params, now).0.Status() == StatusBadRequest
    ensures Respond(c, params, now).1 == None
  {
    FiltersOfOutcome(Get(params, FiltersKey));
  }

  /**
    Every reply that comes before a fetch is a 400; once a fetch is run, the
    reply is that fetch's outcome. A single query is always built from the one
    filter group of the request, since a successful parse never yields zero
    groups.
  */
  lemma ReplyStatus(c: Collaborators, params: Values, now: Int64)
    ensures Respond(c, params, now).1.None? ==>
              Respond(c, params, now).0.Error? && Respond(c, params, now).0.code == StatusBadRequest
    ensures Respond(c, params, now).1.Some? ==>
              Respond(c, params, now).0 == Outcome(c, Respond(c, params, now).1.value)
    ensures Respond(c, params, now).1.Some? && Respond(c, params, now).1.value.Single? ==>
              StartTime(params, now).Success? && Limit(params).Success? && FiltersOf(Get(params, FiltersKey)).Success? &&
              |RequestOf(params, now).groups| == 1 &&
              Respond(c, params, now).1.value.query == c.build(RequestOf(params, now).query, Some(RequestOf(params, now).groups[0]))
  {
    if StartTime(params, now).Success? && Limit(params).Success? && FiltersOf(Get(params, FiltersKey)).Success? {
      var req := RequestOf(params, now);
      assert Respond(c, params, now) == Dispatched(c, req);
      assert |req.groups| >= 1;
    }
  }

  /** Without a `filters` parameter, the builder is asked to accept one empty group and a single query is built with it. */
  lemma NoFiltersParameter(c: Collaborators, params: Values, now: Int64)
    requires FiltersKey !in params
    requires StartTime(params, now).Success? && Limit(params).Success?
    ensures FiltersOf(Get(params, FiltersKey)) == Success([[]])
    ensures Accepted(c, RequestOf(params, now).query, []) ==>
              Respond(c, params, now).1 == Some(Single(c.build(RequestOf(params, now).query, Some([])), Limit(params).value.1))
  {
    EmptyFilters();
  }

  /**
    A relative time range counts back from `now` in 64-bit arithmetic: the
    start time is the decimal text of `now - range`, which reads back as that
    number, and is exact when the difference fits.
  */
  lemma RelativeStart(params: Values, now: Int64, range: Int64)
    requires Get(params, StartTimeKey) == "" && Get(params, TimeRangeKey) != ""
    requires ParseInt(Get(params, TimeRangeKey)) == Success(range)
    ensures StartTime(params, now) == Success(FormatInt(Wrap64(now - range)))
    ensures ParseInt(StartTime(params, now).value) == Success(Wrap64(now - range))
    ensures MinInt64 <= now - range <= MaxInt64 ==> StartTime(params, now) == Success(FormatInt(now - range))
  {
    var w := Wrap64(now - range);
    DerivedStart(params, now, range);
    ParseFormat(w);
  }

  /** Without an explicit start time, a parsed time range gives the decimal text of the wrapped difference. */
  lemma DerivedStart(params: Values, now: Int64, range: Int64)
    requires Get(params, StartTimeKey) == "" && Get(params, TimeRangeKey) != ""
    requires ParseInt(Get(params, TimeRangeKey)) == Success(range)
    ensures StartTime(params, now) == Success(FormatInt(Wrap64(now - range)))
  {
  }
}
