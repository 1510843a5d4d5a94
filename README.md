# Flows endpoint: request-parameter layer

This project models the request-parameter layer of the flows endpoint of the
network-observability console plugin (`pkg/handler/flows.go`). It proves
properties of that model in Dafny.

- **`parseFilters`**: URL-unescapes the `filters` parameter. It splits the
  result on `|` into OR-groups and each group on `&` into candidates. It
  splits each candidate on `=` and keeps only the candidates that give exactly
  two pieces.
- **`getStartTime`**: an explicit `startTime` wins. Otherwise `timeRange`
  seconds are counted back from the current time. Otherwise there is no start
  time.
- **`getLimit`**: returns `limit` both as the text given and as its integer
  value.
- **`getFlows`**: validates the start time, the limit and the filters, in that
  order. It then builds one query per group when there are several groups, and
  a single query otherwise. It fetches the result and maps every error to an
  HTTP status code and message.

Files and modules:

- `wrappers.dfy` (`Wrappers`): `Option` and `Result`.
- `strings.dfy` (`GoStrings`): `strings.Split`, `strings.Join` and
  `strings.Count` for a one-byte separator, with their round trips.
- `strconv.dfy` (`GoStrconv`): `strconv.ParseInt(s, 10, 64)`,
  `strconv.FormatInt(v, 10)`, the text of a `*NumError`, and 64-bit signed
  wrap-around.
- `url.dfy` (`GoUrl`): `url.Values.Get`, and `url.QueryUnescape` as
  percent-decoding (section 2.1 of RFC 3986) with `+` decoded to a space.
- `flows.dfy` (`Handler`): the core.
  - `ParseFilters` is a method with the source's two nested loops. It is
    proved against the function `FiltersOf`.
  - `StartTime` and `Limit` are functions.
  - `getFlows` is the method `GetFlowsCore`, which validates the parameters.
    The name keeps it apart from the exported HTTP handler `GetFlows`, which
    is not modelled. It hands the validated request to the method `Dispatch`,
    which does the fan-out loop and the fetch. They are two methods only to
    keep each proof small. Together they are proved against the functions
    `Respond`, `Dispatched`, `Plan`, `BuildAll` and `Outcome`.
    `GetFlowsCore` also returns the fetch it ran (`call`), so that "nothing
    was fetched" can be stated.
- `filters_lemmas.dfy` (`FilterProperties`): group count, pair shape, order,
  dropped candidates and both round trips of the filter syntax.
- `flows_lemmas.dfy` (`FlowProperties`): validation order, the fan-out rule,
  and the status codes and messages of replies.

Strings are `seq<char>`, and each `char` stands for one byte of a Go string.
`time.Now().Unix()` is the parameter `now`. The query builder
(`loki.NewFlowQueryBuilder`, `qb.Filters`, `qb.Build`) and the fetchers
(`fetchSingle`, `fetchParallel`, each feeding the stream merger) are the
function-valued fields of `Handler.Collaborators`. Nothing is assumed about
them: `filters` may reject any group, and a fetch may fail with any status
code. The merger's cap `reqLimit` is passed to the fetchers.

Behaviours of the code that are easy to miss:

- With empty `filters` (absent or `""`), parsing gives one empty group, not
  zero groups (`EmptyFilters`, `NoFiltersParameter`). A successful parse never
  gives zero groups (`FiltersOfOutcome`). So `getFlows` always applies
  `qb.Filters` to a group on the single-query path. Its branch without filters
  can only be reached in `Plan`, from a request with no groups.
- A pair with an empty key or an empty value (`a=`, `=b`) is kept
  (`SinglePair`, `KeptPairRule`).
- A builder error on the single-query path is returned unprefixed. Only the
  fan-out path adds `"Can't build query: "`.

## Model

| member | source | states |
|---|---|---|
| `GoStrings.Split` | pkg/handler/flows.go:41 | `strings.Split` never returns an empty list. |
| `GoStrings.SplitCount` | pkg/handler/flows.go:41 | Splitting gives one more piece than there are separators. |
| `GoStrings.SplitPartChars` | pkg/handler/flows.go:44-46 | Every piece is made of characters of the input, and none of them is the separator. |
| `GoStrings.JoinSplit` | pkg/handler/flows.go:41 | Joining the pieces with the separator gives back the input. |
| `GoStrings.SplitJoin` | pkg/handler/flows.go:41 | Splitting a join of separator-free pieces gives back the pieces. |
| `GoStrings.SplitFree` | pkg/handler/flows.go:46 | A string without the separator is a single piece. |
| `GoStrings.SplitCons` | pkg/handler/flows.go:41 | Splitting `a + sep + b`, where `a` has no separator, gives `a` followed by the pieces of `b`. |
| `GoStrings.Join` | pkg/handler/flows.go:41 | Joining non-empty, separator-free pieces puts exactly one separator between neighbours: the join has one separator fewer than there are pieces. |
| `GoStrings.JoinAvoids` | pkg/handler/flows.go:41 | A character that is neither the separator nor in any piece is not in the join. |
| `GoStrconv.Wrap64` | pkg/handler/flows.go:65 | `int64` subtraction wraps modulo 2^64 and is exact when the result fits. |
| `GoStrconv.ParseInt` | pkg/handler/flows.go:61 | Every error of `strconv.ParseInt` reports the whole input. |
| `GoStrconv.ParseIntSuccess` | pkg/handler/flows.go:76 | `ParseInt` succeeds exactly on an optional sign followed by at least one digit, with a value in the `int64` range, and returns that value. |
| `GoStrconv.ParseFormat` | pkg/handler/flows.go:65 | `ParseInt(FormatInt(v)) == v` for every `int64`. |
| `GoStrconv.DigitsValue` | pkg/handler/flows.go:65 | The decimal digits written by `FormatInt` read back as the number. |
| `GoStrconv.FormatIntShape` | pkg/handler/flows.go:65 | `FormatInt` writes an optional minus sign, exactly for negative numbers, then decimal digits. The only text with a leading `0` is `"0"`, the text of zero. |
| `GoStrconv.Quote` | pkg/handler/flows.go:63 | `Quote` wraps its argument in double quotes, escaping `"` and `\`. This contract states only the outer quotes. `QuoteRoundTrip` states that the argument can be recovered. |
| `GoStrconv.QuoteRoundTrip` | pkg/handler/flows.go:78 | The argument of `Quote` can be read back from the text between the quotes. |
| `GoStrconv.NumErrorTextInjective` | pkg/handler/flows.go:62-63 | The text `NumErrorText` gives to a parse error (`strconv.ParseInt: parsing "<input>": <reason>`) determines both the whole input and the reason. Two errors with the same text are the same error. |
| `GoUrl.UnescapeFails` | pkg/handler/flows.go:37-40 | Decoding fails exactly when some `%` is not followed by two hexadecimal digits. |
| `GoUrl.UnescapeFirstError` | pkg/handler/flows.go:37-40 | A failed decoding reports the first malformed escape, through `EscapeErrorText`: `invalid URL escape` followed by the quoted `%` and at most the two bytes after it. |
| `GoUrl.UnescapeLength` | pkg/handler/flows.go:37 | Each `%`-escape decodes to one byte, so the decoded text is two bytes shorter per `%`. A text without `%` always decodes. |
| `GoUrl.UnescapePlain` | pkg/handler/flows.go:37 | A string without `%` and `+` decodes to itself. |
| `Handler.ParseFilters` | pkg/handler/flows.go:35-54 | Equals `FiltersOf`: a decoding error and no groups if unescaping fails; otherwise the groups of the decoded text, one per `|`-piece. |
| `Handler.FiltersOf` | pkg/handler/flows.go:35-54 | A successful parse never gives zero groups. `FiltersOfOutcome` states its error cases and `GroupCount` its groups. |
| `Handler.ParsedGroups` | pkg/handler/flows.go:42-52 | There is exactly one parsed entry per group. |
| `Handler.ParsedGroupsAt` | pkg/handler/flows.go:42-51 | Entry `i` is made from the `i`-th group alone. |
| `Handler.StartTime` | pkg/handler/flows.go:56-69 | An explicit start time is returned as given, whatever the time range. With neither parameter, the result is `""`. It fails exactly when only an unparsable time range is given, with message `"Could not parse time range: "` + the parse error. `RelativeStart` states the derived start time. |
| `Handler.Limit` | pkg/handler/flows.go:71-83 | No limit gives `("", 0)`. It fails exactly when the limit does not parse, with message `"Could not parse limit: "` + the parse error. Otherwise the text is returned as given, paired with the value it parses to, negative values included. |
| `Handler.BuildAll` | pkg/handler/flows.go:129-137 | When every group builds, there is one query per group, and every group was accepted. When building fails, some group was rejected, and the error is that group's rejection message. |
| `Handler.BuildAllPrefixFailure` | pkg/handler/flows.go:130-135 | Once a prefix of the groups fails to build, the whole fan-out fails with that error. |
| `Handler.BuildAllAccepted` | pkg/handler/flows.go:129-137 | When every group is accepted, there is exactly one query per group: query `k` is built from group `k`. |
| `Handler.BuildAllRejected` | pkg/handler/flows.go:130-135 | The first rejected group decides the error, whatever the later groups are. |
| `Handler.Plan` | pkg/handler/flows.go:126-151 | A planned fetch carries the merger's cap. It is a parallel fetch exactly when there is more than one group, and then it has one query per group. A failed plan means some group was rejected. |
| `Handler.Outcome` | pkg/handler/flows.go:138-155 | Every fetch error given as a reply carries the prefix `"Error while fetching flows from Loki: "`. `FetchReply` states the status codes. |
| `Handler.Respond` | pkg/handler/flows.go:109-124 | Nothing is fetched unless the start time, the limit and the filters all parse. A 200 reply always comes from a fetch. |
| `Handler.GetFlowsCore` | pkg/handler/flows.go:109-125 | The reply and the fetch run are those of `Respond`. |
| `Handler.Dispatch` | pkg/handler/flows.go:126-160 | The reply and the fetch run for a validated request are those of `Dispatched`. |
| `FilterProperties.GroupCount` | pkg/handler/flows.go:41-52 | There is one group per `|`-separated piece, in order: the count of `\|` plus one, so never zero. |
| `FilterProperties.FiltersOfOutcome` | pkg/handler/flows.go:37-52 | Parsing fails exactly on a malformed `%`-escape, with the decoder's error. Otherwise it gives at least one group. |
| `FilterProperties.KeptPairRule` | pkg/handler/flows.go:46-49 | A candidate is kept exactly when it has one `=`. When kept, it is split there into `[key, value]`, with `key + "=" + value` equal to the candidate. |
| `FilterProperties.AndFiltersAppend` | pkg/handler/flows.go:45-50 | Filtering commutes with concatenation, so kept filters stay in left-to-right order. |
| `FilterProperties.AndFiltersMember` | pkg/handler/flows.go:45-50 | A filter is kept if and only if it is the `=`-split of some candidate with exactly one `=`. |
| `FilterProperties.AndFiltersAllKept` | pkg/handler/flows.go:45-50 | When every candidate has one `=`, nothing is dropped, and filter `k` comes from candidate `k`. |
| `FilterProperties.PairShape` | pkg/handler/flows.go:41-50 | Every kept filter has exactly two elements, and neither holds `\|`, `&` or `=`. |
| `FilterProperties.DroppedSilently` | pkg/handler/flows.go:47-49 | A candidate with zero or several `=` is dropped without error, and the filters around it are kept in order. |
| `FilterProperties.SinglePair` | pkg/handler/flows.go:33-34 | A lone `key=value` gives one group holding `[key, value]`. Commas and other characters are not split, and an empty key or value is kept. |
| `FilterProperties.EmptyFilters` | pkg/handler/flows.go:41-52 | Empty input parses to exactly one empty group. |
| `FilterProperties.RenderParsed` | pkg/handler/flows.go:41-52 | If every `&`-segment has exactly one `=`, joining the groups back with `=`, `&` and `\|` reproduces the decoded text. |
| `FilterProperties.RenderThenParse` | pkg/handler/flows.go:41-52 | Parsing the rendering of well-formed groups gives the groups back. |
| `FilterProperties.GroupRoundTrip` | pkg/handler/flows.go:44-50 | One rendered group has no `\|` and parses back to itself. |
| `FilterProperties.PairRoundTrip` | pkg/handler/flows.go:46-48 | `key=value` has one `=` and splits back into the pair. |
| `FlowProperties.FanOut` | pkg/handler/flows.go:127-138 | With more than one group, all accepted: one parallel fetch of exactly one query per group, in group order, with the merger's cap. |
| `FlowProperties.FanOutRejected` | pkg/handler/flows.go:130-135 | With more than one group, the first rejected group gives a 400 prefixed `"Can't build query: "`, and nothing is fetched. |
| `FlowProperties.FanOutAllOrNothing` | pkg/handler/flows.go:127-137 | With more than one group, the parallel path is taken if and only if every group is accepted. |
| `FlowProperties.FirstRejected` | pkg/handler/flows.go:130-135 | Some group is rejected, so there is a least rejected index, and every earlier group is accepted. |
| `FlowProperties.SingleQuery` | pkg/handler/flows.go:142-151 | With at most one group, a single query is built. `Filters` is applied only when a group exists. Its rejection is a 400 with the builder's message, unprefixed. |
| `FlowProperties.FetchReply` | pkg/handler/flows.go:138-141 | A fetch error keeps the fetcher's status code, prefixed `"Error while fetching flows from Loki: "`. A successful fetch is a 200 with the merged flows. |
| `FlowProperties.ValidationOrder` | pkg/handler/flows.go:110-124 | The start time is checked before the limit, and the limit before the filters. The first failure is a 400 with that check's message, and nothing is built or fetched. |
| `FlowProperties.BadEscapeIsBadRequest` | pkg/handler/flows.go:121-124 | A malformed `%`-escape in `filters` is a 400 with no fetch, once the start time and limit are valid. |
| `FlowProperties.ReplyStatus` | pkg/handler/flows.go:109-161 | Every reply given before a fetch is a 400. After a fetch, the reply is the fetch's outcome. A single query always comes from a request with exactly one filter group, and the builder is applied to that group. |
| `FlowProperties.NoFiltersParameter` | pkg/handler/flows.go:120-151 | Without `filters`, the builder is asked to accept one empty group, and a single query is built with it. |
| `FlowProperties.RelativeStart` | pkg/handler/flows.go:58-65 | Without an explicit start time, the derived start time is the decimal text of `now - range` in 64-bit wrap-around arithmetic. It parses back to that number, and it is exact when the difference fits in 64 bits. |

## Left out

- HTTP glue is not modelled: the `GetFlows` closure, `writeError`, `writeJSON`, `metrics.ObserveHTTPCall`, `hlog` logging and `newLokiClient` (lines 85-107). The parsing of the request URL into `url.Values` is not modelled either; `Values` is given directly.
- The query builder and the fetchers are given as uninterpreted functions, because their code is not part of this model. These are `loki.NewFlowQueryBuilder`, `qb.Filters`, `qb.Build`, `fetchSingle`, `fetchParallel`, `loki.NewStreamMerger` and `merger.Get`.
- The parallel fan-out is modelled as one call on the list of queries. Concurrency, the merger's de-duplication, its cap and its ordering are not modelled. The merged result is an opaque `Flows` value returned by the fetcher.
- `time.Now()` is the parameter `now`.
- `GoStrconv.Quote`: models only the escapes of `"` and `\` done by `strconv.Quote`. Non-printable or non-ASCII bytes are kept as they are rather than written as `\x..`/`\u....` escapes, because only the error text depends on them.
- `GoUrl.Unescape`: each decoded byte becomes one `char` below 256. Go's byte strings and UTF-8 are not modelled beyond that.
- `Handler.Limit`: on failure it returns only the error. Go also returns `""` and `0` beside it, and `getFlows` discards them. `int(l)` is taken to be 64 bits wide, as on the 64-bit platforms the plugin is built for.
- `GoStrconv.ParseInt`: written from the documented behaviour of `strconv.ParseInt(s, 10, 64)`, because the library's code is not part of this model. An overflow is reported as a range error even when a non-digit follows later, and the message is `strconv.ParseInt: parsing "<input>": invalid syntax` (or `value out of range`).
