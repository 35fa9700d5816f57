/** The request handler: CORS headers, method and input checks, the search
    in general or evidence mode, formatting, and the JSON response. */
module Handler {
  import opened Wrappers
  import opened Js
  import opened Upstream
  import opened Keywords
  import opened Evidence
  import opened Format

  /** The fields of the JSON request body the handler reads. `query` is
      `None` when it is missing or not a string; `searchType` and
      `numResults` are `None` when missing, and then default to
      `"general"` and 10. */
  datatype RequestBody = RequestBody(query: Option<string>, searchType: Option<string>, numResults: Option<int>)

  /** An inbound request: its HTTP method (`req.method`) and its parsed
      body, `None` when the platform supplies no body object at all. */
  datatype Request = Request(verb: string, body: Option<RequestBody>)

  /** The process configuration the handler reads: `SERPER_API_KEY`. */
  datatype Config = Config(apiKey: Option<string>)

  /** The JSON body of a response: an error, or the search results. */
  datatype ResponseBody =
    | Failure(error: string, message: Option<string>)
    | Found(success: bool, query: string, results: seq<Formatted>, totalResults: int)

  /** The status and the body (`None`: ended without one) of a response. */
  datatype Outcome = Outcome(status: int, body: Option<ResponseBody>)

  /** The headers set on every response. */
  const CorsHeaders: map<string, string> := map[
    "Access-Control-Allow-Credentials" := "true",
    "Access-Control-Allow-Origin" := "*",
    "Access-Control-Allow-Methods" := "GET,OPTIONS,PATCH,DELETE,POST,PUT",
    "Access-Control-Allow-Headers" := "X-CSRF-Token, X-Requested-With, Accept, Accept-Version, Content-Length, Content-MD5, Content-Type, Date, X-Api-Version"
  ]

  const DefaultNumResults := 10
  const EvidenceKeywordCount := 5

  /** The response to a failure caught at the top level. */
  const InternalError := Failure("Internal server error", Some("Search failed"))

  /** The query passes validation: a string that is not blank. */
  predicate ValidQuery(query: Option<string>) {
    query.Some? && query.value != "" && Trim(query.value) != ""
  }

  predicate IsEvidence(body: RequestBody) {
    body.searchType == Some("evidence")
  }

  /** `Promise.allSettled` over the sub-searches: one outcome per search, in
      the order the searches were issued. */
  function Settle(searches: seq<Search>, upstream: Search -> Reply): (r: seq<Result<seq<RawResult>>>)
    ensures |r| == |searches|
    ensures forall i | 0 <= i < |r| :: r[i] == SearchForEvidence(upstream(searches[i]))
  {
    seq(|searches|, i requires 0 <= i < |searches| => SearchForEvidence(upstream(searches[i])))
  }

  /** The sub-searches of evidence mode, built from the query as sent,
      before trimming. */
  function SubSearches(body: RequestBody): seq<Search>
    requires ValidQuery(body.query)
  {
    var query := body.query.value;
    EvidenceSearches(query, ExtractKeywords(query, EvidenceKeywordCount), body.numResults.GetOr(DefaultNumResults))
  }

  /** Evidence mode searches with the query as sent, surrounding white space
      included, while the response reports the trimmed query; at most five
      keywords are extracted, so at most one of them is searched. */
  lemma SubSearchesUseRawQuery(body: RequestBody)
    requires ValidQuery(body.query)
    ensures var searches := SubSearches(body);
      var query := body.query.value;
      && 2 <= |searches| <= 3
      && searches[0].query == query + " evidence statistics data"
      && searches[1].query == query + " research study findings"
      && (|searches| == 3 ==> searches[2].query == ExtractKeywords(query, EvidenceKeywordCount)[0] + " " + query + " facts")
  {
  }

  /** The provider results of the search step, or `None` when it throws. */
  function SearchStep(body: RequestBody, upstream: Search -> Reply): Option<seq<RawResult>>
    requires ValidQuery(body.query)
  {
    var n := body.numResults.GetOr(DefaultNumResults);
    if IsEvidence(body) then
      Some(EvidenceResults(Settle(SubSearches(body), upstream), n))
    else match SearchForEvidence(upstream(Search(Trim(body.query.value), n)))
      case Ok(results) => Some(results)
      case Err => None
  }

  /** What the handler answers, given the request, the configuration, what
      the provider replies to each search, and the URL host parser. */
  function Respond(req: Request, config: Config, upstream: Search -> Reply, parseHost: string -> Option<string>): (r: Outcome)
    ensures r.status == 200 || r.status == 400 || r.status == 405 || r.status == 500
    ensures r.body.None? <==> req.verb == "OPTIONS"
    ensures req.verb == "OPTIONS" ==> r.status == 200
    ensures r.status == 405 <==> req.verb != "OPTIONS" && req.verb != "POST"
    ensures r.status == 400 <==> req.verb == "POST" && req.body.Some? && !ValidQuery(req.body.value.query)
    ensures r.status == 405 ==> r.body == Some(Failure("Method not allowed", None))
    ensures r.status == 400 ==> r.body == Some(Failure("Query is required and must be a non-empty string", None))
    ensures r.status == 500 ==>
      r.body == Some(InternalError) || r.body == Some(Failure("Search service not configured", None))
    ensures req.verb == "POST" && req.body.None? ==> r == Outcome(500, Some(InternalError))
    ensures r.body == Some(Failure("Search service not configured", None)) <==>
      req.verb == "POST" && req.body.Some? && ValidQuery(req.body.value.query) && !Truthy(config.apiKey)
    ensures r.status == 200 && r.body.Some? ==>
      && req.verb == "POST" && req.body.Some? && ValidQuery(req.body.value.query) && Truthy(config.apiKey)
      && r.body.value.Found? && r.body.value.success
      && r.body.value.query == Trim(req.body.value.query.value)
      && r.body.value.totalResults == |r.body.value.results|
  {
    if req.verb == "OPTIONS" then Outcome(200, None)
    else if req.verb != "POST" then Outcome(405, Some(Failure("Method not allowed", None)))
    else match req.body
      case None => Outcome(500, Some(InternalError))
      case Some(body) =>
        if !ValidQuery(body.query) then
          Outcome(400, Some(Failure("Query is required and must be a non-empty string", None)))
        else if !Truthy(config.apiKey) then
          Outcome(500, Some(Failure("Search service not configured", None)))
        else match SearchStep(body, upstream)
          case None => Outcome(500, Some(InternalError))
          case Some(results) =>
            match FormatAll(results, parseHost)
            case None => Outcome(500, Some(InternalError))
            case Some(formatted) =>
              Outcome(200, Some(Found(true, Trim(body.query.value), formatted, |formatted|)))
  }

  /** Requests that reach the search step. */
  predicate Searches(req: Request, config: Config) {
    req.verb == "POST" && req.body.Some? && ValidQuery(req.body.value.query) && Truthy(config.apiKey)
  }

  /** Distinct links stay distinct once formatted, except that every
      missing link becomes the empty string. */
  lemma FormattedLinksDistinct(raws: seq<RawResult>, parseHost: string -> Option<string>)
    requires DistinctLinks(raws) && FormatAll(raws, parseHost).Some?
    ensures var f := FormatAll(raws, parseHost).value;
      forall i, j | 0 <= i < j < |f| :: f[i].link != "" ==> f[i].link != f[j].link
  {
    var f := FormatAll(raws, parseHost).value;
    forall i, j | 0 <= i < j < |f| && f[i].link != "" ensures f[i].link != f[j].link {
      assert f[i] == FormatResult(raws[i], parseHost).value;
      assert f[j] == FormatResult(raws[j], parseHost).value;
    }
  }

  /** In evidence mode a successful response holds, in order, the formatted
      evidence results: a selection of the merged sub-search results in which
      each link occurs once, from its first merged result, and no more of
      them than `numResults` asks for. */
  lemma EvidenceResponse(req: Request, config: Config, upstream: Search -> Reply, parseHost: string -> Option<string>)
    requires Searches(req, config) && IsEvidence(req.body.value)
    ensures var r := Respond(req, config, upstream, parseHost);
      var body := req.body.value;
      var n := body.numResults.GetOr(DefaultNumResults);
      var merged := Fulfilled(Settle(SubSearches(body), upstream));
      var raws := EvidenceResults(Settle(SubSearches(body), upstream), n);
      r.status == 200 ==>
        && |r.body.value.results| == |raws|
        && (forall i | 0 <= i < |raws| :: FormatResult(raws[i], parseHost) == Some(r.body.value.results[i]))
        && IsSubsequence(raws, merged)
        && (forall x | x in raws :: FirstWithItsLink(merged, x))
        && (0 <= n ==> |r.body.value.results| <= n)
        && (forall i, j | 0 <= i < j < |r.body.value.results| ::
              r.body.value.results[i].link != "" ==> r.body.value.results[i].link != r.body.value.results[j].link)
  {
    var body := req.body.value;
    var n := body.numResults.GetOr(DefaultNumResults);
    var outcomes := Settle(SubSearches(body), upstream);
    var raws := EvidenceResults(outcomes, n);
    EvidenceResultsFacts(outcomes, n);
    EvidenceStep(body, upstream);
    match FormatAll(raws, parseHost)
    case None =>
      UnformattableResponse(req, config, upstream, parseHost, raws);
    case Some(f) =>
      SearchedResponse(req, config, upstream, parseHost, raws, f);
      FormattedLinksDistinct(raws, parseHost);
  }

  /** When every sub-search of evidence mode is rejected, the handler still
      answers 200, with no results. */
  lemma AllSubSearchesRejected(req: Request, config: Config, upstream: Search -> Reply, parseHost: string -> Option<string>)
    requires Searches(req, config) && IsEvidence(req.body.value)
    requires var searches := SubSearches(req.body.value);
      forall i | 0 <= i < |searches| :: SearchForEvidence(upstream(searches[i])).Err?
    ensures Respond(req, config, upstream, parseHost)
      == Outcome(200, Some(Found(true, Trim(req.body.value.query.value), [], 0)))
  {
    RejectedSearchStep(req.body.value, upstream);
    var none: seq<RawResult> := [];
    assert FormatAll(none, parseHost) == Some([]);
    SearchedResponse(req, config, upstream, parseHost, none, []);
  }

  lemma EvidenceStep(body: RequestBody, upstream: Search -> Reply)
    requires ValidQuery(body.query) && IsEvidence(body)
    ensures SearchStep(body, upstream)
      == Some(EvidenceResults(Settle(SubSearches(body), upstream), body.numResults.GetOr(DefaultNumResults)))
  {
  }

  /** A request whose search results do not all format is a server error. */
  lemma UnformattableResponse(req: Request, config: Config, upstream: Search -> Reply, parseHost: string -> Option<string>,
                              raws: seq<RawResult>)
    requires Searches(req, config)
    requires SearchStep(req.body.value, upstream) == Some(raws)
    requires FormatAll(raws, parseHost) == None
    ensures Respond(req, config, upstream, parseHost) == Outcome(500, Some(InternalError))
  {
  }

  /** A request that reaches the search step, whose results all format,
      is answered 200 with the formatted results. */
  lemma SearchedResponse(req: Request, config: Config, upstream: Search -> Reply, parseHost: string -> Option<string>,
                         raws: seq<RawResult>, formatted: seq<Formatted>)
    requires Searches(req, config)
    requires SearchStep(req.body.value, upstream) == Some(raws)
    requires FormatAll(raws, parseHost) == Some(formatted)
    ensures Respond(req, config, upstream, parseHost)
      == Outcome(200, Some(Found(true, Trim(req.body.value.query.value), formatted, |formatted|)))
  {
  }

  /** The search step of evidence mode when every sub-search is rejected. */
  lemma RejectedSearchStep(body: RequestBody, upstream: Search -> Reply)
    requires ValidQuery(body.query) && IsEvidence(body)
    requires var searches := SubSearches(body);
      forall i | 0 <= i < |searches| :: SearchForEvidence(upstream(searches[i])).Err?
    ensures SearchStep(body, upstream) == Some([])
  {
    var outcomes := Settle(SubSearches(body), upstream);
    AllRejectedMergeEmpty(outcomes);
    NothingMergedNoResults(outcomes, body.numResults.GetOr(DefaultNumResults));
  }

  lemma NothingMergedNoResults(outcomes: seq<Result<seq<RawResult>>>, n: int)
    requires Fulfilled(outcomes) == []
    ensures EvidenceResults(outcomes, n) == []
  {
    assert UniqueByLink([]) == [];
  }

  /** In general mode the provider's list is passed on whole, however long
      it is, and a rejected search is a server error. */
  lemma GeneralResponse(req: Request, config: Config, upstream: Search -> Reply, parseHost: string -> Option<string>)
    requires Searches(req, config) && !IsEvidence(req.body.value)
    ensures var body := req.body.value;
      var r := Respond(req, config, upstream, parseHost);
      var found := SearchForEvidence(upstream(Search(Trim(body.query.value), body.numResults.GetOr(DefaultNumResults))));
      && (found.Err? ==> r == Outcome(500, Some(InternalError)))
      && (found.Ok? && r.status == 200 ==> |r.body.value.results| == |found.value|)
  {
    var body := req.body.value;
    var found := SearchForEvidence(upstream(Search(Trim(body.query.value), body.numResults.GetOr(DefaultNumResults))));
    if found.Err? {
      assert SearchStep(body, upstream) == None;
      FailedSearchResponse(req, config, upstream, parseHost);
    } else {
      assert SearchStep(body, upstream) == Some(found.value);
      match FormatAll(found.value, parseHost)
      case None => UnformattableResponse(req, config, upstream, parseHost, found.value);
      case Some(f) => SearchedResponse(req, config, upstream, parseHost, found.value, f);
    }
  }

  /** A search step that throws is answered 500 "Internal server error". */
  lemma FailedSearchResponse(req: Request, config: Config, upstream: Search -> Reply, parseHost: string -> Option<string>)
    requires Searches(req, config)
    requires SearchStep(req.body.value, upstream) == None
    ensures Respond(req, config, upstream, parseHost) == Outcome(500, Some(InternalError))
  {
  }

  /** A result that reaches formatting with neither a display link nor a
      link turns the whole response into a server error. */
  lemma MissingLinkIsServerError(req: Request, config: Config, upstream: Search -> Reply, parseHost: string -> Option<string>, i: nat)
    requires parseHost("") == None
    requires Searches(req, config)
    requires var found := SearchStep(req.body.value, upstream);
      found.Some? && i < |found.value| && !Truthy(found.value[i].link) && !Truthy(found.value[i].displayLink)
    ensures Respond(req, config, upstream, parseHost) == Outcome(500, Some(InternalError))
  {
    var raws := SearchStep(req.body.value, upstream).value;
    MissingLinkThrows(raws, parseHost, i);
    UnformattableResponse(req, config, upstream, parseHost, raws);
  }

  /** The response object the platform hands to the handler. */
  class ServerResponse {
    var headers: map<string, string>
    var statusCode: int
    var body: Option<ResponseBody>
    var finished: bool

    constructor ()
      ensures headers == map[] && statusCode == 200 && body == None && !finished
    {
      headers, statusCode, body, finished := map[], 200, None, false;
    }

    /** `res.setHeader(name, value)`; headers can no longer be set once the
        response is sent. */
    method SetHeader(name: string, value: string)
      requires !finished
      modifies this
      ensures headers == old(headers)[name := value]
      ensures statusCode == old(statusCode) && body == old(body) && finished == old(finished)
    {
      headers := headers[name := value];
    }

    /** `res.status(code)`. */
    method Status(code: int)
      modifies this
      ensures statusCode == code
      ensures headers == old(headers) && body == old(body) && finished == old(finished)
    {
      statusCode := code;
    }

    /** `res.json(payload)`: sends the body and finishes the response. */
    method Json(payload: ResponseBody)
      requires !finished
      modifies this
      ensures body == Some(payload) && finished
      ensures headers == old(headers) && statusCode == old(statusCode)
    {
      body, finished := Some(payload), true;
    }

    /** `res.end()`: finishes the response without a body. */
    method End()
      requires !finished
      modifies this
      ensures finished
      ensures headers == old(headers) && statusCode == old(statusCode) && body == old(body)
    {
      finished := true;
    }
  }

  /** Sends `status` with `payload` and finishes the response. */
  method SendJson(res: ServerResponse, status: int, payload: ResponseBody)
    requires !res.finished
    modifies res
    ensures res.finished && res.statusCode == status && res.body == Some(payload)
    ensures res.headers == old(res.headers)
  {
    res.Status(status);
    res.Json(payload);
  }

  lemma UnionUpdate(m: map<string, string>, d: map<string, string>, k: string, v: string)
    ensures m + d[k := v] == (m + d)[k := v]
  {
  }

  /** The four `res.setHeader` calls made before any branch. */
  method SetCorsHeaders(res: ServerResponse)
    requires !res.finished
    modifies res
    ensures res.headers == old(res.headers) + CorsHeaders
    ensures res.statusCode == old(res.statusCode) && res.body == old(res.body) && !res.finished
  {
    var h := res.headers;
    var cors: map<string, string> := map[];
    assert h + cors == h;
    res.SetHeader("Access-Control-Allow-Credentials", "true");
    UnionUpdate(h, cors, "Access-Control-Allow-Credentials", "true");
    cors := cors["Access-Control-Allow-Credentials" := "true"];
    res.SetHeader("Access-Control-Allow-Origin", "*");
    UnionUpdate(h, cors, "Access-Control-Allow-Origin", "*");
    cors := cors["Access-Control-Allow-Origin" := "*"];
    res.SetHeader("Access-Control-Allow-Methods", "GET,OPTIONS,PATCH,DELETE,POST,PUT");
    UnionUpdate(h, cors, "Access-Control-Allow-Methods", "GET,OPTIONS,PATCH,DELETE,POST,PUT");
    cors := cors["Access-Control-Allow-Methods" := "GET,OPTIONS,PATCH,DELETE,POST,PUT"];
    res.SetHeader("Access-Control-Allow-Headers", "X-CSRF-Token, X-Requested-With, Accept, Accept-Version, Content-Length, Content-MD5, Content-Type, Date, X-Api-Version");
    UnionUpdate(h, cors, "Access-Control-Allow-Headers", "X-CSRF-Token, X-Requested-With, Accept, Accept-Version, Content-Length, Content-MD5, Content-Type, Date, X-Api-Version");
    cors := cors["Access-Control-Allow-Headers" := "X-CSRF-Token, X-Requested-With, Accept, Accept-Version, Content-Length, Content-MD5, Content-Type, Date, X-Api-Version"];
    assert cors == CorsHeaders;
  }

  /** The `forEach` over the settled outcomes: the value of each fulfilled
      one is appended to `results`, the rejected ones are skipped. */
  method MergeFulfilled(outcomes: seq<Result<seq<RawResult>>>) returns (results: seq<RawResult>)
    ensures results == Fulfilled(outcomes)
  {
    results := [];
    var i := 0;
    while i < |outcomes|
      invariant 0 <= i <= |outcomes|
      invariant results == Fulfilled(outcomes[..i])
    {
      FulfilledAppend(outcomes[..i], [outcomes[i]]);
      assert outcomes[..i + 1] == outcomes[..i] + [outcomes[i]];
      if outcomes[i].Ok? {
        results := results + outcomes[i].value;
      }
      i := i + 1;
    }
    assert outcomes[..i] == outcomes;
  }

  /** The search step of the handler, in either mode; `None` when it throws. */
  method RunSearch(body: RequestBody, upstream: Search -> Reply) returns (results: Option<seq<RawResult>>)
    requires ValidQuery(body.query)
    ensures results == SearchStep(body, upstream)
  {
    var query := body.query.value;
    var numResults := body.numResults.GetOr(DefaultNumResults);
    if IsEvidence(body) {
      var keywords := ExtractKeywords(query, EvidenceKeywordCount);
      var searches := EvidenceSearches(query, keywords, numResults);
      var merged := MergeFulfilled(Settle(searches, upstream));
      results := Some(SliceTo(UniqueByLink(merged), numResults));
    } else {
      var outcome := SearchForEvidence(upstream(Search(Trim(query), numResults)));
      results := if outcome.Ok? then Some(outcome.value) else None;
    }
  }

  /** The handler: every response carries the CORS headers, and its status
      and body are those `Respond` gives. */
  method Handle(req: Request, config: Config, upstream: Search -> Reply,
                parseHost: string -> Option<string>, res: ServerResponse)
    requires !res.finished && res.body == None
    modifies res
    ensures res.finished
    ensures res.headers == old(res.headers) + CorsHeaders
    ensures Outcome(res.statusCode, res.body) == Respond(req, config, upstream, parseHost)
  {
    SetCorsHeaders(res);

    if req.verb == "OPTIONS" {
      res.Status(200);
      res.End();
      return;
    }
    if req.verb != "POST" {
      SendJson(res, 405, Failure("Method not allowed", None));
      return;
    }
    if req.body.None? {
      // destructuring an absent body throws inside the try block
      SendJson(res, 500, InternalError);
      return;
    }
    var body := req.body.value;
    if !ValidQuery(body.query) {
      SendJson(res, 400, Failure("Query is required and must be a non-empty string", None));
      return;
    }
    if !Truthy(config.apiKey) {
      SendJson(res, 500, Failure("Search service not configured", None));
      return;
    }
    var results := RunSearch(body, upstream);
    if results.None? {
      SendJson(res, 500, InternalError);
      return;
    }
    var formatted := FormatAll(results.value, parseHost);
    if formatted.None? {
      SendJson(res, 500, InternalError);
      return;
    }
    SendJson(res, 200, Found(true, Trim(body.query.value), formatted.value, |formatted.value|));
  }
}
