/** The upstream search provider as the handler sees it: `searchForEvidence`
    reduced to the outcome of one call. The HTTP exchange itself is not
    modelled; what the provider answers is an input. */
module Upstream {
  import opened Wrappers

  /** One organic search hit as the provider sends it; every field may be
      absent. */
  datatype RawResult = RawResult(
    title: Option<string>,
    link: Option<string>,
    snippet: Option<string>,
    displayLink: Option<string>)

  /** One call of `searchForEvidence(query, numResults)`. */
  datatype Search = Search(query: string, numResults: int)

  /** The decoded body of a provider reply: either it is not JSON, or it is
      an object whose `organic` list may be absent. */
  datatype Payload = Unparsable | Parsed(organic: Option<seq<RawResult>>)

  /** What the network gives back for one call: no reply at all (the fetch
      rejects), or a reply with an HTTP status and a body. */
  datatype Reply = Unreachable | Answered(status: int, payload: Payload)

  /** `response.ok`. */
  predicate IsOk(status: int) {
    200 <= status <= 299
  }

  /** `searchForEvidence`: the organic results of a successful reply, the
      empty list when a successful reply has none, and a rejection for a
      failed fetch, a non-2xx status or a body that is not JSON. */
  function SearchForEvidence(reply: Reply): (r: Result<seq<RawResult>>)
    ensures r.Ok? <==> reply.Answered? && IsOk(reply.status) && reply.payload.Parsed?
    ensures r.Ok? && reply.payload.organic.None? ==> r.value == []
    ensures r.Ok? && reply.payload.organic.Some? ==> r.value == reply.payload.organic.value
  {
    match reply
    case Unreachable => Err
    case Answered(status, payload) =>
      if !IsOk(status) then Err
      else match payload
        case Unparsable => Err
        case Parsed(organic) => Ok(organic.GetOr([]))
  }
}
