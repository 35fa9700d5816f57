/** The map from provider results to the fields the client receives. */
module Format {
  import opened Wrappers
  import opened Js
  import opened Upstream

  /** One result as the client receives it: every field is a string. */
  datatype Formatted = Formatted(title: string, link: string, snippet: string, source: string)

  /** The formatting of one result, with `parseHost` standing for
      `new URL(url).hostname` (`None` when the constructor throws). A falsy
      field takes its fallback; `source` falls back to the host of the link,
      and when that parse throws the whole formatting throws. */
  function FormatResult(raw: RawResult, parseHost: string -> Option<string>): (r: Option<Formatted>)
    ensures r.Some? <==> Truthy(raw.displayLink) || parseHost(OrElse(raw.link, "")).Some?
    ensures r.Some? ==> r.value.title != "" && r.value.snippet != ""
    ensures r.Some? ==> (r.value.link == "" <==> !Truthy(raw.link))
    ensures r.Some? && Truthy(raw.title) ==> r.value.title == raw.title.value
    ensures r.Some? && !Truthy(raw.title) ==> r.value.title == "No title"
    ensures r.Some? && Truthy(raw.link) ==> r.value.link == raw.link.value
    ensures r.Some? && Truthy(raw.snippet) ==> r.value.snippet == raw.snippet.value
    ensures r.Some? && !Truthy(raw.snippet) ==> r.value.snippet == "No description available"
    ensures r.Some? && Truthy(raw.displayLink) ==> r.value.source == raw.displayLink.value
    ensures r.Some? && !Truthy(raw.displayLink) ==> r.value.source == parseHost(r.value.link).value
  {
    var source :=
      if Truthy(raw.displayLink) then Some(raw.displayLink.value)
      else parseHost(OrElse(raw.link, ""));
    match source
    case None => None
    case Some(host) =>
      Some(Formatted(
        OrElse(raw.title, "No title"),
        OrElse(raw.link, ""),
        OrElse(raw.snippet, "No description available"),
        host))
  }

  /** `results.map(...)`: every result formatted, in order, or a throw when
      any one of them throws. */
  function FormatAll(results: seq<RawResult>, parseHost: string -> Option<string>): (r: Option<seq<Formatted>>)
    ensures r.Some? <==> forall i | 0 <= i < |results| :: FormatResult(results[i], parseHost).Some?
    ensures r.Some? ==> |r.value| == |results|
    ensures r.Some? ==> forall i | 0 <= i < |results| :: r.value[i] == FormatResult(results[i], parseHost).value
  {
    if results == [] then Some([])
    else match (FormatResult(results[0], parseHost), FormatAll(results[1..], parseHost))
      case (Some(first), Some(rest)) => Some([first] + rest)
      case _ => None
  }

  /** A result with neither a display link nor a link makes the formatting
      throw, since the host of the empty string cannot be parsed. */
  lemma MissingLinkThrows(results: seq<RawResult>, parseHost: string -> Option<string>, i: nat)
    requires parseHost("") == None
    requires i < |results| && !Truthy(results[i].link) && !Truthy(results[i].displayLink)
    ensures FormatAll(results, parseHost) == None
  {
    assert FormatResult(results[i], parseHost) == None;
  }
}
