# Search proxy handler, modelled in Dafny

This project models `api/api-search.js`, a serverless request handler that
proxies a web-search provider. A client POSTs a JSON body with a `query`, an
optional `searchType` (`"general"` or `"evidence"`) and an optional
`numResults`.

- **General mode** forwards the trimmed query to the provider.
- **Evidence mode** builds up to three sub-searches:
  - two fixed phrasings of the query;
  - one phrasing per keyword that `extractKeywords` pulls from the query.

  It then:
  1. runs the sub-searches as `Promise.allSettled`;
  2. concatenates the lists of the fulfilled ones;
  3. keeps the first result for each `link`;
  4. cuts the list to `numResults`.

Either way each result is formatted with fallbacks for its missing fields, and
the response is `{success, query, results, totalResults}`. The handler also:

- sets the CORS headers on every response;
- answers preflight `OPTIONS` with an empty 200;
- rejects other methods with 405;
- rejects a blank query with 400;
- answers 500 when the provider key is not configured or anything throws.

The modules follow the structure of the program:

- `Wrappers`: `Option` and `Result`.
- `Js`: the JavaScript built-ins the handler relies on. These are `\s` white space, `trim`, ASCII `toLowerCase`, `slice(0, end)` with a negative `end`, `Math.ceil(n / 3)`, and the truthiness of string fields.
- `Keywords`: `extractKeywords`. It normalises, splits, filters out filler words and short words, sorts stably longest first, and slices.
- `Upstream`: one call of `searchForEvidence`. The provider's reply is an input, and the call reduces it to `Ok(results)` or a rejection.
- `Evidence`: the sub-search list of evidence mode, the merge of settled outcomes, and the `findIndex` filter that removes repeated links. The filter is checked against a one-pass "links seen so far" reference definition.
- `Format`: the per-result map and the list map. The list map throws when one result cannot be formatted.
- `Handler`:
  - the request, configuration and response datatypes;
  - `Respond`, the function that says what the handler answers;
  - the mutable `ServerResponse` object;
  - the imperative `Handle` method, which writes the response through `ServerResponse` and is proved to produce exactly `Respond`'s answer.

The provider is a parameter `upstream: Search -> Reply`, giving the reply to each search. The WHATWG URL parser behind `new URL(link).hostname` is a parameter `parseHost: string -> Option<string>`, where `None` means the constructor throws. Lemmas that rely on the URL parser rejecting the empty string state `parseHost("") == None` as a precondition.

## Model

| member | source | states |
|---|---|---|
| Js.ToLower | api/api-search.js:14 | an upper-case ASCII letter becomes the lower-case letter at the same place in the alphabet, every other character is unchanged, and word and white-space characters stay what they were |
| Js.LowerCase | api/api-search.js:14 | `toLowerCase` keeps the length, turns each upper-case ASCII letter into its lower-case partner and leaves every other character unchanged |
| Js.TrimStart | api/api-search.js:75 | the result is a suffix of the input, everything removed is white space, and the result does not start with white space |
| Js.TrimEnd | api/api-search.js:75 | the result is a prefix of the input, everything removed is white space, and the result does not end with white space |
| Js.Trim | api/api-search.js:75 | `trim()` is empty exactly when the string is all white space; otherwise it neither starts nor ends with white space |
| Js.TrimIsInfix | api/api-search.js:85 | the trimmed query is one contiguous piece of the query with only white space around it |
| Js.SliceTo | api/api-search.js:115 | `slice(0, end)` is a prefix of length `min(end, len)` for `end >= 0`, and of `max(len + end, 0)` for a negative `end` |
| Js.CeilThird | api/api-search.js:99 | `Math.ceil(n / 3)` is the least integer whose triple is at least `n` |
| Keywords.StripPunctuation | api/api-search.js:14 | `replace(/[^\w\s]/g, '')` leaves only word and white-space characters, and leaves text that holds nothing else unchanged |
| Keywords.StripPunctuationAppend | api/api-search.js:14 | the filter of a concatenation is the concatenation of the filters, so kept characters keep their order |
| Keywords.StripPunctuationOne | api/api-search.js:14 | a single character is kept exactly when it is a word or white-space character |
| Keywords.StripPunctuationCounts | api/api-search.js:14 | each word or white-space character is kept as often as it occurs, and no other character is kept |
| Keywords.Normalize | api/api-search.js:14 | the normalised text holds only word and white-space characters and no upper-case letter |
| Keywords.SplitFromPieces | api/api-search.js:14 | `split(/\s+/)` yields pieces free of white space whose characters all come from the text |
| Keywords.TokensAreLowerWords | api/api-search.js:14 | every token consists of lower-case word characters |
| Keywords.SplitWord | api/api-search.js:14 | a word without white space splits into itself alone |
| Keywords.SplitFromAtRun | api/api-search.js:14 | a non-empty run of white space of any length ends the current piece, and the next piece starts after the whole run |
| Keywords.SplitAtRun | api/api-search.js:14 | the text up to the first run of white space is the first piece and splitting continues after the run; leading white space yields an empty first piece |
| Keywords.SplitJoin | api/api-search.js:14 | splitting inverts joining non-empty, space-free words with single spaces |
| Keywords.Candidates | api/api-search.js:17 | the filter keeps exactly the words that are not filler and longer than 3, each as often as in the input |
| Keywords.CandidatesAppend | api/api-search.js:17 | the filter of a concatenation is the concatenation of the filters, so kept words keep their order |
| Keywords.CandidatesOne | api/api-search.js:17 | a single word is kept exactly when it is not filler and longer than 3 |
| Keywords.InsertByLength | api/api-search.js:18 | one insertion step of the sort adds exactly the inserted word to the multiset |
| Keywords.InsertKeepsOrder | api/api-search.js:18 | an insertion step keeps a list sorted longest first |
| Keywords.SortByLength | api/api-search.js:18 | the sort by descending length is a permutation of its input and is ordered by non-increasing length |
| Keywords.InsertGoesBeforeEqualLength | api/api-search.js:18 | an inserted word lands before every word of its own length that was already there |
| Keywords.SortIsStable | api/api-search.js:18 | the sort is stable: the words of each length keep their input order |
| Keywords.OfLengthOfPrefix | api/api-search.js:19 | cutting a list keeps, for each length, a prefix of the words of that length |
| Keywords.ExtractKeywords | api/api-search.js:6-22 | empty text gives no keywords; there are at most `maxKeywords`, none is a filler word or 3 characters or shorter, and they are ordered by non-increasing length |
| Keywords.KeywordsComeFromTokens | api/api-search.js:14-19 | the keywords are a sub-multiset of the normalised tokens |
| Keywords.KeywordsCount | api/api-search.js:16-19 | there are exactly `min(maxKeywords, number of candidates)` keywords |
| Keywords.KeywordsAreLongest | api/api-search.js:18-19 | no candidate left out is longer than any keyword |
| Keywords.KeywordsKeepTextOrder | api/api-search.js:18-19 | keywords of equal length are the first candidates of that length, in text order |
| Keywords.KeywordsAreLowerWords | api/api-search.js:14-19 | keywords consist of lower-case word characters |
| Upstream.SearchForEvidence | api/api-search.js:41-46 | a call succeeds exactly when a reply arrives with a 2xx status and a JSON body; it then gives `organic`, or the empty list when that is absent |
| Evidence.EvidenceSearches | api/api-search.js:90-99 | two sub-searches without keywords and three with; the first two are the fixed phrasings of the query, the third uses the first keyword; each asks for `ceil(numResults / 3)` results |
| Evidence.EvidenceSearchesDiffer | api/api-search.js:91-98 | the sub-search queries are pairwise different |
| Evidence.FulfilledAppend | api/api-search.js:104-108 | the merge of the settled outcomes distributes over concatenation |
| Evidence.AllRejectedMergeEmpty | api/api-search.js:102-108 | when every sub-search is rejected the merged list is empty |
| Evidence.FindLink | api/api-search.js:112 | `findIndex` gives the first position holding the link, or -1 exactly when none does |
| Evidence.LinksAreFound | api/api-search.js:112 | a link occurs in the list exactly when `findIndex` finds it |
| Evidence.FoundHereIffNew | api/api-search.js:111-113 | the filter keeps a result exactly when no earlier result has its link |
| Evidence.KeepFirstFromIsDedupSeen | api/api-search.js:111-113 | the `findIndex` filter agrees with the one-pass reference that remembers the links seen so far |
| Evidence.UniqueByLinkIsDedupSeen | api/api-search.js:111-113 | the whole filter equals the reference started with no link seen |
| Evidence.DedupSeenSelects | api/api-search.js:111-113 | the reference keeps an order-preserving selection of its input |
| Evidence.DedupSeenDistinct | api/api-search.js:111-113 | the reference keeps pairwise distinct links, none already seen |
| Evidence.DedupSeenLinks | api/api-search.js:111-113 | the reference loses no link that was not already seen |
| Evidence.KeepFirstFromKeepsFirst | api/api-search.js:111-113 | every result the filter keeps is the first in the input with its link |
| Evidence.UniqueByLinkFacts | api/api-search.js:111-113 | the de-duplicated list is a subsequence of the merged list, with pairwise distinct links (an absent link is one key), each the first result with its link, and every link of the input still present |
| Evidence.EvidenceResultsFacts | api/api-search.js:102-115 | the evidence results are a subsequence of the merged results, with distinct links, each the first with its link, and at most `numResults` of them |
| Format.FormatResult | api/api-search.js:122-127 | formatting one result succeeds exactly when it has a display link or its link's host parses; each field takes its value when truthy and its fallback otherwise (`"No title"`, `""`, `"No description available"`, the host of the link) |
| Format.FormatAll | api/api-search.js:122-127 | the map succeeds exactly when every result formats, and then keeps length and order |
| Format.MissingLinkThrows | api/api-search.js:126 | a result with neither a link nor a display link makes the whole map throw |
| Handler.SubSearchesUseRawQuery | api/api-search.js:88-99 | evidence mode searches with the query as sent, before trimming, and the third search uses the longest keyword |
| Handler.Respond | api/api-search.js:54-143 | status is 200, 400, 405 or 500; there is no body exactly for OPTIONS, which gets 200; 405 exactly for methods other than OPTIONS and POST; 400 exactly for a POST with a missing or blank query; "Search service not configured" exactly for a valid query without a key; the 405 and 400 bodies are their fixed error messages; a 500 carries either "Search service not configured" or "Internal server error" with "Search failed", and a POST without a body gets the latter; a 200 body is a success whose `query` is the trimmed query and whose `totalResults` is the number of results |
| Handler.FormattedLinksDistinct | api/api-search.js:111-127 | results with distinct links keep distinct non-empty links once formatted |
| Handler.EvidenceResponse | api/api-search.js:88-134 | a 200 in evidence mode carries the formatted evidence results in order: a subsequence of the merged results, each the first with its link, at most `numResults`, with distinct non-empty links |
| Handler.AllSubSearchesRejected | api/api-search.js:102-134 | when every sub-search is rejected, evidence mode still answers 200 with no results and `totalResults` 0 |
| Handler.RejectedSearchStep | api/api-search.js:102-115 | when every sub-search is rejected, the search step yields the empty list |
| Handler.NothingMergedNoResults | api/api-search.js:111-115 | an empty merged list leaves no evidence results |
| Handler.EvidenceStep | api/api-search.js:88-115 | in evidence mode the search step never throws and gives the evidence results |
| Handler.SearchedResponse | api/api-search.js:122-134 | a request whose results all format is answered 200 with exactly those formatted results and their count |
| Handler.FailedSearchResponse | api/api-search.js:118-141 | a search step that throws is answered 500 "Internal server error" |
| Handler.UnformattableResponse | api/api-search.js:122-141 | a request whose results do not all format is answered 500 "Internal server error" |
| Handler.GeneralResponse | api/api-search.js:116-119 | in general mode a rejected search is a 500, and a 200 carries as many results as the provider sent, without truncation |
| Handler.MissingLinkIsServerError | api/api-search.js:122-141 | a result with neither a link nor a display link turns the response into a 500 |
| Handler.ServerResponse.SetHeader | api/api-search.js:56-59 | sets one header and changes nothing else |
| Handler.ServerResponse.Status | api/api-search.js:63 | sets the status code and changes nothing else |
| Handler.ServerResponse.Json | api/api-search.js:69 | sends the body and finishes the response |
| Handler.ServerResponse.End | api/api-search.js:63 | finishes the response without a body |
| Handler.SendJson | api/api-search.js:69 | `res.status(s).json(p)` finishes with that status and body and keeps the headers |
| Handler.SetCorsHeaders | api/api-search.js:55-59 | the four CORS headers are added on top of the existing headers |
| Handler.MergeFulfilled | api/api-search.js:104-108 | the `forEach` loop leaves `results` equal to the concatenation of the fulfilled values, in order |
| Handler.RunSearch | api/api-search.js:85-119 | the search step in either mode computes what `SearchStep` specifies |
| Handler.Handle | api/api-search.js:54-143 | the handler always finishes the response, always adds the CORS headers, and sends exactly the status and body `Respond` gives |

## Left out

- The HTTP exchange with the provider (`node-fetch`, the request headers and JSON body sent, `response.json()`) is not modelled. Each call is reduced to a `Reply`, which is an input.
- Concurrency of `Promise.allSettled` is not modelled. The outcomes are an ordered sequence, one per sub-search, as the platform collects them.
- `new URL(...).hostname` is a parameter. Its only property used is, where stated, failure on the empty string.
- `console.error` logging and the `process.env` reads are left out; the API key is a field of `Config`.
- Handler.Respond: the 500 body's `message` is always `"Search failed"`. With `NODE_ENV` set to `development` the source sends the thrown error's own message instead. Error texts are not kept in the model.
- Js.LowerCase: lowers ASCII letters only. The only characters this affects are those that JavaScript lowers into ASCII word characters: U+0130 becomes `i` followed by a combining dot, and the Kelvin sign U+212A becomes `k`. Every other non-ASCII character that is not white space is removed by the punctuation filter either way. Non-ASCII white space is kept by `\s` and is never changed by lower-casing.
- Handler.RequestBody: the JSON body is read as typed fields. A `query` that is not a string is `None`, like an absent one, and both are answered 400. `null` and absent values are not told apart, and a `numResults` that is not an integer is not modelled. An absent body object is modelled as a throw inside the `try`, answered 500.
- Upstream.RawResult: result fields that are not strings are not modelled, and neither is an `organic` value that is not a list. For the formatting fallbacks, a missing field and an empty string are both falsy and are treated alike, as the source does. De-duplication tells them apart, as `===` does.
- The header value for `Access-Control-Allow-Credentials` is the boolean `true` in the source; the model stores the string `"true"` that goes on the wire.
- Handler.GeneralResponse: general mode passes on whatever the provider sends, so no bound by `numResults` is stated there.
- Handler.FormattedLinksDistinct: links stay distinct only when they are non-empty. An absent link and an empty link both format to `""`. Also, because an absent link is a single key for de-duplication, at most one link-less result survives in evidence mode.
- Handler.SendJson: headers that the platform's `res.json` helper sets by itself, such as `Content-Type`, are not modelled. The headers stated for `SendJson` and `Handle` are those the handler sets.
