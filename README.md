# twitter_enricher request builders and stream processor, in Dafny

This project models the core of `playground.py` from twitter_enricher. That
program reads Twitter's sampled tweet stream, asking for each tweet's
geographic information. The model has two parts.

- **Request builders.**
  - `TwitterURLBuilder.get_headers` reads the bearer token from the
    environment and returns `{"Authorization": "Bearer <token>"}`. It raises
    `ValueError` when the token is unset or empty.
  - `TwitterURLBuilder.get_url` builds the sampled-stream URL. Each of the
    optional `tweet.fields`, `expansions` and `place.fields` parameters is
    present only when its list is non-empty, in that fixed order. Each value
    is the comma-joined enum strings. The query is serialized with
    `urllib.parse.urlencode`, and with no parameter the bare endpoint comes
    back.
  - `WeatherApiUrlBuilder.get_url` returns `?key=<key>&q=<location>`.
  - The three string enums supply the values.
- **Stream processor.** `TwitterStreamProcessor.process` opens the stream and
  reads it line by line.
  - Each non-empty line is counted in the persistent field `received_items`
    and then parsed as JSON.
  - After every line, empty or not, the test `n and received_items > n`
    decides whether to close the stream and stop, unless a tweet failed to
    parse, which raises before the test runs.

## Files and modules

- `wrappers.dfy` (`Wrappers`): `Option` and `Result`.
- `errors.dfy` (`Errors`):
  - the exceptions the core raises;
  - the environment, as a `map<string, string>`;
  - the `os.environ.get` lookup.
- `strings.dfy` (`Strings`): `str.join` and a splitter, with the lemma that
  splitting undoes joining.
- `form_encoding.dfy` (`FormEncoding`): the `application/x-www-form-urlencoded`
  serializer that `urllib.parse.urlencode` applies to a dictionary of strings.
  - This is `quote_plus`: the text is converted to UTF-8; letters, digits and
    `_.-~` are kept; a space becomes `+`; every other byte becomes `%XX` in
    upper case.
  - A decoder is included, with the round trip proved: decoding any serialized
    dictionary gives back its items, as UTF-8.
- `enums.dfy` (`TwitterEnums`): the three enums, each with its string value
  and the inverse lookup.
- `twitter_url_builder.dfy` (`TwitterUrlBuilder`): `get_headers`, `get_url`,
  and the properties of the query they build.
- `weather_api_url_builder.dfy` (`WeatherApiUrlBuilder`): the weather query.
- `stream_processor.dfy` (`StreamProcessor`):
  - the stream client, as a class holding the served lines, an iterator
    position, the recorded requests and a close counter;
  - the processor, as a class with the `receivedItems` field;
  - `Process`, a loop proved against the function `RunAt`;
  - the lemmas about `RunAt`.

The environment and the JSON parser are parameters. The parser is
`parses: Line -> bool`, which says whether `json.loads` accepts a line.

### Where the code and its own text disagree

The model follows what the code does.

- **The cap.** The docstring of `process` calls `n` the "Maximum number of
  tweets to read" (playground.py:151). The loop tests
  `received_items > n` (playground.py:174), so a run that starts at or below a
  positive `n`, such as the first call on a fresh processor, counts `n + 1`
  tweets before it closes (`ClosesAtNPlusOne`).
- **No cap.** `n = 0` and `n = None` both disable the cap.
- **A negative `n`.** It closes the stream after the first line, provided
  that line is empty or parses. A first line that is a tweet and does not
  parse raises before the cap is tested (`AlreadyExceeded`, `RunParses`).
- **The counter.** `process` never resets it, so a second call starts from
  the first call's count (`SecondRunClosesAtOnce`).
- **The weather URL.** `WEATHER_API_ENDPOINT` is declared at
  playground.py:76 but is not used at playground.py:84. The result is only
  the query, nothing in it is encoded, and the missing-key error reuses the
  Twitter token's message (playground.py:81-82).

## Model

| member | source | states |
|---|---|---|
| TwitterEnums.TwitterStreamExpansion.FromValue | playground.py:13-21 | every string that maps back to an expansion is that expansion's value |
| TwitterEnums.TwitterStreamPlaceField.FromValue | playground.py:24-32 | every string that maps back to a place field is that field's value |
| TwitterEnums.TwitterStreamField.FromValue | playground.py:35-38 | every string that maps back to a tweet field is that field's value |
| TwitterUrlBuilder.GetHeaders | playground.py:45-52 | it fails exactly when `TWITTER_BEARER_TOKEN` is unset or empty, with `ValueError("Twitter Bearer Token not found")`; otherwise the only header is `Authorization`, whose value reads back as `Bearer ` followed by the token |
| TwitterUrlBuilder.GetHeadersValue | playground.py:50-52 | on success the headers are exactly `{"Authorization": "Bearer " + token}` |
| TwitterUrlBuilder.FieldValuesReadBack | playground.py:62-63 | splitting the `,`-join of non-empty tweet fields at `,` gives one part per field, and each part looks up to that field, in order |
| TwitterUrlBuilder.ExpansionValuesReadBack | playground.py:64-65 | splitting the `,`-join of non-empty expansions at `,` gives one part per expansion, and each part looks up to that expansion, in order |
| TwitterUrlBuilder.PlaceFieldValuesReadBack | playground.py:66-67 | splitting the `,`-join of non-empty place fields at `,` gives one part per field, and each part looks up to that field, in order |
| TwitterUrlBuilder.BuildQueryParams | playground.py:61-67 | building the dictionary by three conditional insertions gives the query parameters, and the dictionary is empty exactly when all three lists are |
| TwitterUrlBuilder.GetUrl | playground.py:54-71 | the result is the bare endpoint exactly when all three lists are empty; otherwise it is the endpoint, `?` and the encoded parameters, and the part after `?` decodes back to the parameters |
| TwitterUrlBuilder.QueryParamsShape | playground.py:61-67 | the parameters are the non-empty lists' entries, each a singleton added in the order `tweet.fields`, `expansions`, `place.fields` |
| TwitterUrlBuilder.QueryParamsLookup | playground.py:62-67 | each of the three names is present exactly when its list is non-empty, and it holds that list's values joined by `,` |
| TwitterUrlBuilder.QueryParamsOrdered | playground.py:61-69 | there are at most three parameters, all among the three names, in strictly increasing fixed order |
| TwitterUrlBuilder.QueryParamsEncoding | playground.py:63-69 | serializing changes only the `,` separators into `%2C`; names and enum values pass unchanged |
| TwitterUrlBuilder.EncodedQuery | playground.py:69-71 | the serialized query is empty exactly when the dictionary is, and it decodes back to the dictionary |
| TwitterUrlBuilder.SingleExpansionQuery | playground.py:64-69 | a single expansion serializes as `expansions=<value>`, unchanged |
| TwitterUrlBuilder.PlaceIdQuery | playground.py:64-71 | `expansions=[PLACE_ID]` serializes as `expansions=geo.place_id` (the query tests/test_playground.py:25-28 expects) |
| TwitterUrlBuilder.PlaceIdUrl | playground.py:54-71 | `get_url(expansions=[PLACE_ID])` is the endpoint followed by `?expansions=geo.place_id`, the URL tests/test_playground.py:25-28 expects |
| TwitterUrlBuilder.FullQuery | playground.py:61-69 | with all three lists non-empty, the query is the three parameters in order, each list joined by `%2C` |
| TwitterUrlBuilder.ProcessQuery | playground.py:156-164 | the parameters `process` asks for serialize as `tweet.fields=geo&expansions=geo.place_id&place.fields=geo%2Cfull_name%2Cplace_type` |
| FormEncoding.Utf8Char | playground.py:69 | a character is encoded as 1 to 4 bytes, and as its own code exactly when below `0x80` |
| FormEncoding.EncodePairs | playground.py:69 | one `key=value` piece per dictionary item, in order, each the `quote_plus` of its key and value |
| FormEncoding.QuotePlusSafe | playground.py:69 | text made only of letters, digits and `_.-~` is left unchanged by `quote_plus` |
| FormEncoding.QuotePlusComma | playground.py:63-69 | `quote_plus(",")` is `%2C` |
| FormEncoding.QuotePlusCommaJoin | playground.py:63-69 | encoding a `,`-join of safe strings gives their `%2C`-join |
| FormEncoding.QuoteBytesAlphabet | playground.py:69 | encoded text never holds `&` or `=`, so the pieces of a query can be told apart |
| FormEncoding.UnquoteQuoteBytes | playground.py:69 | decoding the encoding of any bytes gives back those bytes |
| FormEncoding.ParseQueryOfUrlEncode | playground.py:69 | decoding the serialization of any dictionary gives back its items in order, as UTF-8 |
| FormEncoding.UrlEncodeNonEmpty | playground.py:69-71 | a non-empty dictionary never serializes to the empty string |
| Strings.SplitJoin | playground.py:63-69 | splitting a `,`-join at `,` gives back the parts when no part holds `,` |
| WeatherApiUrlBuilder.GetUrl | playground.py:78-84 | it fails exactly when `ENVIRON_WEATHER_API_API_NAME` is unset or empty, with `ValueError("Twitter Bearer Token not found")`; otherwise the result is exactly `?key=` + key + `&q=` + location, for every key: it starts with `?`, not with the endpoint |
| WeatherApiUrlBuilder.GetUrlReadsBack | playground.py:84 | a key without `&` and the location are read back from the result |
| WeatherApiUrlBuilder.ParseWeatherQueryExact | playground.py:84 | whatever reads back as a key and a location is exactly `?key=<key>&q=<location>`, so with `GetUrlReadsBack` the result is exactly that text |
| WeatherApiUrlBuilder.AmpersandInKeyIsAmbiguous | playground.py:84 | since nothing is encoded, a key holding `&q=` is read back wrongly |
| StreamProcessor.StreamClient.Next | playground.py:168 | one step of the iterator over the response's lines: the next line and an advanced position, or `None` at the end |
| StreamProcessor.StreamClient.Get | playground.py:93-96 | records the request and restarts the iterator |
| StreamProcessor.StreamClient.Close | playground.py:98-100 | counts one more close call and changes nothing else |
| StreamProcessor.TwitterStreamProcessor.constructor | playground.py:130-133 | the processor keeps its client and its counter starts at zero |
| StreamProcessor.TwitterStreamProcessor.Process | playground.py:135-176 | on a missing token it raises before any request and changes nothing. Otherwise it sends one request for the fixed URL with the headers, then leaves the counter, the stream position and the close count as `RunAt` gives them; it closes once exactly when the run ends by the cap, and raises `JsonDecodeError` exactly when it ends on a line that does not parse |
| StreamProcessor.RunAt | playground.py:168-176 | the run takes at least one line unless the stream is already at its end, takes all of them when it ends by exhaustion, and never lowers the counter |
| StreamProcessor.RunCounts | playground.py:169-170 | the counter ends at its start plus the number of non-empty lines the run took, one per non-empty line and none for an empty one |
| StreamProcessor.RunParses | playground.py:169-171 | every non-empty line the run took parsed, except the last line of a run that ended on a parse failure, which is non-empty and does not parse |
| StreamProcessor.NoParseFailure | playground.py:169-171 | when every non-empty line parses, the run does not end on a parse failure |
| StreamProcessor.RunChecks | playground.py:174-176 | the cap test fails after every line before the last one taken; a closed run ends on a line after which it succeeds; an exhausted run never saw it succeed |
| StreamProcessor.ClosedIffExceeded | playground.py:168-176 | when every line parses, the stream is closed exactly when the counter exceeds a truthy `n` after some line; it closes after the first such line, and otherwise every line is taken |
| StreamProcessor.NoCapNeverCloses | playground.py:174-176 | with `n` `None` or `0` the stream is never closed, and when every line parses the run takes every line and counts every non-empty one |
| StreamProcessor.ClosesAtNPlusOne | playground.py:169-176 | starting at or below a truthy `n`, a run that closes has counted exactly `n + 1`, and it closed right after a tweet |
| StreamProcessor.ReadsNPlusOne | playground.py:168-176 | starting at or below a truthy `n`, with more than `n` further tweets that all parse, the stream is closed with exactly `n + 1` counted |
| StreamProcessor.AlreadyExceeded | playground.py:169-176 | a counter already above a truthy `n` closes the stream after the first line, when that line is empty or parses |
| StreamProcessor.SecondRunClosesAtOnce | playground.py:133-176 | when a first `process` call closed the stream, from any starting counter, a second call over the same stream with the same `n` closes after its first line, because the counter carries over |
| StreamProcessor.RequestUrl | playground.py:155-164 | the URL `process` requests is the endpoint followed by `?tweet.fields=geo&expansions=geo.place_id&place.fields=geo%2Cfull_name%2Cplace_type` |

## Left out

- `RequestsHttpClient` and `RequestsHttpStreamClient` (playground.py:103-125) are thin wrappers over the `requests` library. They are replaced by `StreamClient`, which serves a fixed sequence of lines and counts close calls.
- The `HttpClient` interface (playground.py:87-90) is not used by the core and is not modelled.
- `json.loads` is a foreign parser. It appears as the parameter `parses`, and the parsed value is not modelled. `LOGGER` calls have no effect on behaviour and are left out.
- `StreamClient`: every `get` serves the same lines from the start. A server that sends different lines on another call is not modelled.
- `StreamClient.Close` does not model the iterator after a close, since `process` stops reading right after closing.
- `process` ignores its `**kwargs`, and the model has no such parameter.
- `centroid_calculator` (playground.py:202-208) is floating-point work delegated to `geojson` and `turfpy`, and it returns `None`. It is not part of this model.
- `main`, `argparse` and the logging setup (playground.py:179-198) are command-line plumbing, and are left out.
- `os.environ` is the map parameter `env`. `Errors.EnvGet` is the map lookup that stands for `os.environ.get`. Reading the environment has no other effect.
- `TwitterUrlBuilder.GetUrl` takes sequences: the source's `None` default and an empty list behave the same, so both are modelled as `[]`.
- `WeatherApiUrlBuilder.GetUrl` takes the location as text that is already formatted. The f-string formatting of another kind of value is not modelled.
- `FormEncoding.ParseQuery` decodes to UTF-8 bytes and does not decode them back to text. The round trip is therefore stated on bytes.
- `TwitterStreamProcessor.Process`: a tweet that does not parse raises the exception with no close call, as in the source. `Errors.JsonDecodeError` stands for any exception `json.loads` raises on a line, including `UnicodeDecodeError` on bytes that are not UTF-8. The exception's message is not modelled.
