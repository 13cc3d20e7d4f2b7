/** `TwitterURLBuilder`: the request headers (a bearer token read from the
    environment) and the URL of the sampled-stream endpoint with its optional
    `tweet.fields`, `expansions` and `place.fields` query parameters. */
module TwitterUrlBuilder {
  import opened Wrappers
  import opened Errors
  import opened Strings
  import opened FormEncoding
  import opened TwitterEnums

  const EnvironTwitterBearerTokenName: string := "TWITTER_BEARER_TOKEN"
  const StreamApiEndpoint: string := "https://api.twitter.com/2/tweets/sample/stream"
  const BearerTokenNotFound: string := "Twitter Bearer Token not found"
  const BearerPrefix: string := "Bearer "

  /** `get_headers`: a one-entry header map carrying the bearer token, or a
      `ValueError` when the token variable is unset or empty. */
  function GetHeaders(env: Environment): (r: Result<map<string, string>, Error>)
    ensures r.Failure? <==> EnvironTwitterBearerTokenName !in env || env[EnvironTwitterBearerTokenName] == ""
    ensures r.Failure? ==> r.error == ValueError(BearerTokenNotFound)
    ensures r.Success? ==> r.value.Keys == {"Authorization"}
    ensures r.Success? ==> BearerToken(r.value["Authorization"]) == Some(env[EnvironTwitterBearerTokenName])
  {
    var bearerToken := EnvGet(env, EnvironTwitterBearerTokenName);
    if !IsSetAndNonEmpty(bearerToken) then Failure(ValueError(BearerTokenNotFound))
    else Success(map["Authorization" := BearerPrefix + bearerToken.value])
  }

  /** Reads the token back out of an `Authorization` header value. */
  function BearerToken(authorization: string): Option<string>
  {
    if |BearerPrefix| <= |authorization| && authorization[..|BearerPrefix|] == BearerPrefix
    then Some(authorization[|BearerPrefix|..])
    else None
  }

  /** The header is exactly `Bearer <token>`, as the source writes it. */
  lemma GetHeadersValue(env: Environment)
    requires GetHeaders(env).Success?
    ensures GetHeaders(env).value == map["Authorization" := "Bearer " + env[EnvironTwitterBearerTokenName]]
  {
  }

  function FieldValues(fs: seq<TwitterStreamField>): (r: seq<string>)
    ensures |r| == |fs| && forall i | 0 <= i < |fs| :: r[i] == fs[i].Value()
  {
    seq(|fs|, i requires 0 <= i < |fs| => fs[i].Value())
  }

  function ExpansionValues(es: seq<TwitterStreamExpansion>): (r: seq<string>)
    ensures |r| == |es| && forall i | 0 <= i < |es| :: r[i] == es[i].Value()
  {
    seq(|es|, i requires 0 <= i < |es| => es[i].Value())
  }

  function PlaceFieldValues(ps: seq<TwitterStreamPlaceField>): (r: seq<string>)
    ensures |r| == |ps| && forall i | 0 <= i < |ps| :: r[i] == ps[i].Value()
  {
    seq(|ps|, i requires 0 <= i < |ps| => ps[i].Value())
  }

  /** A parameter value read back: splitting the `,`-join of the tweet
      fields' values at `,` and looking each part up gives back the fields,
      in order. */
  lemma FieldValuesReadBack(fs: seq<TwitterStreamField>)
    requires fs != []
    ensures |Split(Join(FieldValues(fs), ","), ',')| == |fs|
    ensures forall i | 0 <= i < |fs| ::
      TwitterStreamField.FromValue(Split(Join(FieldValues(fs), ","), ',')[i]) == Some(fs[i])
  {
    var vs := FieldValues(fs);
    forall i | 0 <= i < |vs| ensures ',' !in vs[i] && TwitterStreamField.FromValue(vs[i]) == Some(fs[i]) {
      FieldValueRoundTrip(fs[i]);
      FieldValueSafe(fs[i]);
      SafeTextNoComma(vs[i]);
    }
    SplitJoin(vs, ',');
  }

  /** The same read-back for the expansions. */
  lemma ExpansionValuesReadBack(es: seq<TwitterStreamExpansion>)
    requires es != []
    ensures |Split(Join(ExpansionValues(es), ","), ',')| == |es|
    ensures forall i | 0 <= i < |es| ::
      TwitterStreamExpansion.FromValue(Split(Join(ExpansionValues(es), ","), ',')[i]) == Some(es[i])
  {
    var vs := ExpansionValues(es);
    forall i | 0 <= i < |vs| ensures ',' !in vs[i] && TwitterStreamExpansion.FromValue(vs[i]) == Some(es[i]) {
      ExpansionValueRoundTrip(es[i]);
      ExpansionValueSafe(es[i]);
      SafeTextNoComma(vs[i]);
    }
    SplitJoin(vs, ',');
  }

  /** The same read-back for the place fields. */
  lemma PlaceFieldValuesReadBack(ps: seq<TwitterStreamPlaceField>)
    requires ps != []
    ensures |Split(Join(PlaceFieldValues(ps), ","), ',')| == |ps|
    ensures forall i | 0 <= i < |ps| ::
      TwitterStreamPlaceField.FromValue(Split(Join(PlaceFieldValues(ps), ","), ',')[i]) == Some(ps[i])
  {
    var vs := PlaceFieldValues(ps);
    forall i | 0 <= i < |vs| ensures ',' !in vs[i] && TwitterStreamPlaceField.FromValue(vs[i]) == Some(ps[i]) {
      PlaceFieldValueRoundTrip(ps[i]);
      PlaceFieldValueSafe(ps[i]);
      SafeTextNoComma(vs[i]);
    }
    SplitJoin(vs, ',');
  }

  /** Text that form encoding leaves unchanged holds no `,`. */
  lemma SafeTextNoComma(s: string)
    requires SafeText(s)
    ensures ',' !in s
  {
  }

  /** The three parameters the builder may add, in the order it adds them, each
      with the values of its list. */
  function CandidateParams(
    twitterFields: seq<TwitterStreamField>,
    expansions: seq<TwitterStreamExpansion>,
    placeFields: seq<TwitterStreamPlaceField>
  ): seq<(string, seq<string>)>
  {
    [ ("tweet.fields", FieldValues(twitterFields)),
      ("expansions", ExpansionValues(expansions)),
      ("place.fields", PlaceFieldValues(placeFields)) ]
  }

  /** The candidates whose list is non-empty, each with its values joined by
      `,`, in candidate order. */
  function Present(candidates: seq<(string, seq<string>)>): seq<(string, string)>
  {
    if candidates == [] then []
    else if candidates[0].1 == [] then Present(candidates[1..])
    else [(candidates[0].0, Join(candidates[0].1, ","))] + Present(candidates[1..])
  }

  /** The query dictionary, as the sequence of its items in insertion order. */
  function QueryParams(
    twitterFields: seq<TwitterStreamField>,
    expansions: seq<TwitterStreamExpansion>,
    placeFields: seq<TwitterStreamPlaceField>
  ): seq<(string, string)>
  {
    Present(CandidateParams(twitterFields, expansions, placeFields))
  }

  /** The dictionary holds, in this order, each parameter whose list is
      non-empty. */
  lemma QueryParamsShape(
    twitterFields: seq<TwitterStreamField>,
    expansions: seq<TwitterStreamExpansion>,
    placeFields: seq<TwitterStreamPlaceField>
  )
    ensures QueryParams(twitterFields, expansions, placeFields) ==
      (if twitterFields == [] then [] else [("tweet.fields", Join(FieldValues(twitterFields), ","))]) +
      (if expansions == [] then [] else [("expansions", Join(ExpansionValues(expansions), ","))]) +
      (if placeFields == [] then [] else [("place.fields", Join(PlaceFieldValues(placeFields), ","))])
  {
    var c := CandidateParams(twitterFields, expansions, placeFields);
    PresentStep(c);
    PresentStep(c[1..]);
    PresentStep(c[1..][1..]);
    assert c[1..][1..][1..] == [];
    assert c[1..][1..][0] == c[2];
    assert c[1..][0] == c[1];
  }

  lemma PresentStep(candidates: seq<(string, seq<string>)>)
    requires candidates != []
    ensures Present(candidates) ==
      (if candidates[0].1 == [] then [] else [(candidates[0].0, Join(candidates[0].1, ","))]) +
      Present(candidates[1..])
  {
  }

  /** The first half of `get_url`: the query dictionary is built one optional
      parameter at a time, each added only when its list is non-empty. */
  method BuildQueryParams(
    twitterFields: seq<TwitterStreamField>,
    expansions: seq<TwitterStreamExpansion>,
    placeFields: seq<TwitterStreamPlaceField>
  ) returns (queryParams: seq<(string, string)>)
    ensures queryParams == QueryParams(twitterFields, expansions, placeFields)
    ensures queryParams == [] <==> twitterFields == [] && expansions == [] && placeFields == []
  {
    queryParams := [];
    if twitterFields != [] {
      queryParams := queryParams + [("tweet.fields", Join(FieldValues(twitterFields), ","))];
    }
    if expansions != [] {
      queryParams := queryParams + [("expansions", Join(ExpansionValues(expansions), ","))];
    }
    if placeFields != [] {
      queryParams := queryParams + [("place.fields", Join(PlaceFieldValues(placeFields), ","))];
    }
    QueryParamsShape(twitterFields, expansions, placeFields);
  }

  /** `get_url`: the query dictionary is form-encoded and appended after `?`;
      with no parameter the bare endpoint is returned. Decoding the query part
      gives back the dictionary's items in order. */
  method GetUrl(
    twitterFields: seq<TwitterStreamField>,
    expansions: seq<TwitterStreamExpansion>,
    placeFields: seq<TwitterStreamPlaceField>
  ) returns (url: string)
    ensures url == StreamApiEndpoint <==> twitterFields == [] && expansions == [] && placeFields == []
    ensures url != StreamApiEndpoint ==>
      url == StreamApiEndpoint + "?" + UrlEncode(QueryParams(twitterFields, expansions, placeFields))
    ensures url != StreamApiEndpoint ==>
      |StreamApiEndpoint| < |url| &&
      ParseQuery(url[|StreamApiEndpoint| + 1..]) == Some(Utf8Pairs(QueryParams(twitterFields, expansions, placeFields)))
  {
    var queryParams := BuildQueryParams(twitterFields, expansions, placeFields);
    EncodedQuery(queryParams);
    var parsedParams := UrlEncode(queryParams);
    if parsedParams != "" {
      url := StreamApiEndpoint + "?" + parsedParams;
    } else {
      url := StreamApiEndpoint;
    }
  }

  /** What `GetUrl` needs of the serializer: it yields the empty string only for
      the empty dictionary, it is decoded back to the dictionary, and it can be
      cut back out of the URL. */
  lemma EncodedQuery(queryParams: seq<(string, string)>)
    ensures UrlEncode(queryParams) != "" <==> queryParams != []
    ensures ParseQuery(UrlEncode(queryParams)) == Some(Utf8Pairs(queryParams))
    ensures (StreamApiEndpoint + "?" + UrlEncode(queryParams))[|StreamApiEndpoint| + 1..] == UrlEncode(queryParams)
  {
    if queryParams != [] {
      UrlEncodeNonEmpty(queryParams);
    }
    ParseQueryOfUrlEncode(queryParams);
  }

  // ---------------------------------------------------------------------
  // Every enum value is made of characters form encoding leaves unchanged.

  /** Each expansion value is checked character by character in a lemma of
      its own, which keeps each proof small. */
  lemma ExpansionValueSafe(e: TwitterStreamExpansion)
    ensures SafeText(e.Value())
  {
    match e
    case PollIds => PollIdsValueSafe();
    case MediaKeys => MediaKeysValueSafe();
    case AuthorId => AuthorIdValueSafe();
    case Username => UsernameValueSafe();
    case PlaceId => PlaceIdValueSafe();
    case InReplyToUserId => InReplyToUserIdValueSafe();
    case ReferencedTweetId => ReferencedTweetIdValueSafe();
    case ReferencedTweetAuthorId => ReferencedTweetAuthorIdValueSafe();
  }

  lemma PollIdsValueSafe()
    ensures SafeText(PollIds.Value())
  {
  }

  lemma MediaKeysValueSafe()
    ensures SafeText(MediaKeys.Value())
  {
  }

  lemma AuthorIdValueSafe()
    ensures SafeText(TwitterStreamExpansion.AuthorId.Value())
  {
  }

  lemma UsernameValueSafe()
    ensures SafeText(Username.Value())
  {
  }

  lemma PlaceIdValueSafe()
    ensures SafeText(PlaceId.Value())
  {
  }

  lemma InReplyToUserIdValueSafe()
    ensures SafeText(InReplyToUserId.Value())
  {
  }

  lemma ReferencedTweetIdValueSafe()
    ensures SafeText(ReferencedTweetId.Value())
  {
  }

  lemma ReferencedTweetAuthorIdValueSafe()
    ensures SafeText(ReferencedTweetAuthorId.Value())
  {
  }

  lemma PlaceFieldValueSafe(f: TwitterStreamPlaceField)
    ensures SafeText(f.Value())
  {
  }

  lemma FieldValueSafe(f: TwitterStreamField)
    ensures SafeText(f.Value())
  {
  }

  // ---------------------------------------------------------------------
  // Properties of the query dictionary.

  /** The first value stored under `key`. */
  function Lookup(pairs: seq<(string, string)>, key: string): Option<string>
  {
    if pairs == [] then None
    else if pairs[0].0 == key then Some(pairs[0].1)
    else Lookup(pairs[1..], key)
  }

  /** A key absent from the candidates is absent from the dictionary. */
  lemma {:induction false} PresentLookupAbsent(candidates: seq<(string, seq<string>)>, key: string)
    requires forall i | 0 <= i < |candidates| :: candidates[i].0 != key
    ensures Lookup(Present(candidates), key) == None
  {
    if candidates != [] {
      PresentLookupAbsent(candidates[1..], key);
    }
  }

  /** When `key` is the `j`-th candidate and no other, it is in the dictionary
      exactly when its list is non-empty, and then with the list's values
      joined by `,`. */
  lemma {:induction false} PresentLookup(candidates: seq<(string, seq<string>)>, j: nat)
    requires j < |candidates|
    requires forall i | 0 <= i < |candidates| && i != j :: candidates[i].0 != candidates[j].0
    ensures Lookup(Present(candidates), candidates[j].0) ==
      if candidates[j].1 == [] then None else Some(Join(candidates[j].1, ","))
  {
    var key := candidates[j].0;
    if j == 0 {
      PresentLookupAbsent(candidates[1..], key);
    } else {
      PresentLookup(candidates[1..], j - 1);
    }
  }

  /** A parameter is present if and only if its list is non-empty, and its
      value is the list's enum values, in input order, joined by `,`. */
  lemma QueryParamsLookup(
    twitterFields: seq<TwitterStreamField>,
    expansions: seq<TwitterStreamExpansion>,
    placeFields: seq<TwitterStreamPlaceField>
  )
    ensures Lookup(QueryParams(twitterFields, expansions, placeFields), "tweet.fields") ==
      if twitterFields == [] then None else Some(Join(FieldValues(twitterFields), ","))
    ensures Lookup(QueryParams(twitterFields, expansions, placeFields), "expansions") ==
      if expansions == [] then None else Some(Join(ExpansionValues(expansions), ","))
    ensures Lookup(QueryParams(twitterFields, expansions, placeFields), "place.fields") ==
      if placeFields == [] then None else Some(Join(PlaceFieldValues(placeFields), ","))
  {
    var c := CandidateParams(twitterFields, expansions, placeFields);
    PresentLookup(c, 0);
    PresentLookup(c, 1);
    PresentLookup(c, 2);
  }

  /** The position of a parameter name in the fixed order. */
  function ParamRank(key: string): int
  {
    if key == "tweet.fields" then 0 else if key == "expansions" then 1 else 2
  }

  /** Present parameters always come in the fixed order `tweet.fields`,
      `expansions`, `place.fields`, and there are no others. */
  lemma QueryParamsOrdered(
    twitterFields: seq<TwitterStreamField>,
    expansions: seq<TwitterStreamExpansion>,
    placeFields: seq<TwitterStreamPlaceField>
  )
    ensures var q := QueryParams(twitterFields, expansions, placeFields);
      && |q| <= 3
      && (forall i | 0 <= i < |q| :: q[i].0 in {"tweet.fields", "expansions", "place.fields"})
      && (forall i, j | 0 <= i < j < |q| :: ParamRank(q[i].0) < ParamRank(q[j].0))
  {
    QueryParamsShape(twitterFields, expansions, placeFields);
  }

  /** Each present parameter as `key=value`, with the values joined by the
      encoded comma `%2C` and otherwise unchanged. */
  function PlainPieces(candidates: seq<(string, seq<string>)>): seq<string>
  {
    if candidates == [] then []
    else if candidates[0].1 == [] then PlainPieces(candidates[1..])
    else [candidates[0].0 + "=" + Join(candidates[0].1, "%2C")] + PlainPieces(candidates[1..])
  }

  predicate SafeCandidates(candidates: seq<(string, seq<string>)>) {
    forall i | 0 <= i < |candidates| ::
      SafeText(candidates[i].0) && forall k | 0 <= k < |candidates[i].1| :: SafeText(candidates[i].1[k])
  }

  lemma {:induction false} EncodePresent(candidates: seq<(string, seq<string>)>)
    requires SafeCandidates(candidates)
    ensures EncodePairs(Present(candidates)) == PlainPieces(candidates)
  {
    if candidates != [] {
      assert SafeCandidates(candidates[1..]) by {
        forall i | 0 <= i < |candidates[1..]|
          ensures SafeText(candidates[1..][i].0)
          ensures forall k | 0 <= k < |candidates[1..][i].1| :: SafeText(candidates[1..][i].1[k])
        {
          assert candidates[1..][i] == candidates[i + 1];
        }
      }
      EncodePresent(candidates[1..]);
      if candidates[0].1 != [] {
        QuotePlusSafe(candidates[0].0);
        QuotePlusCommaJoin(candidates[0].1);
        var p := (candidates[0].0, Join(candidates[0].1, ","));
        var rest := Present(candidates[1..]);
        assert EncodePairs([p] + rest) == [EncodePair(p)] + EncodePairs(rest) by {
          assert ([p] + rest)[1..] == rest;
        }
      }
    }
  }

  lemma CandidatesSafe(
    twitterFields: seq<TwitterStreamField>,
    expansions: seq<TwitterStreamExpansion>,
    placeFields: seq<TwitterStreamPlaceField>
  )
    ensures SafeCandidates(CandidateParams(twitterFields, expansions, placeFields))
  {
    var c := CandidateParams(twitterFields, expansions, placeFields);
    forall k | 0 <= k < |twitterFields| ensures SafeText(c[0].1[k]) {
      FieldValueSafe(twitterFields[k]);
    }
    forall k | 0 <= k < |expansions| ensures SafeText(c[1].1[k]) {
      ExpansionValueSafe(expansions[k]);
    }
    forall k | 0 <= k < |placeFields| ensures SafeText(c[2].1[k]) {
      PlaceFieldValueSafe(placeFields[k]);
    }
  }

  /** Form encoding changes only the `,` separators: every enum value and every
      parameter name is made of letters, digits, `.` and `_`. */
  lemma QueryParamsEncoding(
    twitterFields: seq<TwitterStreamField>,
    expansions: seq<TwitterStreamExpansion>,
    placeFields: seq<TwitterStreamPlaceField>
  )
    ensures UrlEncode(QueryParams(twitterFields, expansions, placeFields)) ==
      Join(PlainPieces(CandidateParams(twitterFields, expansions, placeFields)), "&")
  {
    CandidatesSafe(twitterFields, expansions, placeFields);
    EncodePresent(CandidateParams(twitterFields, expansions, placeFields));
  }

  /** A pair of always-safe strings is serialized unchanged. */
  lemma EncodeSafePair(key: string, value: string)
    requires SafeText(key) && SafeText(value)
    ensures EncodePair((key, value)) == key + "=" + value
  {
    QuotePlusSafe(key);
    QuotePlusSafe(value);
  }

  lemma UrlEncodeOne(p: (string, string))
    ensures UrlEncode([p]) == EncodePair(p)
  {
    assert EncodePairs([p]) == [EncodePair(p)];
  }

  lemma UrlEncodeThree(p1: (string, string), p2: (string, string), p3: (string, string))
    ensures UrlEncode([p1, p2, p3]) == EncodePair(p1) + "&" + EncodePair(p2) + "&" + EncodePair(p3)
  {
    var e := EncodePairs([p1, p2, p3]);
    assert e == [EncodePair(p1), EncodePair(p2), EncodePair(p3)];
    assert e[1..] == [EncodePair(p2), EncodePair(p3)];
    assert e[1..][1..] == [EncodePair(p3)];
    assert Join(e[1..], "&") == EncodePair(p2) + "&" + EncodePair(p3);
    assert Join(e, "&") == EncodePair(p1) + "&" + (EncodePair(p2) + "&" + EncodePair(p3));
  }

  lemma SingleExpansionParams(e: TwitterStreamExpansion)
    ensures QueryParams([], [e], []) == [("expansions", e.Value())]
  {
    QueryParamsShape([], [e], []);
    assert ExpansionValues([e]) == [e.Value()];
  }

  lemma SafeSinglePair(key: string, value: string)
    requires SafeText(key) && SafeText(value)
    ensures UrlEncode([(key, value)]) == key + "=" + value
  {
    UrlEncodeOne((key, value));
    EncodeSafePair(key, value);
  }

  /** With a single expansion `e` alone the query is `expansions=` followed by
      the value of `e`, unchanged. */
  lemma SingleExpansionQuery(e: TwitterStreamExpansion)
    ensures UrlEncode(QueryParams([], [e], [])) == "expansions" + "=" + e.Value()
  {
    SingleExpansionParams(e);
    ExpansionValueSafe(e);
    SafeSinglePair("expansions", e.Value());
  }

  lemma PlaceIdParams()
    ensures QueryParams([], [PlaceId], []) == [("expansions", "geo.place_id")]
  {
    SingleExpansionParams(PlaceId);
  }

  lemma PlaceIdPieces()
    ensures UrlEncode(QueryParams([], [PlaceId], [])) == "expansions" + "=" + "geo.place_id"
  {
    PlaceIdParams();
    SafeSinglePair("expansions", "geo.place_id");
  }

  /** `get_url(expansions=[PLACE_ID])` has the query `expansions=geo.place_id`. */
  lemma PlaceIdQuery()
    ensures UrlEncode(QueryParams([], [PlaceId], [])) == "expansions=geo.place_id"
  {
    PlaceIdPieces();
    ExpansionsText();
  }

  /** The whole URL for `expansions=[PLACE_ID]`: the endpoint followed by
      `?expansions=geo.place_id`. */
  method PlaceIdUrl() returns (url: string)
    ensures url == StreamApiEndpoint + "?" + "expansions=geo.place_id"
  {
    url := GetUrl([], [PlaceId], []);
    PlaceIdQuery();
  }

  /** A key and a list of always-safe values joined by `,` are serialized as
      the key, `=`, and the values joined by `%2C`. */
  lemma EncodeSafeListPair(key: string, values: seq<string>)
    requires SafeText(key)
    requires forall i | 0 <= i < |values| :: SafeText(values[i])
    ensures EncodePair((key, Join(values, ","))) == key + "=" + Join(values, "%2C")
  {
    QuotePlusSafe(key);
    QuotePlusCommaJoin(values);
  }

  lemma SafeThreePairs(k1: string, v1: seq<string>, k2: string, v2: seq<string>, k3: string, v3: seq<string>)
    requires SafeText(k1) && SafeText(k2) && SafeText(k3)
    requires forall i | 0 <= i < |v1| :: SafeText(v1[i])
    requires forall i | 0 <= i < |v2| :: SafeText(v2[i])
    requires forall i | 0 <= i < |v3| :: SafeText(v3[i])
    ensures UrlEncode([(k1, Join(v1, ",")), (k2, Join(v2, ",")), (k3, Join(v3, ","))]) ==
      (k1 + "=" + Join(v1, "%2C")) + "&" + (k2 + "=" + Join(v2, "%2C")) + "&" + (k3 + "=" + Join(v3, "%2C"))
  {
    UrlEncodeThree((k1, Join(v1, ",")), (k2, Join(v2, ",")), (k3, Join(v3, ",")));
    EncodeSafeListPair(k1, v1);
    EncodeSafeListPair(k2, v2);
    EncodeSafeListPair(k3, v3);
  }

  lemma ParamNamesSafe()
    ensures SafeText("tweet.fields") && SafeText("expansions") && SafeText("place.fields")
  {
  }

  lemma ValuesSafe(
    twitterFields: seq<TwitterStreamField>,
    expansions: seq<TwitterStreamExpansion>,
    placeFields: seq<TwitterStreamPlaceField>
  )
    ensures forall i | 0 <= i < |twitterFields| :: SafeText(FieldValues(twitterFields)[i])
    ensures forall i | 0 <= i < |expansions| :: SafeText(ExpansionValues(expansions)[i])
    ensures forall i | 0 <= i < |placeFields| :: SafeText(PlaceFieldValues(placeFields)[i])
  {
    forall i | 0 <= i < |twitterFields| ensures SafeText(FieldValues(twitterFields)[i]) {
      FieldValueSafe(twitterFields[i]);
    }
    forall i | 0 <= i < |expansions| ensures SafeText(ExpansionValues(expansions)[i]) {
      ExpansionValueSafe(expansions[i]);
    }
    forall i | 0 <= i < |placeFields| ensures SafeText(PlaceFieldValues(placeFields)[i]) {
      PlaceFieldValueSafe(placeFields[i]);
    }
  }

  /** With all three lists non-empty, the query has all three parameters in the
      fixed order, each list's values joined by the encoded comma `%2C`. */
  lemma FullQuery(
    twitterFields: seq<TwitterStreamField>,
    expansions: seq<TwitterStreamExpansion>,
    placeFields: seq<TwitterStreamPlaceField>
  )
    requires twitterFields != [] && expansions != [] && placeFields != []
    ensures UrlEncode(QueryParams(twitterFields, expansions, placeFields)) ==
      ("tweet.fields" + "=" + Join(FieldValues(twitterFields), "%2C")) + "&" +
      ("expansions" + "=" + Join(ExpansionValues(expansions), "%2C")) + "&" +
      ("place.fields" + "=" + Join(PlaceFieldValues(placeFields), "%2C"))
  {
    var v1, v2, v3 := FieldValues(twitterFields), ExpansionValues(expansions), PlaceFieldValues(placeFields);
    assert QueryParams(twitterFields, expansions, placeFields) ==
      [("tweet.fields", Join(v1, ",")), ("expansions", Join(v2, ",")), ("place.fields", Join(v3, ","))] by {
      QueryParamsShape(twitterFields, expansions, placeFields);
    }
    ParamNamesSafe();
    ValuesSafe(twitterFields, expansions, placeFields);
    SafeThreePairs("tweet.fields", v1, "expansions", v2, "place.fields", v3);
  }

  lemma ProcessValues()
    ensures FieldValues([TwitterStreamField.Geo]) == ["geo"]
    ensures ExpansionValues([PlaceId]) == ["geo.place_id"]
    ensures PlaceFieldValues([TwitterStreamPlaceField.Geo, FullName, PlaceType]) == ["geo", "full_name", "place_type"]
  {
  }

  lemma ProcessJoins()
    ensures Join(["geo"], "%2C") == "geo"
    ensures Join(["geo.place_id"], "%2C") == "geo.place_id"
    ensures Join(["geo", "full_name", "place_type"], "%2C") == "geo" + "%2C" + "full_name" + "%2C" + "place_type"
  {
    var names := ["geo", "full_name", "place_type"];
    assert names[1..] == ["full_name", "place_type"];
    assert names[1..][1..] == ["place_type"];
  }

  lemma ProcessPieces()
    ensures UrlEncode(QueryParams([TwitterStreamField.Geo], [PlaceId],
                                  [TwitterStreamPlaceField.Geo, FullName, PlaceType])) ==
      ("tweet.fields" + "=" + "geo") + "&" + ("expansions" + "=" + "geo.place_id") + "&" +
      ("place.fields" + "=" + ("geo" + "%2C" + "full_name" + "%2C" + "place_type"))
  {
    FullQuery([TwitterStreamField.Geo], [PlaceId], [TwitterStreamPlaceField.Geo, FullName, PlaceType]);
    ProcessValues();
    ProcessJoins();
  }

  // ---------------------------------------------------------------------
  // Equalities between string literals. They model nothing: each states one
  // concatenation of literals in its own small proof, so that the lemmas
  // about the concrete queries above stay cheap for the verifier.

  lemma TweetFieldsText()
    ensures "tweet.fields" + "=" + "geo" == "tweet.fields=geo"
  {
  }

  lemma ExpansionsText()
    ensures "expansions" + "=" + "geo.place_id" == "expansions=geo.place_id"
  {
  }

  lemma PlaceValuesText()
    ensures "geo" + "%2C" + "full_name" + "%2C" + "place_type" == "geo%2Cfull_name%2Cplace_type"
  {
  }

  lemma PlaceFieldsText()
    ensures "place.fields" + "=" + "geo%2Cfull_name%2Cplace_type" == "place.fields=geo%2Cfull_name%2Cplace_type"
  {
  }

  lemma ProcessText()
    ensures ("tweet.fields" + "=" + "geo") + "&" + ("expansions" + "=" + "geo.place_id") + "&" +
      ("place.fields" + "=" + ("geo" + "%2C" + "full_name" + "%2C" + "place_type")) ==
      "tweet.fields=geo" + "&" + "expansions=geo.place_id" + "&" + "place.fields=geo%2Cfull_name%2Cplace_type"
  {
    TweetFieldsText();
    ExpansionsText();
    PlaceValuesText();
    PlaceFieldsText();
  }

  /** The query of the request the stream processor sends: only the commas
      between the three place fields are encoded. */
  lemma ProcessQuery()
    ensures UrlEncode(QueryParams([TwitterStreamField.Geo], [PlaceId],
                                  [TwitterStreamPlaceField.Geo, FullName, PlaceType])) ==
      "tweet.fields=geo" + "&" + "expansions=geo.place_id" + "&" + "place.fields=geo%2Cfull_name%2Cplace_type"
  {
    ProcessPieces();
    ProcessText();
  }
}
