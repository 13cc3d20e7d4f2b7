/** `WeatherApiUrlBuilder`: the query of a current-weather lookup, built from an
    API key read from the environment and a location. As written, the result
    is the query alone (`?key=...&q=...`): the endpoint constant is declared but
    not prefixed, and neither the key nor the location is encoded. */
module WeatherApiUrlBuilder {
  import opened Wrappers
  import opened Errors

  const EnvironWeatherApiApiName: string := "ENVIRON_WEATHER_API_API_NAME"
  /** Declared by the source; `GetUrl` does not use it. */
  const WeatherApiEndpoint: string := "http://api.weatherapi.com/v1/current.json"
  /** The message the source raises with when the key is missing (it reuses
      the stream builder's wording). */
  const KeyNotFound: string := "Twitter Bearer Token not found"

  /** `get_url(location)`, with `location` already formatted as text. */
  function GetUrl(env: Environment, location: string): (r: Result<string, Error>)
    ensures r.Failure? <==> EnvironWeatherApiApiName !in env || env[EnvironWeatherApiApiName] == ""
    ensures r.Failure? ==> r.error == ValueError(KeyNotFound)
    ensures r.Success? ==> r.value == "?key=" + env[EnvironWeatherApiApiName] + "&q=" + location
    ensures r.Success? ==> |r.value| > 0 && r.value[0] == '?'
  {
    var weatherApiApiKey := EnvGet(env, EnvironWeatherApiApiName);
    if !IsSetAndNonEmpty(weatherApiApiKey) then Failure(ValueError(KeyNotFound))
    else Success("?key=" + weatherApiApiKey.value + "&q=" + location)
  }

  /** A successful lookup yields a query that reads back as the key from the
      environment and the location, whenever the key holds no `&`. */
  lemma GetUrlReadsBack(env: Environment, location: string)
    requires GetUrl(env, location).Success?
    requires '&' !in env[EnvironWeatherApiApiName]
    ensures ParseWeatherQuery(GetUrl(env, location).value) == Some((env[EnvironWeatherApiApiName], location))
  {
    WeatherQueryRoundTrip(env[EnvironWeatherApiApiName], location);
  }

  /** Whatever reads back as a key and a location is exactly
      `?key=<key>&q=<location>`: the two lemmas together pin the result of
      `GetUrl` down to that text. */
  lemma ParseWeatherQueryExact(u: string)
    requires ParseWeatherQuery(u).Some?
    ensures u == "?key=" + ParseWeatherQuery(u).value.0 + "&q=" + ParseWeatherQuery(u).value.1
  {
    var rest := u[5..];
    var i := IndexOf(rest, '&');
    assert rest == rest[..i] + rest[i..i + 3] + rest[i + 3..];
    assert u == u[..5] + rest;
  }

  /** The index of the first `c` in `s`, or `|s|` when there is none. */
  function IndexOf(s: string, c: char): (i: nat)
    ensures i <= |s|
    ensures i < |s| ==> s[i] == c
    ensures forall k | 0 <= k < i :: s[k] != c
  {
    if s == [] then 0
    else if s[0] == c then 0
    else 1 + IndexOf(s[1..], c)
  }

  /** Reads a query of the shape `?key=<key>&q=<location>` back into its key
      and location, cutting at the first `&`. */
  function ParseWeatherQuery(u: string): Option<(string, string)>
  {
    if |u| < 5 || u[..5] != "?key=" then None
    else
      var rest := u[5..];
      var i := IndexOf(rest, '&');
      if |rest| < i + 3 || rest[i..i + 3] != "&q=" then None
      else Some((rest[..i], rest[i + 3..]))
  }

  /** The key and location can be read back from the query as long as the key
      holds no `&`. */
  lemma WeatherQueryRoundTrip(key: string, location: string)
    requires '&' !in key
    ensures ParseWeatherQuery("?key=" + key + "&q=" + location) == Some((key, location))
  {
    var u := "?key=" + key + "&q=" + location;
    var rest := u[5..];
    assert u[..5] == "?key=";
    assert rest == key + "&q=" + location;
    assert rest[|key|] == '&';
    assert IndexOf(rest, '&') == |key|;
    assert rest[|key|..|key| + 3] == "&q=";
    assert rest[..|key|] == key;
    assert rest[|key| + 3..] == location;
  }

  /** A key holding `&` is not read back: the query carries the key without
      encoding it, so a raw `&` in the key ends it early. */
  lemma AmpersandInKeyIsAmbiguous()
    ensures ParseWeatherQuery("?key=" + "a&q=b" + "&q=" + "c") == Some(("a", "b&q=c"))
  {
    var u := "?key=" + "a&q=b" + "&q=" + "c";
    assert u == "?key=a&q=b&q=c";
    var rest := u[5..];
    assert rest == "a&q=b&q=c";
    assert IndexOf(rest, '&') == 1 by {
      assert rest[0] == 'a';
      assert rest[1..][0] == '&';
    }
    assert rest[1..4] == "&q=";
    assert rest[..1] == "a";
    assert rest[4..] == "b&q=c";
  }
}
