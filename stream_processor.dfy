/** `TwitterStreamProcessor`: reads the sampled tweet stream line by line,
    counts the non-empty lines (each one is a tweet document), and closes the
    stream once more tweets than the requested maximum have arrived. The
    streaming HTTP client is an object holding the lines the server sends;
    the JSON parser is a parameter telling which lines parse. */
module StreamProcessor {
  import opened Wrappers
  import opened Errors
  import opened FormEncoding
  import opened TwitterEnums
  import opened TwitterUrlBuilder

  /** One line of the response body, as bytes; the empty line is a keep-alive. */
  type Line = seq<byte>

  /** A `get` call as the client received it. */
  datatype Request = Request(url: string, headers: map<string, string>)

  /** The streaming HTTP client seen through its interface: `get` opens the
      stream and hands back an iterator over its lines, `close` closes it.
      Every `get` serves `lines` from the start; the iterator's position is
      `cursor`. */
  class StreamClient {
    const lines: seq<Line>
    var cursor: nat
    var requests: seq<Request>
    var closeCalls: nat

    ghost predicate Valid()
      reads this
    {
      cursor <= |lines|
    }

    constructor (lines: seq<Line>)
      ensures Valid()
      ensures this.lines == lines && cursor == 0 && requests == [] && closeCalls == 0
    {
      this.lines := lines;
      cursor := 0;
      requests := [];
      closeCalls := 0;
    }

    /** `get(url, headers)`: records the request and restarts the iterator. */
    method Get(url: string, headers: map<string, string>)
      modifies this
      ensures Valid()
      ensures requests == old(requests) + [Request(url, headers)]
      ensures cursor == 0 && closeCalls == old(closeCalls)
    {
      requests := requests + [Request(url, headers)];
      cursor := 0;
    }

    /** One step of the iterator: the next line, or `None` at the end. */
    method Next() returns (element: Option<Line>)
      requires Valid()
      modifies this
      ensures Valid()
      ensures old(cursor) < |lines| ==> element == Some(lines[old(cursor)]) && cursor == old(cursor) + 1
      ensures old(cursor) == |lines| ==> element == None && cursor == old(cursor)
      ensures requests == old(requests) && closeCalls == old(closeCalls)
    {
      if cursor < |lines| {
        element := Some(lines[cursor]);
        cursor := cursor + 1;
      } else {
        element := None;
      }
    }

    /** `close()`: counted, so that how often the stream is closed can be
        stated. */
    method Close()
      modifies this
      ensures closeCalls == old(closeCalls) + 1
      ensures cursor == old(cursor) && requests == old(requests)
    {
      closeCalls := closeCalls + 1;
    }
  }

  // ---------------------------------------------------------------------
  // The loop of `process`, as a function of the counter and the lines.

  /** Why a run of the loop ended: the stream ran out, the cap was exceeded
      and the stream closed, or a line did not parse. */
  datatype Halt = Exhausted | Closed | ParseFailed

  /** The counter after the run, how many lines the run took from the stream,
      and why it ended. */
  datatype Run = Run(received: nat, consumed: nat, halt: Halt)

  /** Python truthiness of the optional maximum: `None` and `0` disable it. */
  predicate Truthy(n: Option<int>) {
    n.Some? && n.value != 0
  }

  /** The loop's exit test, `n and received_items > n`. */
  predicate Exceeds(n: Option<int>, received: int) {
    Truthy(n) && received > n.value
  }

  /** The loop of `process` from line `i` on, with the counter at `received`:
      a non-empty line is counted and then parsed; after every line, empty or
      not, the cap is tested. */
  function RunAt(received: nat, lines: seq<Line>, i: nat, n: Option<int>, parses: Line -> bool): (r: Run)
    requires i <= |lines|
    decreases |lines| - i
    ensures i <= r.consumed <= |lines|
    ensures received <= r.received
    ensures r.halt == Exhausted ==> r.consumed == |lines|
    ensures r.halt != Exhausted ==> i < r.consumed
  {
    if i == |lines| then Run(received, i, Exhausted)
    else
      var count := if lines[i] != [] then received + 1 else received;
      if lines[i] != [] && !parses(lines[i]) then Run(count, i + 1, ParseFailed)
      else if Exceeds(n, count) then Run(count, i + 1, Closed)
      else RunAt(count, lines, i + 1, n, parses)
  }

  /** The number of non-empty lines in `s`. */
  function NonEmptyCount(s: seq<Line>): (c: nat)
    ensures c <= |s|
  {
    if s == [] then 0
    else (if s[0] != [] then 1 else 0) + NonEmptyCount(s[1..])
  }

  /** Every non-empty line of `s` parses. */
  predicate AllParse(s: seq<Line>, parses: Line -> bool) {
    forall k | 0 <= k < |s| :: s[k] != [] ==> parses(s[k])
  }

  /** The counter that the loop holds after line `k` (exclusive) when it
      started at line `i` with `received`. */
  function CountAfter(received: nat, lines: seq<Line>, i: nat, k: nat): nat
    requires i <= k <= |lines|
  {
    received + NonEmptyCount(lines[i..k])
  }

  /** Moving the start of a count one line on moves that line into the
      counter. */
  lemma CountStep(received: nat, lines: seq<Line>, i: nat, k: nat)
    requires i < k <= |lines|
    ensures CountAfter(received, lines, i, k) ==
            CountAfter(if lines[i] != [] then received + 1 else received, lines, i + 1, k)
  {
    assert lines[i..k][0] == lines[i];
    assert lines[i..k][1..] == lines[i + 1..k];
  }

  /** The counter goes up exactly once per non-empty line the loop takes, and
      never for an empty one. */
  lemma {:induction false} RunCounts(received: nat, lines: seq<Line>, i: nat, n: Option<int>, parses: Line -> bool)
    requires i <= |lines|
    decreases |lines| - i
    ensures RunAt(received, lines, i, n, parses).received ==
            CountAfter(received, lines, i, RunAt(received, lines, i, n, parses).consumed)
  {
    var r := RunAt(received, lines, i, n, parses);
    if i == |lines| {
      assert lines[i..i] == [];
    } else {
      var count := if lines[i] != [] then received + 1 else received;
      CountStep(received, lines, i, r.consumed);
      if lines[i] != [] && !parses(lines[i]) {
        assert lines[i + 1..i + 1] == [];
      } else if Exceeds(n, count) {
        assert lines[i + 1..i + 1] == [];
      } else {
        RunCounts(count, lines, i + 1, n, parses);
      }
    }
  }

  /** Every non-empty line the run took parsed, except the last one of a run
      that ended on a parse failure. */
  lemma {:induction false} RunParses(received: nat, lines: seq<Line>, i: nat, n: Option<int>, parses: Line -> bool)
    requires i <= |lines|
    decreases |lines| - i
    ensures var r := RunAt(received, lines, i, n, parses);
      (r.halt != ParseFailed ==> AllParse(lines[i..r.consumed], parses)) &&
      (r.halt == ParseFailed ==>
        AllParse(lines[i..r.consumed - 1], parses) &&
        lines[r.consumed - 1] != [] && !parses(lines[r.consumed - 1]))
  {
    if i < |lines| {
      var count := if lines[i] != [] then received + 1 else received;
      if !(lines[i] != [] && !parses(lines[i])) && !Exceeds(n, count) {
        RunParses(count, lines, i + 1, n, parses);
        var r := RunAt(count, lines, i + 1, n, parses);
        var e := if r.halt != ParseFailed then r.consumed else r.consumed - 1;
        AllParseCons(lines, i, e, parses);
      }
    }
  }

  /** A line that parses (or is empty) in front of lines that all parse. */
  lemma AllParseCons(lines: seq<Line>, i: nat, e: nat, parses: Line -> bool)
    requires i < e <= |lines|
    requires lines[i] == [] || parses(lines[i])
    requires AllParse(lines[i + 1..e], parses)
    ensures AllParse(lines[i..e], parses)
  {
    forall k | 0 <= k < e - i
      ensures lines[i..e][k] != [] ==> parses(lines[i..e][k])
    {
      if k == 0 {
        assert lines[i..e][k] == lines[i];
      } else {
        assert lines[i..e][k] == lines[i + 1..e][k - 1];
      }
    }
  }

  /** A stream whose non-empty lines all parse never ends the run on a parse
      failure. */
  lemma NoParseFailure(received: nat, lines: seq<Line>, i: nat, n: Option<int>, parses: Line -> bool)
    requires i <= |lines|
    requires AllParse(lines[i..], parses)
    ensures RunAt(received, lines, i, n, parses).halt != ParseFailed
  {
    RunParses(received, lines, i, n, parses);
  }

  /** The cap is tested after every line and the run stops at the first test
      that succeeds: no earlier test succeeded, a closed run ends on one that
      did, and an exhausted run saw none succeed. */
  lemma {:induction false} RunChecks(received: nat, lines: seq<Line>, i: nat, n: Option<int>, parses: Line -> bool)
    requires i <= |lines|
    decreases |lines| - i
    ensures var r := RunAt(received, lines, i, n, parses);
      (forall k | i < k < r.consumed :: !Exceeds(n, CountAfter(received, lines, i, k))) &&
      (r.halt == Closed ==> Exceeds(n, CountAfter(received, lines, i, r.consumed))) &&
      (r.halt == Exhausted ==> forall k | i < k <= |lines| :: !Exceeds(n, CountAfter(received, lines, i, k)))
  {
    if i < |lines| {
      var count := if lines[i] != [] then received + 1 else received;
      CountStep(received, lines, i, i + 1);
      assert lines[i + 1..i + 1] == [];
      if !(lines[i] != [] && !parses(lines[i])) && !Exceeds(n, count) {
        RunChecks(count, lines, i + 1, n, parses);
        forall k | i + 1 < k <= |lines|
          ensures CountAfter(received, lines, i, k) == CountAfter(count, lines, i + 1, k)
        {
          CountStep(received, lines, i, k);
        }
      }
    }
  }

  /** When every non-empty line parses, the stream is closed exactly when,
      after some line, the counter exceeds a truthy `n`; it is closed after
      the first such line, and otherwise every line is taken. */
  lemma ClosedIffExceeded(received: nat, lines: seq<Line>, i: nat, n: Option<int>, parses: Line -> bool)
    requires i <= |lines|
    requires AllParse(lines[i..], parses)
    ensures var r := RunAt(received, lines, i, n, parses);
      (r.halt == Closed <==> exists k | i < k <= |lines| :: Exceeds(n, CountAfter(received, lines, i, k))) &&
      (r.halt == Closed ==>
        Exceeds(n, CountAfter(received, lines, i, r.consumed)) &&
        forall k | i < k < r.consumed :: !Exceeds(n, CountAfter(received, lines, i, k))) &&
      (r.halt != Closed ==> r.halt == Exhausted && r.consumed == |lines|)
  {
    NoParseFailure(received, lines, i, n, parses);
    RunChecks(received, lines, i, n, parses);
  }

  /** With `n` `None` or `0` the stream is never closed: the run takes every
      line unless one fails to parse. */
  lemma {:induction false} NoCapNeverCloses(received: nat, lines: seq<Line>, i: nat, n: Option<int>, parses: Line -> bool)
    requires i <= |lines|
    requires !Truthy(n)
    decreases |lines| - i
    ensures RunAt(received, lines, i, n, parses).halt != Closed
    ensures AllParse(lines[i..], parses) ==>
      RunAt(received, lines, i, n, parses) == Run(received + NonEmptyCount(lines[i..]), |lines|, Exhausted)
  {
    if i < |lines| {
      var count := if lines[i] != [] then received + 1 else received;
      if !(lines[i] != [] && !parses(lines[i])) {
        NoCapNeverCloses(count, lines, i + 1, n, parses);
      }
    }
    if AllParse(lines[i..], parses) {
      NoParseFailure(received, lines, i, n, parses);
      RunCounts(received, lines, i, n, parses);
    }
  }

  /** Starting at or below a truthy `n`, a run that closes the stream has
      counted exactly `n + 1` items, and the line it closed on was a tweet. */
  lemma {:induction false} ClosesAtNPlusOne(received: nat, lines: seq<Line>, i: nat, n: Option<int>, parses: Line -> bool)
    requires i <= |lines|
    requires Truthy(n) && received <= n.value
    requires RunAt(received, lines, i, n, parses).halt == Closed
    decreases |lines| - i
    ensures RunAt(received, lines, i, n, parses).received == n.value + 1
    ensures lines[RunAt(received, lines, i, n, parses).consumed - 1] != []
  {
    var count := if lines[i] != [] then received + 1 else received;
    if !(lines[i] != [] && !parses(lines[i])) && !Exceeds(n, count) {
      ClosesAtNPlusOne(count, lines, i + 1, n, parses);
    }
  }

  /** Starting at or below a truthy `n`, a stream holding more than `n`
      further tweets, all of which parse, is closed with exactly `n + 1`
      counted. */
  lemma ReadsNPlusOne(received: nat, lines: seq<Line>, i: nat, n: Option<int>, parses: Line -> bool)
    requires i <= |lines|
    requires Truthy(n) && received <= n.value
    requires AllParse(lines[i..], parses)
    requires CountAfter(received, lines, i, |lines|) > n.value
    ensures RunAt(received, lines, i, n, parses).halt == Closed
    ensures RunAt(received, lines, i, n, parses).received == n.value + 1
  {
    ClosedIffExceeded(received, lines, i, n, parses);
    ClosesAtNPlusOne(received, lines, i, n, parses);
  }

  /** A counter already above a truthy `n` (left by an earlier call, or any
      counter when `n` is negative) closes the stream after its first line. */
  lemma AlreadyExceeded(received: nat, lines: seq<Line>, i: nat, n: Option<int>, parses: Line -> bool)
    requires i < |lines|
    requires Exceeds(n, received)
    requires lines[i] == [] || parses(lines[i])
    ensures RunAt(received, lines, i, n, parses) == Run(if lines[i] != [] then received + 1 else received, i + 1, Closed)
  {
  }

  /** Two calls of `process` over the same stream with the same `n`: when the
      first call closed the stream, whatever counter it started from, the
      second call starts from the counter the first left above `n`, and so
      closes again after its first line. */
  lemma SecondRunClosesAtOnce(start: nat, lines: seq<Line>, n: Option<int>, parses: Line -> bool)
    requires RunAt(start, lines, 0, n, parses).halt == Closed
    ensures var first := RunAt(start, lines, 0, n, parses);
      RunAt(first.received, lines, 0, n, parses) ==
      Run(if lines[0] != [] then first.received + 1 else first.received, 1, Closed)
  {
    var r := RunAt(start, lines, 0, n, parses);
    RunChecks(start, lines, 0, n, parses);
    RunCounts(start, lines, 0, n, parses);
    RunParses(start, lines, 0, n, parses);
    assert lines[0..r.consumed][0] == lines[0];
    AlreadyExceeded(r.received, lines, 0, n, parses);
  }

  // ---------------------------------------------------------------------
  // The processor.

  class TwitterStreamProcessor {
    const client: StreamClient
    var receivedItems: nat

    /** `__init__(client)`: the counter starts at zero. */
    constructor (client: StreamClient)
      ensures this.client == client && receivedItems == 0
    {
      this.client := client;
      receivedItems := 0;
    }

    /** `process(n)`: the URL is built first, then the headers (which raise
        when the token is missing, before any request); then the stream is
        read as `RunAt` describes, from the counter left by earlier calls. */
    method Process(n: Option<int>, env: Environment, parses: Line -> bool) returns (outcome: Completion)
      requires client.Valid()
      modifies this, client
      ensures client.Valid()
      ensures GetHeaders(env).Failure? ==>
        outcome == Raised(ValueError(BearerTokenNotFound)) &&
        receivedItems == old(receivedItems) &&
        client.requests == old(client.requests) && client.cursor == old(client.cursor) &&
        client.closeCalls == old(client.closeCalls)
      ensures GetHeaders(env).Success? ==>
        var run := RunAt(old(receivedItems), client.lines, 0, n, parses);
        client.requests == old(client.requests) + [Request(SampleStreamUrl, GetHeaders(env).value)] &&
        receivedItems == run.received &&
        client.cursor == run.consumed &&
        client.closeCalls == old(client.closeCalls) + (if run.halt == Closed then 1 else 0) &&
        outcome == (if run.halt == ParseFailed then Raised(JsonDecodeError) else Returned)
    {
      var url := RequestUrl();
      var headers := GetHeaders(env);
      if headers.Failure? {
        return Raised(headers.error);
      }
      client.Get(url, headers.value);
      ghost var start := receivedItems;
      while true
        invariant client.Valid()
        invariant client.requests == old(client.requests) + [Request(SampleStreamUrl, headers.value)]
        invariant client.closeCalls == old(client.closeCalls)
        invariant RunAt(start, client.lines, 0, n, parses) == RunAt(receivedItems, client.lines, client.cursor, n, parses)
        decreases |client.lines| - client.cursor
      {
        var element := client.Next();
        if element.None? {
          return Returned;
        }
        var line := element.value;
        if line != [] {
          receivedItems := receivedItems + 1;
          if !parses(line) {
            return Raised(JsonDecodeError);
          }
        }
        if Exceeds(n, receivedItems) {
          client.Close();
          return Returned;
        }
      }
    }
  }

  /** The URL `process` requests: the sampled-stream endpoint asking for the
      tweet's `geo`, the `geo.place_id` expansion and the place's `geo`,
      `full_name` and `place_type`. */
  const SampleStreamUrl: string :=
    StreamApiEndpoint + "?" + ("tweet.fields=geo" + "&" + "expansions=geo.place_id" + "&" + "place.fields=geo%2Cfull_name%2Cplace_type")

  /** The `url=` argument of `process`'s `get` call. */
  method RequestUrl() returns (url: string)
    ensures url == SampleStreamUrl
  {
    url := GetUrl([TwitterStreamField.Geo], [PlaceId], [TwitterStreamPlaceField.Geo, FullName, PlaceType]);
    ProcessQuery();
  }
}
