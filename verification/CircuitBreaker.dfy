/** The circuit breaker of the search client. Times are milliseconds. */
module CircuitBreaker {

  datatype Option<+T> = None | Some(value: T)

  datatype Config = Config(enabled: bool, hasUrl: bool, failureThreshold: int, cooldownMs: nat)

  datatype Breaker = Breaker(consecutiveFailures: nat, openedUntil: Option<int>)

  const RESET := Breaker(0, None)

  predicate IsOpen(b: Breaker, now: int) {
    b.openedUntil.Some? && b.openedUntil.value > now
  }

  datatype State = Open | HalfOpen | Closed

  function StateOf(c: Config, b: Breaker, now: int): State {
    if IsOpen(b, now) then Open
    else if b.openedUntil.Some? && b.consecutiveFailures >= c.failureThreshold then HalfOpen
    else Closed
  }

  function AfterFailure(c: Config, b: Breaker, now: int): Breaker {
    var failures := b.consecutiveFailures + 1;
    var opens := failures >= c.failureThreshold && !IsOpen(b, now);
    Breaker(failures, if opens then Some(now + c.cooldownMs) else b.openedUntil)
  }

  // ----- what a fetch can come to -----

  /** Reading the body succeeds, is aborted by the timeout, or breaks (also by not being JSON). */
  datatype Body = Readable | Aborts | Breaks

  datatype Fetch = Response(status: int, body: Body) | Aborted | TransportError

  datatype Report = Success | Failure | Neither

  datatype Reply = Json | Empty | NotConfigured | CircuitOpen(until: int) | Unavailable | RequestError(status: int)

  function ReportOf(f: Fetch, allowNotFound: bool): Report {
    match f
    case Response(status, body) =>
      if allowNotFound && status == 404 then Success
      else if status == 204 then Success
      else if !body.Readable? then Failure
      else if 200 <= status < 300 then Success
      else if status >= 500 then Failure
      else Neither
    case _ => Failure
  }

  function ReplyOf(f: Fetch, allowNotFound: bool): Reply {
    match f
    case Response(status, body) =>
      if (allowNotFound && status == 404) || status == 204 then Empty
      else if !body.Readable? then Unavailable
      else if 200 <= status < 300 then Json
      else if status >= 500 then Unavailable
      else RequestError(status)
    case _ => Unavailable
  }

  function Record(c: Config, b: Breaker, r: Report, now: int): Breaker {
    match r
    case Success => RESET
    case Failure => AfterFailure(c, b, now)
    case Neither => b
  }

  /** What other requests report, and when. */
  datatype Note = Note(report: Report, now: int)

  function RecordAll(c: Config, b: Breaker, notes: seq<Note>): Breaker {
    if notes == [] then b
    else Record(c, RecordAll(c, b, notes[..|notes| - 1]), notes[|notes| - 1].report, notes[|notes| - 1].now)
  }

  class ElasticsearchClient {
    const config: Config
    var consecutiveFailures: nat
    var openedUntil: Option<int>

    function View(): Breaker
      reads this
    {
      Breaker(consecutiveFailures, openedUntil)
    }

    constructor (config: Config)
      ensures this.config == config && View() == RESET
    {
      this.config := config;
      consecutiveFailures, openedUntil := 0, None;
    }

    predicate IsCircuitOpen(now: int)
      reads this
    {
      openedUntil.Some? && openedUntil.value > now
    }

    method GetCircuitBreakerState(now: int) returns (state: State)
      ensures state == StateOf(config, View(), now)
    {
      var isOpen := IsCircuitOpen(now);
      var isHalfOpen := openedUntil.Some? && !isOpen && consecutiveFailures >= config.failureThreshold;
      state := if isOpen then Open else if isHalfOpen then HalfOpen else Closed;
    }

    method RecordSuccess()
      modifies this
      ensures View() == RESET
    {
      consecutiveFailures := 0;
      openedUntil := None;
    }

    method RecordFailure(now: int)
      modifies this
      ensures View() == AfterFailure(config, old(View()), now)
    {
      consecutiveFailures := consecutiveFailures + 1;
      if consecutiveFailures >= config.failureThreshold && !IsCircuitOpen(now) {
        openedUntil := Some(now + config.cooldownMs);
      }
    }

    /** Other requests that settle while this one awaits its response. */
    method Await(notes: seq<Note>)
      modifies this
      ensures View() == RecordAll(config, old(View()), notes)
    {
      for i := 0 to |notes|
        invariant View() == RecordAll(config, old(View()), notes[..i])
      {
        assert notes[..i + 1][..i] == notes[..i];
        match notes[i].report {
          case Success => RecordSuccess();
          case Failure => RecordFailure(notes[i].now);
          case Neither =>
        }
      }
      assert notes[..|notes|] == notes;
    }

    /** One request: begun at `start`, answered by `fetch` at `end`, with `notes` from others between. */
    method RequestJson(start: int, end: int, fetch: Fetch, allowNotFound: bool, notes: seq<Note>)
      returns (reply: Reply, fetched: bool)
      modifies this
      ensures fetched <==> config.enabled && config.hasUrl &&
                           (old(openedUntil).Some? ==> old(openedUntil).value <= start)
      ensures !fetched ==> View() == old(View())
      ensures fetched ==>
                View() == Record(config, RecordAll(config, old(View()), notes), ReportOf(fetch, allowNotFound), end) &&
                reply == ReplyOf(fetch, allowNotFound)
      ensures !fetched && config.enabled && config.hasUrl ==> reply == CircuitOpen(old(openedUntil.value))
      ensures !config.enabled || !config.hasUrl ==> reply == NotConfigured
    {
      if !config.enabled || !config.hasUrl {
        return NotConfigured, false;
      }
      if IsCircuitOpen(start) {
        return CircuitOpen(openedUntil.value), false;
      }
      fetched := true;
      Await(notes);
      if fetch.Aborted? || fetch.TransportError? {
        RecordFailure(end);
        return Unavailable, fetched;
      }
      if allowNotFound && fetch.status == 404 {
        RecordSuccess();
        return Empty, fetched;
      }
      if fetch.status < 200 || fetch.status >= 300 {
        if !fetch.body.Readable? {
          RecordFailure(end);
          return Unavailable, fetched;
        }
        if fetch.status >= 500 {
          RecordFailure(end);
          return Unavailable, fetched;
        }
        return RequestError(fetch.status), fetched;
      }
      if fetch.status == 204 {
        RecordSuccess();
        return Empty, fetched;
      }
      if !fetch.body.Readable? {
        RecordFailure(end);
        return Unavailable, fetched;
      }
      RecordSuccess();
      reply := Json;
    }
  }

  /** A failure is a fetch that breaks off or never ends, and, save for a tolerated 404 and a 204, a body
      that cannot be read or a server error; a success is a tolerated 404 or a readable 2xx. Other answers
      say nothing about the service. */
  lemma ReportExactly(f: Fetch, allowNotFound: bool)
    ensures var tolerated := f.Response? && ((allowNotFound && f.status == 404) || f.status == 204);
            var r := ReportOf(f, allowNotFound);
            && (r.Failure? <==> !tolerated && (f.Response? ==> !f.body.Readable? || f.status >= 500))
            && (r.Success? <==> tolerated || (f.Response? && f.body.Readable? && 200 <= f.status < 300))
  {
  }

  /** The caller gets the body exactly from a readable 2xx, nothing from a tolerated 404 or a 204, the status
      exactly when the answer is neither success nor failure, and unavailability exactly from a failure. */
  lemma ReplyExactly(f: Fetch, allowNotFound: bool)
    ensures var tolerated := f.Response? && ((allowNotFound && f.status == 404) || f.status == 204);
            var reply, report := ReplyOf(f, allowNotFound), ReportOf(f, allowNotFound);
            && (reply.Empty? <==> tolerated)
            && (reply.Json? <==> !tolerated && f.Response? && f.body.Readable? && 200 <= f.status < 300)
            && (reply.Unavailable? <==> report.Failure?)
            && (reply.RequestError? <==> report.Neither?)
            && (reply.RequestError? ==> f.Response? && reply.status == f.status)
            && (reply.Empty? || reply.Json? <==> report.Success?)
  {
  }

  /** The breaker is open exactly until its opening time. */
  lemma OpenExactly(c: Config, b: Breaker, now: int)
    ensures StateOf(c, b, now).Open? <==> b.openedUntil.Some? && now < b.openedUntil.value
    ensures StateOf(c, b, now).HalfOpen? <==>
              b.openedUntil.Some? && b.openedUntil.value <= now && c.failureThreshold <= b.consecutiveFailures
  {
  }

  /** Of any two reports, the later one decides: a failure at the threshold reopens a breaker that is not
      open for one more cooldown, any other leaves the opening time, and a success clears it. */
  lemma {:induction false} NotedExactly(c: Config, notes: seq<Note>, n: Note)
    ensures var b, b' := RecordAll(c, RESET, notes), RecordAll(c, RESET, notes + [n]);
            b'.openedUntil ==
              match n.report
              case Success => None
              case Neither => b.openedUntil
              case Failure =>
                if Trailing(notes) + 1 < c.failureThreshold then None
                else if b.openedUntil.Some? && n.now < b.openedUntil.value then b.openedUntil
                else Some(n.now + c.cooldownMs)
  {
    FieldsMeanFailures(c, notes);
    assert (notes + [n])[..|notes|] == notes;
  }

  // ----- what the fields mean -----

  /** Failures reported since the last success. */
  function Trailing(notes: seq<Note>): nat {
    if notes == [] then 0
    else match notes[|notes| - 1].report
      case Success => 0
      case Failure => Trailing(notes[..|notes| - 1]) + 1
      case Neither => Trailing(notes[..|notes| - 1])
  }

  function Max(a: int, b: int): int {
    if a < b then b else a
  }

  /** In every run, however requests overlap, the counter holds the failures since the last success, and
      an opening time is set exactly when these have reached the threshold. */
  lemma {:induction false} FieldsMeanFailures(c: Config, notes: seq<Note>)
    ensures var b := RecordAll(c, RESET, notes);
            b.consecutiveFailures == Trailing(notes) &&
            (b.openedUntil.Some? <==> Trailing(notes) >= Max(1, c.failureThreshold))
  {
    if notes != [] {
      FieldsMeanFailures(c, notes[..|notes| - 1]);
    }
  }

  /** So half-open is simply: opened once, no longer open, and no success since. */
  lemma HalfOpenExactly(c: Config, notes: seq<Note>, now: int)
    ensures StateOf(c, RecordAll(c, RESET, notes), now).HalfOpen? <==>
              Trailing(notes) >= Max(1, c.failureThreshold) && !IsOpen(RecordAll(c, RESET, notes), now)
  {
    FieldsMeanFailures(c, notes);
  }

  /** An opening time is always one cooldown after a failure that came when the breaker was not open and
      was at least the threshold-th in a row: failures while it is open do not prolong it. */
  lemma {:induction false} OpenOnlyAfterFailure(c: Config, notes: seq<Note>) returns (i: nat)
    requires RecordAll(c, RESET, notes).openedUntil.Some?
    ensures i < |notes| && notes[i].report.Failure?
    ensures RecordAll(c, RESET, notes).openedUntil.value == notes[i].now + c.cooldownMs
    ensures Trailing(notes[..i + 1]) >= Max(1, c.failureThreshold)
    ensures !IsOpen(RecordAll(c, RESET, notes[..i]), notes[i].now)
  {
    var n := |notes| - 1;
    var before := RecordAll(c, RESET, notes[..n]);
    FieldsMeanFailures(c, notes);
    if before.openedUntil == RecordAll(c, RESET, notes).openedUntil &&
       !(notes[n].report.Failure? && before.consecutiveFailures + 1 >= c.failureThreshold &&
         !IsOpen(before, notes[n].now))
    {
      i := OpenOnlyAfterFailure(c, notes[..n]);
      assert notes[..n][..i] == notes[..i] && notes[..n][..i + 1] == notes[..i + 1];
    } else {
      i := n;
      assert notes[..n + 1] == notes;
    }
  }

  // ----- an outage -----

  /** A request of an outage: it fails, if it fetches at all. */
  datatype Try = Try(start: int, end: int)

  function Outage(c: Config, tries: seq<Try>): (Breaker, nat) {
    if tries == [] then (RESET, 0)
    else
      var (b, fetches) := Outage(c, tries[..|tries| - 1]);
      var t := tries[|tries| - 1];
      if IsOpen(b, t.start) then (b, fetches) else (AfterFailure(c, b, t.end), fetches + 1)
  }

  ghost predicate OneAfterAnother(tries: seq<Try>) {
    && (forall i :: 0 <= i < |tries| ==> tries[i].start <= tries[i].end)
    && (forall i, j :: 0 <= i < j < |tries| ==> tries[i].end <= tries[j].start)
  }

  /** `fetches` past the threshold take as many cooldowns. */
  ghost predicate Spaced(c: Config, b: Breaker, fetches: nat, elapsed: int, first: int) {
    var k := Max(1, c.failureThreshold);
    && b.consecutiveFailures == fetches
    && (fetches < k ==> b.openedUntil.None?)
    && (fetches >= k ==>
          b.openedUntil.Some? &&
          (fetches - k) * c.cooldownMs <= elapsed &&
          b.openedUntil.value - first >= (fetches - k + 1) * c.cooldownMs)
  }

  lemma {:induction false} OutageSpaced(c: Config, tries: seq<Try>)
    requires tries != [] && OneAfterAnother(tries)
    ensures var (b, fetches) := Outage(c, tries);
            Spaced(c, b, fetches, tries[|tries| - 1].start - tries[0].start, tries[0].start)
  {
    if |tries| > 1 {
      var init := tries[..|tries| - 1];
      OutageSpaced(c, init);
      var (b, fetches) := Outage(c, init);
      FetchSpaced(c, b, fetches, init[|init| - 1].start, tries[0].start, tries[|tries| - 1]);
    } else {
      assert Outage(c, tries[..0]) == (RESET, 0);
    }
  }

  lemma FetchSpaced(c: Config, b: Breaker, fetches: nat, last: int, first: int, t: Try)
    requires Spaced(c, b, fetches, last - first, first) && last <= t.start <= t.end && first <= t.start
    ensures if IsOpen(b, t.start) then Spaced(c, b, fetches, t.start - first, first)
            else Spaced(c, AfterFailure(c, b, t.end), fetches + 1, t.start - first, first)
  {
    var k := Max(1, c.failureThreshold);
    assert (fetches + 1 - k + 1) * c.cooldownMs == (fetches + 1 - k) * c.cooldownMs + c.cooldownMs;
  }

  /** From a reset breaker, failing requests taken one after another over a time T make at most
      threshold + T / cooldown fetches (with a threshold below one acting as one). */
  lemma OutageBound(c: Config, tries: seq<Try>)
    requires tries != [] && OneAfterAnother(tries) && c.cooldownMs >= 1
    ensures Outage(c, tries).1 <=
              Max(1, c.failureThreshold) + (tries[|tries| - 1].start - tries[0].start) / c.cooldownMs
  {
    OutageSpaced(c, tries);
    var n, k := Outage(c, tries).1, Max(1, c.failureThreshold);
    var elapsed := tries[|tries| - 1].start - tries[0].start;
    if n > k {
      DivideBound(n - k, c.cooldownMs, elapsed);
    } else {
      assert elapsed >= 0;
      DivideBound(0, c.cooldownMs, elapsed);
    }
  }

  lemma DivideBound(m: nat, d: nat, x: int)
    requires d >= 1 && m * d <= x
    ensures m <= x / d
  {
    ProductsOrdered(m, x / d + 1, d);
  }

  lemma ProductsOrdered(m: int, n: int, d: nat)
    requires m * d < n * d
    ensures m < n
  {
    var k := m - n;
    assert k * d < 0;
  }
}
