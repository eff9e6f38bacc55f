/** The circuit breaker of one server as a function of everything it was told. */
module BreakerModel {

  const MAX_FAILURES := 5
  const COOLDOWN := 30.0 // seconds
  const MAX_PROBES := 1

  datatype State = Closed | Open | HalfOpen

  datatype Circuit = Circuit(state: State, failures: int, probes: int, openedAt: real)

  /** A request asking to proceed, and the two ways a call is reported back. */
  datatype Event = Asked(now: real) | Succeeded | Failed(now: real)

  function Initial(openedAt: real): Circuit { Circuit(Closed, 0, 0, openedAt) }

  predicate CooledDown(c: Circuit, now: real) { now - c.openedAt > COOLDOWN }

  predicate Opens(c: Circuit) { c.state == HalfOpen || (c.failures + 1 >= MAX_FAILURES && c.state == Closed) }

  function Next(c: Circuit, e: Event): Circuit {
    match e
    case Asked(now) =>
      if c.state == Open && CooledDown(c, now) then c.(state := HalfOpen, probes := 0)
      else if c.state == HalfOpen && c.probes < MAX_PROBES then c.(probes := c.probes + 1)
      else c
    case Succeeded => c.(failures := 0, state := Closed)
    case Failed(now) =>
      if Opens(c) then c.(failures := c.failures + 1, state := Open, openedAt := now)
      else c.(failures := c.failures + 1)
  }

  /** Whether a request may proceed. */
  predicate Grants(c: Circuit, now: real) {
    match c.state
    case Closed => true
    case Open => CooledDown(c, now)
    case HalfOpen => c.probes < MAX_PROBES
  }

  function Run(c: Circuit, h: seq<Event>): Circuit
    decreases |h|
  {
    if h == [] then c else Next(Run(c, h[..|h| - 1]), h[|h| - 1])
  }

  // ---- closed is a matter of the last five reports ----

  /** The failures reported since the last reported success. */
  function FailuresSinceSuccess(h: seq<Event>): nat {
    if h == [] || h[|h| - 1] == Succeeded then 0
    else FailuresSinceSuccess(h[..|h| - 1]) + (if h[|h| - 1].Failed? then 1 else 0)
  }

  /** Over every run: closed exactly while fewer than five failures follow the last success. */
  lemma {:induction false} ClosedMeansFewFailures(h: seq<Event>, t0: real)
    ensures var c := Run(Initial(t0), h);
      && c.failures == FailuresSinceSuccess(h)
      && (c.state == Closed <==> FailuresSinceSuccess(h) < MAX_FAILURES)
      && 0 <= c.probes <= MAX_PROBES
  {
    if h != [] { ClosedMeansFewFailures(h[..|h| - 1], t0); }
  }

  /** When the circuit last went into open. */
  function LastOpened(h: seq<Event>, t0: real): real {
    if h == [] then t0
    else
      var g, e := h[..|h| - 1], h[|h| - 1];
      if e.Failed? && Run(Initial(t0), g).state != Open && Run(Initial(t0), h).state == Open then e.now
      else LastOpened(g, t0)
  }

  /** An open circuit remembers the report that opened it, and only a failure opens it. */
  lemma {:induction false} OpenedByAFailure(h: seq<Event>, t0: real)
    ensures Run(Initial(t0), h).openedAt == LastOpened(h, t0)
    ensures h != [] && Run(Initial(t0), h[..|h| - 1]).state != Open && Run(Initial(t0), h).state == Open ==>
      h[|h| - 1].Failed?
  {
    if h != [] { OpenedByAFailure(h[..|h| - 1], t0); }
  }

  /** Over every run, an open circuit lets a request through exactly if it comes more than 30 seconds after the failure that opened it. */
  lemma OpenGrantsExactlyIf(h: seq<Event>, now: real, t0: real)
    requires Run(Initial(t0), h).state == Open
    ensures Grants(Run(Initial(t0), h), now) <==> now > LastOpened(h, t0) + 30.0
    ensures Grants(Run(Initial(t0), h), now) <==> Next(Run(Initial(t0), h), Asked(now)).state == HalfOpen
  {
    OpenedByAFailure(h, t0);
  }

  /** Over every run, the report that opens the circuit is a half-open failure or the fifth in a row. */
  lemma OpensExactlyOnTheMove(h: seq<Event>, now: real, t0: real)
    ensures var c := Run(Initial(t0), h);
      && (Opens(c) <==> c.state != Open && Next(c, Failed(now)).state == Open)
      && (Opens(c) <==> c.state == HalfOpen || (FailuresSinceSuccess(h + [Failed(now)]) == MAX_FAILURES && c.state != Open))
  {
    ClosedMeansFewFailures(h, t0);
    assert (h + [Failed(now)])[..|h|] == h;
  }

  // ---- how many requests get through while nobody reports ----

  /** Requests one after the other, with no report in between. */
  function Asks(times: seq<real>): seq<Event> { seq(|times|, i requires 0 <= i < |times| => Asked(times[i])) }

  predicate Sorted(times: seq<real>) { forall i, j :: 0 <= i < j < |times| ==> times[i] <= times[j] }

  /** How many of these requests get through. */
  function Granted(c: Circuit, times: seq<real>): nat
    decreases |times|
  {
    if times == [] then 0
    else (if Grants(c, times[0]) then 1 else 0) + Granted(Next(c, Asked(times[0])), times[1..])
  }

  /** The requests that come after the cooldown. */
  function Late(c: Circuit, times: seq<real>): nat {
    if times == [] then 0 else (if CooledDown(c, times[0]) then 1 else 0) + Late(c, times[1..])
  }

  function Min(a: int, b: int): int { if a < b then a else b }

  /** All of them if closed; the rest of the probes if half-open; if open, one probe more than the cap. */
  function Quota(c: Circuit, times: seq<real>): int {
    match c.state
    case Closed => |times|
    case HalfOpen => Min(MAX_PROBES - c.probes, |times|)
    case Open => Min(1 + MAX_PROBES, Late(c, times))
  }

  lemma {:induction false} AllLate(c: Circuit, times: seq<real>)
    requires Sorted(times) && (times != [] ==> CooledDown(c, times[0]))
    ensures Late(c, times) == |times|
  {
    if times != [] {
      assert times[1..] != [] ==> times[1..][0] == times[1];
      AllLate(c, times[1..]);
    }
  }

  /**
    The exact number of requests let through between two reports. An episode that starts open
    grants 1 + MAX_PROBES requests, since the move to half-open does not count as a probe.
  */
  lemma {:induction false} GrantedIsQuota(h: seq<Event>, times: seq<real>, t0: real)
    requires Sorted(times)
    ensures Granted(Run(Initial(t0), h), times) == Quota(Run(Initial(t0), h), times)
    decreases |times|
  {
    ClosedMeansFewFailures(h, t0);
    if times != [] {
      var g := h + [Asked(times[0])];
      assert g[..|h|] == h;
      GrantedIsQuota(g, times[1..], t0);
      if CooledDown(Run(Initial(t0), h), times[0]) { AllLate(Run(Initial(t0), h), times); }
    }
  }

  predicate Spent(c: Circuit) { c.state == HalfOpen && c.probes >= MAX_PROBES }

  /** Once its probes are spent a half-open circuit refuses every request, however late, and stays as it is. */
  lemma {:induction false} SpentUntilReported(c: Circuit, times: seq<real>)
    requires Spent(c)
    ensures Granted(c, times) == 0 && Run(c, Asks(times)) == c
    decreases |times|
  {
    SpentRun(c, times);
    if times != [] { SpentUntilReported(c, times[1..]); }
  }

  lemma {:induction false} SpentRun(c: Circuit, times: seq<real>)
    requires Spent(c)
    ensures Run(c, Asks(times)) == c
  {
    if times != [] {
      var n := |times| - 1;
      SpentRun(c, times[..n]);
      assert Asks(times)[..n] == Asks(times[..n]);
    }
  }

  /** Enough requests to spend the probes: the remaining ones while half-open, or one more than the cap after the cooldown. */
  predicate SpendsProbes(c: Circuit, times: seq<real>) {
    match c.state
    case Closed => false
    case HalfOpen => c.probes + |times| >= MAX_PROBES
    case Open => Late(c, times) >= 1 + MAX_PROBES
  }

  lemma SpendsStep(c: Circuit, times: seq<real>)
    requires times != [] && Sorted(times) && 0 <= c.probes <= MAX_PROBES
    ensures SpendsProbes(c, times) <==> SpendsProbes(Next(c, Asked(times[0])), times[1..])
  {
    if CooledDown(c, times[0]) { AllLate(c, times); }
  }

  /** Requests that nobody reports spend the probes exactly if they are enough. */
  lemma {:induction false} SpentExactlyIf(h: seq<Event>, times: seq<real>, t0: real)
    requires Sorted(times)
    ensures Spent(Run(Initial(t0), h + Asks(times))) <==> SpendsProbes(Run(Initial(t0), h), times)
    decreases |times|
  {
    var c := Run(Initial(t0), h);
    ClosedMeansFewFailures(h, t0);
    if times == [] {
      assert h + Asks(times) == h;
    } else {
      var g := h + [Asked(times[0])];
      assert g[..|h|] == h;
      assert Run(Initial(t0), g) == Next(c, Asked(times[0]));
      hide SpendsProbes, Run, Next, Spent;
      SpendsStep(c, times);
      SpentExactlyIf(g, times[1..], t0);
      assert g + Asks(times[1..]) == h + Asks(times);
    }
  }
}
