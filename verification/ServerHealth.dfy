/**
  The circuit breaker, the tool cache and the route step of one server put together
  (internal/mcp/aggregator.go): what listings, calls and refreshes do to the circuit, first with
  their moments interleaved in any way, then one after the other. A listing asks the breaker and
  never reports back on that; its fetch, if there is one, asks again.
*/
module ServerHealth {
  import opened BreakerModel
  import opened Results

  // ---- the moments of any number of requests, interleaved ----

  /** The circuit of a server and how many requests that were let through are yet to be reported. */
  datatype Traffic = Traffic(circuit: Circuit, pending: nat)

  /** A listing asks; a fetch or a call asks; one that was let through is reported, or its client has gone away. */
  datatype Moment = ListingAsks(now: real) | RequestAsks(now: real) | IsAnswered | IsRefused(now: real) | GoesAway

  predicate Possible(t: Traffic, m: Moment) { m.ListingAsks? || m.RequestAsks? || t.pending > 0 }

  function Then(t: Traffic, m: Moment): Traffic
    requires Possible(t, m)
  {
    match m
    case ListingAsks(now) => t.(circuit := Next(t.circuit, Asked(now)))
    case RequestAsks(now) =>
      Traffic(Next(t.circuit, Asked(now)), if Grants(t.circuit, now) then t.pending + 1 else t.pending)
    case IsAnswered => Traffic(Next(t.circuit, Succeeded), t.pending - 1)
    case IsRefused(now) => Traffic(Next(t.circuit, Failed(now)), t.pending - 1)
    case GoesAway => t.(pending := t.pending - 1)
  }

  predicate AllPossible(t: Traffic, ms: seq<Moment>)
    decreases |ms|
  {
    ms == [] || (Possible(t, ms[0]) && AllPossible(Then(t, ms[0]), ms[1..]))
  }

  function Thereafter(t: Traffic, ms: seq<Moment>): Traffic
    requires AllPossible(t, ms)
    decreases |ms|
  {
    if ms == [] then t else Thereafter(Then(t, ms[0]), ms[1..])
  }

  /** The probes are spent and nobody is left to report. */
  predicate Lost(t: Traffic) { Spent(t.circuit) && t.pending == 0 }

  /** Nothing is pending, and a listing takes the last probe; or the probes are spent and the last pending request goes away. */
  predicate Loses(t: Traffic, m: Moment) {
    || (m.ListingAsks? && t.circuit.state == HalfOpen && t.circuit.probes < MAX_PROBES && t.pending == 0)
    || (m.GoesAway? && Spent(t.circuit) && t.pending == 1)
  }

  /** Some moment of the run is one that loses the server. */
  predicate LosesSometime(t: Traffic, ms: seq<Moment>)
    requires AllPossible(t, ms)
    decreases |ms|
  {
    ms != [] && (Loses(t, ms[0]) || LosesSometime(Then(t, ms[0]), ms[1..]))
  }

  lemma MomentLosesExactlyIf(t: Traffic, m: Moment)
    requires 0 <= t.circuit.probes <= MAX_PROBES && Possible(t, m)
    ensures 0 <= Then(t, m).circuit.probes <= MAX_PROBES
    ensures Lost(Then(t, m)) <==> Lost(t) || Loses(t, m)
    ensures Lost(t) ==> Then(t, m) == t
  {
  }

  /** Over every interleaving: the server is lost in the end exactly if it was, or some moment lost it. */
  lemma {:induction false} LostExactlyIf(t: Traffic, ms: seq<Moment>)
    requires 0 <= t.circuit.probes <= MAX_PROBES && AllPossible(t, ms)
    ensures Lost(Thereafter(t, ms)) <==> Lost(t) || LosesSometime(t, ms)
    decreases |ms|
  {
    hide Lost, Loses, Then, Possible;
    if ms != [] {
      MomentLosesExactlyIf(t, ms[0]);
      LostExactlyIf(Then(t, ms[0]), ms[1..]);
    }
  }

  /** A lost server lets nothing through any more. */
  lemma {:induction false} LostForGood(t: Traffic, ms: seq<Moment>, now: real)
    requires 0 <= t.circuit.probes <= MAX_PROBES && AllPossible(t, ms) && Lost(t)
    ensures Thereafter(t, ms) == t && !Grants(t.circuit, now)
    decreases |ms|
  {
    if ms != [] {
      MomentLosesExactlyIf(t, ms[0]);
      LostForGood(t, ms[1..], now);
    }
  }

  /** After the cooldown, two listings at once: both ask before either fetches, and no fetch is let through. */
  lemma OverlappingListingsLose(t: Traffic, first: real, second: real, fetch: real)
    requires t.circuit.state == Open && CooledDown(t.circuit, first) && t.pending == 0
    ensures var asked := Then(Then(t, ListingAsks(first)), ListingAsks(second));
      Lost(asked) && Then(asked, RequestAsks(fetch)) == asked
  {
  }

  // ---- requests one after the other ----

  const CACHE_TTL := 60.0 // seconds

  /** The circuit of a server, and when its cached tools were fetched. */
  datatype Health = Health(circuit: Circuit, fetchedAt: Option<real>)

  /** What a request to the upstream came to; one whose client went away is not reported. */
  datatype Outcome = Answered | Refused | Abandoned

  predicate Recent(h: Health, now: real) { h.fetchedAt.Some? && now - h.fetchedAt.value < CACHE_TTL }

  function Reported(c: Circuit, now: real, o: Outcome): Circuit {
    match o
    case Answered => Next(c, Succeeded)
    case Refused => Next(c, Failed(now))
    case Abandoned => c
  }

  function Ask(h: Health, now: real): Health { h.(circuit := Next(h.circuit, Asked(now))) }

  /** A fetch goes through the breaker; only an answer is cached. */
  function FetchTools(h: Health, now: real, o: Outcome): Health {
    var asked := Ask(h, now);
    if !Grants(h.circuit, now) then asked
    else Health(Reported(asked.circuit, now, o), if o == Answered then Some(now) else h.fetchedAt)
  }

  function GetTools(h: Health, now: real, o: Outcome): Health { if Recent(h, now) then h else FetchTools(h, now, o) }

  /** Routes that are not recent are rebuilt first, from the cache or by a fetch. */
  function RouteStep(h: Health, now: real, recentRoutes: bool, o: Outcome): Health {
    if recentRoutes then h else GetTools(h, now, o)
  }

  /** ends tells whether a route step that found no tools in the namespace ends the listing. */
  datatype Act =
    | List(now: real, recentRoutes: bool, ends: bool, route: Outcome, fetch: Outcome)
    | Call(now: real, recentRoutes: bool, route: Outcome, call: Outcome)
    | Refresh(now: real, fetch: Outcome)

  function Routed(h: Health, a: Act): Health {
    match a
    case List(now, recentRoutes, _, route, _) => RouteStep(h, now, recentRoutes, route)
    case Call(now, recentRoutes, route, _) => RouteStep(h, now, recentRoutes, route)
    case Refresh(_, _) => h
  }

  predicate Ends(a: Act) { a.List? && a.ends && !a.recentRoutes }

  /** The server's tools are in the list, or the call goes out, or the refresh does. */
  predicate Serves(h: Health, a: Act) { !Ends(a) && Grants(Routed(h, a).circuit, a.now) }

  function After(h: Health, a: Act): Health {
    var routed := Routed(h, a);
    if Ends(a) then routed
    else
      match a
      case List(now, _, _, _, fetch) =>
        if Grants(routed.circuit, now) then GetTools(Ask(routed, now), now, fetch) else Ask(routed, now)
      case Call(now, _, _, call) =>
        var asked := Ask(routed, now);
        if Grants(routed.circuit, now) then asked.(circuit := Reported(asked.circuit, now, call)) else asked
      case Refresh(now, fetch) => FetchTools(routed, now, fetch)
  }

  function AfterAll(h: Health, acts: seq<Act>): Health {
    if acts == [] then h else After(AfterAll(h, acts[..|acts| - 1]), acts[|acts| - 1])
  }

  predicate Stuck(h: Health) { Spent(h.circuit) }

  lemma StuckStep(h: Health, a: Act)
    requires Stuck(h)
    ensures !Serves(h, a) && After(h, a).circuit == h.circuit
  {
  }

  /** A server whose probes are spent is never served again, however the upstream is, and stays like that. */
  lemma {:induction false} StuckForGood(h: Health, acts: seq<Act>, i: nat)
    requires Stuck(h) && i < |acts|
    ensures !Serves(AfterAll(h, acts[..i]), acts[i])
    ensures AfterAll(h, acts).circuit == h.circuit
    decreases |acts|
  {
    hide After, Serves;
    var n := |acts| - 1;
    var init := acts[..n];
    if n > 0 { StuckForGood(h, init, if i < n then i else 0); }
    StuckStep(AfterAll(h, init), acts[n]);
    assert i < n ==> init[..i] == acts[..i];
  }

  /** No request of this act is left without a report because its client went away. */
  predicate Reports(a: Act) {
    match a
    case List(_, _, _, route, fetch) => route != Abandoned && fetch != Abandoned
    case Call(_, _, route, call) => route != Abandoned && call != Abandoned
    case Refresh(_, fetch) => fetch != Abandoned
  }

  /** A listing that takes the last probe of a half-open circuit, with tools or routes too recent to fetch. */
  predicate TakesLastProbe(h: Health, a: Act) {
    && a.List? && h.circuit.state == HalfOpen && h.circuit.probes < MAX_PROBES
    && (a.recentRoutes || (Recent(h, a.now) && !a.ends))
  }

  predicate WellFormed(h: Health) { 0 <= h.circuit.probes <= MAX_PROBES }

  lemma StepGetsStuckExactlyIf(h: Health, a: Act)
    requires WellFormed(h) && Reports(a)
    ensures WellFormed(After(h, a))
    ensures Stuck(After(h, a)) <==> Stuck(h) || TakesLastProbe(h, a)
  {
  }

  function NewServer(t0: real): Health { Health(Initial(t0), None) }

  lemma NewIsFine(t0: real)
    ensures WellFormed(NewServer(t0)) && !Stuck(NewServer(t0))
  {
  }

  /** The i-th act of a run takes the last probe. */
  predicate LastProbeAt(acts: seq<Act>, i: int, t0: real) {
    0 <= i < |acts| && TakesLastProbe(AfterAll(NewServer(t0), acts[..i]), acts[i])
  }

  lemma LastProbeOfLonger(acts: seq<Act>, i: int, t0: real)
    requires acts != []
    ensures LastProbeAt(acts, i, t0) <==>
      if i == |acts| - 1 then TakesLastProbe(AfterAll(NewServer(t0), acts[..i]), acts[i])
      else LastProbeAt(acts[..|acts| - 1], i, t0)
  {
    hide TakesLastProbe, AfterAll;
    assert 0 <= i < |acts| - 1 ==> acts[..|acts| - 1][..i] == acts[..i];
  }

  /** One act after the other, all requests reported: the server gets stuck exactly by such a listing. */
  lemma {:induction false} GetsStuckExactlyIf(acts: seq<Act>, t0: real)
    requires forall i :: 0 <= i < |acts| ==> Reports(acts[i])
    ensures WellFormed(AfterAll(NewServer(t0), acts))
    ensures Stuck(AfterAll(NewServer(t0), acts)) <==> exists i :: LastProbeAt(acts, i, t0)
  {
    hide After, Stuck, TakesLastProbe, WellFormed, Reports;
    if acts == [] {
      NewIsFine(t0);
    } else {
      var n := |acts| - 1;
      GetsStuckExactlyIf(acts[..n], t0);
      StepGetsStuckExactlyIf(AfterAll(NewServer(t0), acts[..n]), acts[n]);
      hide LastProbeAt;
      forall i ensures LastProbeAt(acts, i, t0) <==>
        if i == n then TakesLastProbe(AfterAll(NewServer(t0), acts[..n]), acts[n]) else LastProbeAt(acts[..n], i, t0)
      {
        LastProbeOfLonger(acts, i, t0);
      }
      OutOfRange(acts[..n], n, t0);
    }
  }

  lemma OutOfRange(acts: seq<Act>, i: int, t0: real)
    requires i >= |acts|
    ensures !LastProbeAt(acts, i, t0)
  {
  }

  /** After the cooldown two listings from a recent cache are enough, whatever the upstream would answer. */
  lemma TwoListingsSpendTheProbes(h: Health, first: Act, second: Act)
    requires h.circuit.state == Open && first.List? && second.List? && !Ends(first) && !Ends(second)
    requires CooledDown(h.circuit, first.now) && Recent(h, first.now) && Recent(h, second.now)
    ensures Stuck(After(After(h, first), second)) && Serves(h, first)
  {
  }

  const LIST_AT_0 := List(0.0, false, false, Answered, Answered)
  const FAILED_CALL_AT_1 := Call(1.0, true, Answered, Refused)
  const LIST_AT_32 := List(32.0, false, false, Answered, Answered)
  const LIST_AT_33 := List(33.0, false, false, Answered, Answered)

  lemma FailedCall(h: Health)
    requires h.circuit.state == Closed
    ensures After(h, FAILED_CALL_AT_1) == h.(circuit := Next(h.circuit, Failed(1.0)))
  {
  }

  /** For instance: a listing at 0, five failed calls at 1, and listings at 32 and 33. */
  lemma HealthyServerGetsStuck() returns (acts: seq<Act>)
    ensures Stuck(AfterAll(NewServer(0.0), acts)) && forall i :: 0 <= i < |acts| ==> Reports(acts[i])
  {
    var h := After(NewServer(0.0), LIST_AT_0);
    assert h == Health(Circuit(Closed, 0, 0, 0.0), Some(0.0));
    hide After;
    var call := FAILED_CALL_AT_1;
    var h1 := Health(Circuit(Closed, 1, 0, 0.0), Some(0.0));
    FailedCall(h);
    FailedCall(h1);
    FailedCall(h1.(circuit := h1.circuit.(failures := 2)));
    FailedCall(h1.(circuit := h1.circuit.(failures := 3)));
    FailedCall(h1.(circuit := h1.circuit.(failures := 4)));
    var tripped := Health(Circuit(Open, 5, 0, 1.0), Some(0.0));
    assert After(After(After(After(After(h, call), call), call), call), call) == tripped;
    TwoListingsSpendTheProbes(tripped, LIST_AT_32, LIST_AT_33);
    acts := [LIST_AT_0] + [call] + [call] + [call] + [call] + [call] + [LIST_AT_32] + [LIST_AT_33];
    Unroll(NewServer(0.0), [], LIST_AT_0);
    Unroll(NewServer(0.0), [LIST_AT_0], call);
    Unroll(NewServer(0.0), [LIST_AT_0] + [call], call);
    Unroll(NewServer(0.0), [LIST_AT_0] + [call] + [call], call);
    Unroll(NewServer(0.0), [LIST_AT_0] + [call] + [call] + [call], call);
    Unroll(NewServer(0.0), [LIST_AT_0] + [call] + [call] + [call] + [call], call);
    Unroll(NewServer(0.0), [LIST_AT_0] + [call] + [call] + [call] + [call] + [call], LIST_AT_32);
    Unroll(NewServer(0.0), [LIST_AT_0] + [call] + [call] + [call] + [call] + [call] + [LIST_AT_32], LIST_AT_33);
    assert [] + [LIST_AT_0] == [LIST_AT_0];
  }

  lemma Unroll(h: Health, acts: seq<Act>, a: Act)
    ensures AfterAll(h, acts + [a]) == After(AfterAll(h, acts), a)
  {
    assert (acts + [a])[..|acts|] == acts;
  }

  // ---- an act is a run of moments ----

  function ReportMoment(now: real, o: Outcome): Moment {
    match o
    case Answered => IsAnswered
    case Refused => IsRefused(now)
    case Abandoned => GoesAway
  }

  function RequestMoments(h: Health, now: real, o: Outcome): seq<Moment> {
    [RequestAsks(now)] + (if Grants(h.circuit, now) then [ReportMoment(now, o)] else [])
  }

  function GetMoments(h: Health, now: real, o: Outcome): seq<Moment> {
    if Recent(h, now) then [] else RequestMoments(h, now, o)
  }

  function RouteMoments(h: Health, a: Act): seq<Moment> {
    match a
    case List(now, recentRoutes, _, route, _) => if recentRoutes then [] else GetMoments(h, now, route)
    case Call(now, recentRoutes, route, _) => if recentRoutes then [] else GetMoments(h, now, route)
    case Refresh(_, _) => []
  }

  /** What is left of an act after its route step. */
  function MainMoments(routed: Health, a: Act): seq<Moment> {
    if Ends(a) then []
    else
      match a
      case List(now, _, _, _, fetch) =>
        [ListingAsks(now)] + (if Grants(routed.circuit, now) then GetMoments(Ask(routed, now), now, fetch) else [])
      case Call(now, _, _, call) => RequestMoments(routed, now, call)
      case Refresh(now, fetch) => RequestMoments(routed, now, fetch)
  }

  function Moments(h: Health, a: Act): seq<Moment> { RouteMoments(h, a) + MainMoments(Routed(h, a), a) }

  predicate Leads(t: Traffic, ms: seq<Moment>, u: Traffic) { AllPossible(t, ms) && Thereafter(t, ms) == u }

  lemma {:induction false} LeadsOn(t: Traffic, ms: seq<Moment>, u: Traffic, more: seq<Moment>, v: Traffic)
    requires Leads(t, ms, u) && Leads(u, more, v)
    ensures Leads(t, ms + more, v)
    decreases |ms|
  {
    hide Then, Possible;
    if ms == [] {
      assert ms + more == more;
    } else {
      LeadsOn(Then(t, ms[0]), ms[1..], u, more, v);
      assert (ms + more)[1..] == ms[1..] + more;
    }
  }

  lemma RequestLeads(h: Health, now: real, o: Outcome)
    ensures var asked := Ask(h, now);
      Leads(Traffic(h.circuit, 0), RequestMoments(h, now, o),
            Traffic(if Grants(h.circuit, now) then Reported(asked.circuit, now, o) else asked.circuit, 0))
  {
    var ms := RequestMoments(h, now, o);
    var t := Then(Traffic(h.circuit, 0), ms[0]);
    if Grants(h.circuit, now) {
      assert ms[1..] == [ReportMoment(now, o)] && ms[1..][1..] == [];
      assert Thereafter(t, ms[1..]) == Thereafter(Then(t, ms[1]), []);
    } else {
      assert ms[1..] == [];
    }
  }

  lemma GetLeads(h: Health, now: real, o: Outcome)
    ensures Leads(Traffic(h.circuit, 0), GetMoments(h, now, o), Traffic(GetTools(h, now, o).circuit, 0))
  {
    if !Recent(h, now) { RequestLeads(h, now, o); }
  }

  /** An act that nothing disturbs is a run of moments, with nothing pending before and after it. */
  lemma ActIsMoments(h: Health, a: Act)
    ensures Leads(Traffic(h.circuit, 0), Moments(h, a), Traffic(After(h, a).circuit, 0))
  {
    hide Leads, GetTools, GetMoments, RequestMoments, Reported;
    var routed := Routed(h, a);
    assert Leads(Traffic(h.circuit, 0), RouteMoments(h, a), Traffic(routed.circuit, 0)) by {
      NoMoments(Traffic(h.circuit, 0));
      if a.List? { GetLeads(h, a.now, a.route); }
      if a.Call? { GetLeads(h, a.now, a.route); }
    }
    assert Leads(Traffic(routed.circuit, 0), MainMoments(routed, a), Traffic(After(h, a).circuit, 0)) by {
      NoMoments(Traffic(routed.circuit, 0));
      match a
      case List(now, _, _, _, fetch) => ListingLeads(routed, now, fetch);
      case Call(now, _, _, call) => RequestLeads(routed, now, call);
      case Refresh(now, fetch) => RequestLeads(routed, now, fetch);
    }
    LeadsOn(Traffic(h.circuit, 0), RouteMoments(h, a), Traffic(routed.circuit, 0),
            MainMoments(routed, a), Traffic(After(h, a).circuit, 0));
  }

  lemma NoMoments(t: Traffic)
    ensures Leads(t, [], t)
  {
  }

  lemma OneMoment(t: Traffic, m: Moment)
    requires Possible(t, m)
    ensures Leads(t, [m], Then(t, m))
  {
    assert [m][1..] == [];
    assert Thereafter(t, [m]) == Thereafter(Then(t, m), []);
  }

  lemma ListingLeads(h: Health, now: real, fetch: Outcome)
    ensures Leads(Traffic(h.circuit, 0),
                  [ListingAsks(now)] + (if Grants(h.circuit, now) then GetMoments(Ask(h, now), now, fetch) else []),
                  Traffic((if Grants(h.circuit, now) then GetTools(Ask(h, now), now, fetch) else Ask(h, now)).circuit, 0))
  {
    var asked := Traffic(Ask(h, now).circuit, 0);
    OneMoment(Traffic(h.circuit, 0), ListingAsks(now));
    hide Leads, GetTools, GetMoments;
    if Grants(h.circuit, now) {
      GetLeads(Ask(h, now), now, fetch);
      LeadsOn(Traffic(h.circuit, 0), [ListingAsks(now)], asked,
              GetMoments(Ask(h, now), now, fetch), Traffic(GetTools(Ask(h, now), now, fetch).circuit, 0));
    } else {
      assert [ListingAsks(now)] + [] == [ListingAsks(now)];
    }
  }
}
