/** The per-server circuit breaker (internal/mcp/breaker.go). */
module Breakers {
  import opened BreakerModel

  class Breaker {
    var failures: int
    var state: State
    var openedAt: real
    var probes: int

    ghost function Value(): Circuit
      reads this
    {
      Circuit(state, failures, probes, openedAt)
    }

    constructor (zeroTime: real)
      ensures Value() == Initial(zeroTime)
    {
      failures, state, openedAt, probes := 0, Closed, zeroTime, 0;
    }

    method Allow(now: real) returns (allowed: bool)
      modifies this
      ensures Value() == Next(old(Value()), Asked(now)) && allowed == Grants(old(Value()), now)
    {
      match state {
        case Open =>
          if now - openedAt > COOLDOWN {
            state := HalfOpen;
            probes := 0;
            return true;
          }
          return false;
        case HalfOpen =>
          if probes < MAX_PROBES {
            probes := probes + 1;
            return true;
          }
          return false;
        case Closed =>
          return true;
      }
    }

    method Success()
      modifies this
      ensures Value() == Next(old(Value()), Succeeded)
    {
      failures := 0;
      if state != Closed {
        state := Closed;
      }
    }

    /** Answers true exactly when this report moved the circuit into open. */
    method Failure(now: real) returns (tripped: bool)
      modifies this
      ensures Value() == Next(old(Value()), Failed(now))
      ensures tripped == Opens(old(Value()))
      ensures tripped <==> old(state) != Open && state == Open
    {
      failures := failures + 1;
      if state == HalfOpen {
        state := Open;
        openedAt := now;
        return true;
      }
      if failures >= MAX_FAILURES && state == Closed {
        state := Open;
        openedAt := now;
        return true;
      }
      return false;
    }
  }
}
