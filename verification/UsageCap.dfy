/**
  The daily usage cap (internal/db/tenants.go): many callers, each of them two atomic statements
  against one table, in any interleaving.
*/
module UsageCap {
  import opened Results

  /** A row of the daily usage table is found by tenant and day. */
  datatype RowKey = RowKey(tenant: string, day: int)

  type Rows = map<RowKey, int>

  /** The first statement: count one more call if the row exists and is below the cap. */
  function Update(rows: Rows, key: RowKey, cap: int): (r: (Rows, nat)) {
    if key in rows && rows[key] < cap then (rows[key := rows[key] + 1], 1) else (rows, 0)
  }

  /** The second statement: create the row with one call unless it exists. */
  function Insert(rows: Rows, key: RowKey): (r: (Rows, nat)) {
    if key in rows then (rows, 0) else (rows[key := 1], 1)
  }

  datatype Phase = Started | Missed | Finished(granted: bool)

  /** A caller; the day is read anew by each statement, so granted calls remember the row they counted. */
  datatype Caller = Caller(tenant: string, phase: Phase, row: Option<RowKey>)

  datatype System = System(rows: Rows, callers: map<nat, Caller>)

  /** A new call, the next statement of a call on some day, or the loss of a call to a database error. */
  datatype Event = Arrive(id: nat, tenant: string) | Advance(id: nat, day: int) | Fail(id: nat)

  predicate Enabled(s: System, e: Event) {
    match e
    case Arrive(id, _) => id !in s.callers
    case Advance(id, _) => id in s.callers && !s.callers[id].phase.Finished?
    case Fail(id) => id in s.callers && !s.callers[id].phase.Finished?
  }

  function Next(s: System, e: Event, cap: int): System
    requires Enabled(s, e)
  {
    match e
    case Arrive(id, tenant) => s.(callers := s.callers[id := Caller(tenant, Started, None)])
    case Fail(id) => s.(callers := s.callers[id := s.callers[id].(phase := Finished(false))])
    case Advance(id, day) =>
      var c := s.callers[id];
      var key := RowKey(c.tenant, day);
      var (rows, n) := if c.phase == Started then Update(s.rows, key, cap) else Insert(s.rows, key);
      var done :=
        if n > 0 then Caller(c.tenant, Finished(true), Some(key))
        else c.(phase := if c.phase == Started then Missed else Finished(false));
      System(rows, s.callers[id := done])
  }

  predicate Possible(s: System, events: seq<Event>, cap: int)
    decreases |events|
  {
    events == [] || (Enabled(s, events[0]) && Possible(Next(s, events[0], cap), events[1..], cap))
  }

  function Run(s: System, events: seq<Event>, cap: int): System
    requires Possible(s, events, cap)
    decreases |events|
  {
    if events == [] then s else Run(Next(s, events[0], cap), events[1..], cap)
  }

  const EMPTY := System(map[], map[])

  /** The calls that were let through on a row. */
  ghost function Granted(s: System, key: RowKey): set<nat> {
    set id | id in s.callers && s.callers[id].phase == Finished(true) && s.callers[id].row == Some(key)
  }

  function Count(rows: Rows, key: RowKey): int { if key in rows then rows[key] else 0 }

  function Max(a: int, b: int): int { if a < b then b else a }

  /** Each row counts the calls granted on it, and is at most the cap, or one if the cap is smaller. */
  ghost predicate Balanced(s: System, cap: int) {
    forall key :: Count(s.rows, key) == |Granted(s, key)| <= Max(cap, 1)
  }

  lemma StepKeepsBalance(s: System, e: Event, cap: int)
    requires Balanced(s, cap) && Enabled(s, e)
    ensures Balanced(Next(s, e, cap), cap)
  {
    var t := Next(s, e, cap);
    var id := e.id;
    forall key ensures Count(t.rows, key) == |Granted(t, key)| <= Max(cap, 1) {
      assert Count(s.rows, key) == |Granted(s, key)| <= Max(cap, 1);
      if id in Granted(t, key) {
        assert Granted(t, key) == Granted(s, key) + {id};
      } else {
        assert Granted(t, key) == Granted(s, key);
      }
    }
  }

  lemma {:induction false} RunKeepsBalance(s: System, events: seq<Event>, cap: int)
    requires Balanced(s, cap) && Possible(s, events, cap)
    ensures Balanced(Run(s, events, cap), cap)
    decreases |events|
  {
    if events != [] {
      StepKeepsBalance(s, events[0], cap);
      RunKeepsBalance(Next(s, events[0], cap), events[1..], cap);
    }
  }

  /** On every interleaving the stored count is the number of granted calls, and within a cap of at least one. */
  lemma StoredIsGranted(events: seq<Event>, key: RowKey, cap: int)
    requires Possible(EMPTY, events, cap)
    ensures Count(Run(EMPTY, events, cap).rows, key) == |Granted(Run(EMPTY, events, cap), key)|
    ensures cap >= 1 ==> Count(Run(EMPTY, events, cap).rows, key) <= cap
  {
    assert Balanced(EMPTY, cap) by {
      forall key: RowKey ensures Granted(EMPTY, key) == {} {}
    }
    RunKeepsBalance(EMPTY, events, cap);
  }

  /** No run of the two statements grants more than the cap. */
  ghost predicate CapHolds(cap: int) {
    forall events, key :: Possible(EMPTY, events, cap) ==> |Granted(Run(EMPTY, events, cap), key)| <= cap
  }

  /** The cap is respected exactly if it is at least one: the INSERT does not look at it. */
  lemma CapHoldsIffPositive(cap: int)
    ensures CapHolds(cap) <==> cap >= 1
  {
    if cap >= 1 {
      forall events, key | Possible(EMPTY, events, cap) ensures |Granted(Run(EMPTY, events, cap), key)| <= cap {
        StoredIsGranted(events, key, cap);
      }
    } else {
      var events := [Arrive(0, "t"), Advance(0, 1), Advance(0, 1)];
      var s1 := Next(EMPTY, events[0], cap);
      var s2 := Next(s1, events[1], cap);
      var s3 := Next(s2, events[2], cap);
      assert events[1..] == [events[1], events[2]] && events[1..][1..] == [events[2]] && [events[2]][1..] == [];
      assert Possible(s2, [events[2]], cap) && Possible(s1, events[1..], cap) && Possible(EMPTY, events, cap);
      assert Run(EMPTY, events, cap) == Run(s1, events[1..], cap) == Run(s2, [events[2]], cap) == Run(s3, [], cap) == s3;
      assert Granted(s3, RowKey("t", 1)) == {0};
    }
  }

  // ---- who is refused ----

  predicate LeavesAlone(events: seq<Event>, id: nat) { forall e <- events :: e.id != id }

  /** What other callers do in between: rows stay and only grow, the waiting call stays as it is. */
  lemma {:induction false} Meanwhile(s: System, events: seq<Event>, id: nat, key: RowKey, cap: int)
    requires Possible(s, events, cap) && LeavesAlone(events, id) && id in s.callers
    ensures var t := Run(s, events, cap);
      && id in t.callers && t.callers[id] == s.callers[id]
      && (key in s.rows ==> key in t.rows && s.rows[key] <= t.rows[key])
    decreases |events|
  {
    if events != [] {
      assert events[0] in events;
      assert forall e <- events[1..] :: e in events;
      Meanwhile(Next(s, events[0], cap), events[1..], id, key, cap);
    }
  }

  /**
    A call, whatever others do between its two statements, is refused exactly if the cap was reached
    at its first statement or another first call of the day was inserted before its second. If
    midnight falls in between, exactly if the new day has any call when the second statement comes.
    The last two cases refuse a caller who is under the cap.
  */
  lemma RefusedExactlyIf(s: System, id: nat, day: int, secondDay: int, events: seq<Event>, cap: int)
    requires id in s.callers && s.callers[id].phase == Started
    requires var s1 := Next(s, Advance(id, day), cap);
      s1.callers[id].phase == Missed && Possible(s1, events, cap) && LeavesAlone(events, id)
    ensures var key, secondKey := RowKey(s.callers[id].tenant, day), RowKey(s.callers[id].tenant, secondDay);
      var s2 := Run(Next(s, Advance(id, day), cap), events, cap);
      && Enabled(s2, Advance(id, secondDay))
      && (Next(s2, Advance(id, secondDay), cap).callers[id].phase == Finished(false)
          <==> if day == secondDay then (key in s.rows && s.rows[key] >= cap) || (key !in s.rows && key in s2.rows)
               else secondKey in s2.rows)
  {
    var key := RowKey(s.callers[id].tenant, day);
    Meanwhile(Next(s, Advance(id, day), cap), events, id, key, cap);
  }

  /** Two first calls at once under a cap of two: one is refused although only one is counted. */
  lemma FirstCallRace() returns (events: seq<Event>)
    ensures Possible(EMPTY, events, 2) && forall e: Event <- events :: !e.Fail?
    ensures Count(Run(EMPTY, events, 2).rows, RowKey("t", 1)) == 1
    ensures 1 in Run(EMPTY, events, 2).callers && Run(EMPTY, events, 2).callers[1].phase == Finished(false)
  {
    events := [Arrive(0, "t"), Arrive(1, "t"), Advance(0, 1), Advance(1, 1), Advance(0, 1), Advance(1, 1)];
    var s1 := Next(EMPTY, events[0], 2);
    var s2 := Next(s1, events[1], 2);
    var s3 := Next(s2, events[2], 2);
    var s4 := Next(s3, events[3], 2);
    var s5 := Next(s4, events[4], 2);
    var s6 := Next(s5, events[5], 2);
    Chain(s5, s6, events, 5);
    Chain(s4, s5, events, 4);
    Chain(s3, s4, events, 3);
    Chain(s2, s3, events, 2);
    Chain(s1, s2, events, 1);
    Chain(EMPTY, s1, events, 0);
    assert events[0..] == events;
    assert Run(EMPTY, events, 2) == s6;
  }

  lemma Chain(s: System, t: System, events: seq<Event>, i: nat)
    requires i < |events| && Enabled(s, events[i]) && Next(s, events[i], 2) == t && Possible(t, events[i + 1..], 2)
    ensures Possible(s, events[i..], 2) && Run(s, events[i..], 2) == Run(t, events[i + 1..], 2)
  {
    assert events[i..][1..] == events[i + 1..];
  }

  // ---- one caller on its own ----

  class UsageTable {
    var rows: Rows

    constructor ()
      ensures rows == map[]
    {
      rows := map[];
    }

    method ExecUpdate(key: RowKey, cap: int) returns (affected: nat)
      modifies this
      ensures (rows, affected) == Update(old(rows), key, cap)
    {
      affected := 0;
      if key in rows && rows[key] < cap {
        rows := rows[key := rows[key] + 1];
        affected := 1;
      }
    }

    method ExecInsert(key: RowKey) returns (affected: nat)
      modifies this
      ensures (rows, affected) == Insert(old(rows), key)
    {
      affected := 0;
      if key !in rows {
        rows := rows[key := 1];
        affected := 1;
      }
    }

    /** Undisturbed and within one day, a call is granted exactly below the cap, and then counted once. */
    method TryBumpUsage(tenant: string, cap: int, today: int) returns (granted: bool)
      modifies this
      ensures var key := RowKey(tenant, today);
        && (granted <==> key !in old(rows) || old(rows)[key] < cap)
        && rows == if granted then old(rows)[key := Count(old(rows), key) + 1] else old(rows)
    {
      var affected := ExecUpdate(RowKey(tenant, today), cap);
      if affected > 0 { return true; }
      affected := ExecInsert(RowKey(tenant, today));
      if affected > 0 { return true; }
      return false;
    }
  }
}
