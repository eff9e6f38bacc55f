/** The token-bucket limiter with its table of at most maxKeys entries (internal/mcp/ratelimit.go). */
module RateLimiters {
  import opened LimiterModel

  class LimiterEntry {
    const key: string
    var tokens: real
    var last: real

    constructor (key: string, tokens: real, last: real)
      ensures this.key == key && this.tokens == tokens && this.last == last
    {
      this.key, this.tokens, this.last := key, tokens, last;
    }

    ghost function State(): Bucket
      reads this
    {
      Bucket(tokens, last)
    }

    /** Refills the bucket and takes a token if there is one. */
    method Draw(now: real, cfg: Config) returns (allowed: bool)
      modifies this
      ensures State() == Served(old(State()), now, cfg) && allowed == Grants(old(State()), now, cfg)
    {
      var elapsed := now - last;
      var gained := elapsed * cfg.rate;
      assert gained == Gain(elapsed, cfg);
      hide Gain;
      tokens := tokens + gained;
      if tokens > cfg.burst { tokens := cfg.burst; }
      last := now;
      if tokens >= 1.0 {
        tokens := tokens - 1.0;
        return true;
      }
      return false;
    }
  }

  ghost function Names(es: seq<LimiterEntry>): (names: seq<string>)
    ensures |names| == |es| && forall i :: 0 <= i < |es| ==> names[i] == es[i].key
  {
    if es == [] then [] else [es[0].key] + Names(es[1..])
  }

  /** Index and list hold the same entries, one per key. */
  ghost predicate Linked(index: map<string, LimiterEntry>, order: seq<LimiterEntry>) {
    && (forall i :: 0 <= i < |order| ==> order[i].key in index && index[order[i].key] == order[i])
    && (forall k :: k in index ==> index[k].key == k && index[k] in order)
    && (forall i, j :: 0 <= i < j < |order| ==> order[i].key != order[j].key)
  }

  lemma LinkedKeys(index: map<string, LimiterEntry>, order: seq<LimiterEntry>, k: string)
    requires Linked(index, order)
    ensures k in index <==> k in Names(order)
  {
    if k in index {
      var i :| 0 <= i < |order| && order[i] == index[k];
      assert Names(order)[i] == k;
    }
    if k in Names(order) {
      var i :| 0 <= i < |order| && Names(order)[i] == k;
    }
  }

  lemma {:induction false} RemoveAt(es: seq<LimiterEntry>, i: nat)
    requires i < |es| && forall j, k :: 0 <= j < k < |es| ==> es[j].key != es[k].key
    ensures Remove(Names(es), es[i].key) == Names(es[..i] + es[i + 1..])
  {
    var rest := es[..i] + es[i + 1..];
    assert Names(es)[1..] == Names(es[1..]);
    if i > 0 {
      RemoveAt(es[1..], i - 1);
      assert rest[0] == es[0] && rest[1..] == es[1..][..i - 1] + es[1..][i..];
    } else {
      assert rest == es[1..];
    }
  }

  lemma {:induction false} RemoveAbsent(s: seq<string>, k: string)
    requires k !in s
    ensures Remove(s, k) == s
  {
    if s != [] { RemoveAbsent(s[1..], k); }
  }

  lemma NamesTake(es: seq<LimiterEntry>, n: nat)
    requires n <= |es|
    ensures Names(es[..n]) == Names(es)[..n]
  {
  }

  lemma PushLinked(index: map<string, LimiterEntry>, order: seq<LimiterEntry>, e: LimiterEntry)
    requires Linked(index, order) && e.key !in index
    ensures Linked(index[e.key := e], [e] + order) && Names([e] + order) == [e.key] + Names(order)
  {
    var all := [e] + order;
    assert all[1..] == order;
    assert forall x :: x in order ==> x in all;
    assert all[0] in all;
  }

  lemma FrontNames(order: seq<LimiterEntry>, i: nat)
    requires i < |order| && forall j, k :: 0 <= j < k < |order| ==> order[j].key != order[k].key
    ensures Names(ToFront(order, i)) == [order[i].key] + Remove(Names(order), order[i].key)
  {
    var rest := order[..i] + order[i + 1..];
    RemoveAt(order, i);
    assert ([order[i]] + rest)[1..] == rest;
  }

  /** Where the entry at position j stood before entry i came to the front. */
  function From(i: nat, j: nat): nat { if j == 0 then i else if j <= i then j - 1 else j }

  function ToFront(order: seq<LimiterEntry>, i: nat): seq<LimiterEntry>
    requires i < |order|
  {
    [order[i]] + (order[..i] + order[i + 1..])
  }

  lemma ToFrontAt(order: seq<LimiterEntry>, i: nat, j: nat)
    requires i < |order| && j < |order|
    ensures |ToFront(order, i)| == |order|
    ensures From(i, j) < |order| && ToFront(order, i)[j] == order[From(i, j)]
    ensures order[j] in ToFront(order, i)
  {
    var moved := ToFront(order, i);
    assert moved[if j == i then 0 else if j < i then j + 1 else j] == order[j];
  }

  /** The entries are those of before, in another order. */
  lemma FrontLinked(index: map<string, LimiterEntry>, order: seq<LimiterEntry>, i: nat)
    requires Linked(index, order) && i < |order|
    ensures Linked(index, ToFront(order, i))
  {
    hide Names, ToFront;
    var moved := ToFront(order, i);
    ToFrontAt(order, i, 0);
    forall j | 0 <= j < |moved| ensures moved[j] == order[From(i, j)] && From(i, j) < |order| { ToFrontAt(order, i, j); }
    forall x | x in order ensures x in moved {
      var j :| 0 <= j < |order| && order[j] == x;
      ToFrontAt(order, i, j);
    }
    forall j, k | 0 <= j < k < |moved| ensures moved[j].key != moved[k].key { assert From(i, j) != From(i, k); }
  }

  class RateLimiter {
    var index: map<string, LimiterEntry>
    var order: seq<LimiterEntry> // front = most recently used
    const maxKeys: int
    const rate: real
    const burst: real

    function Cfg(): Config { Config(rate, burst, maxKeys) }

    ghost predicate Valid()
      reads this
    {
      maxKeys >= 1 && |order| <= maxKeys && Linked(index, order)
    }

    ghost function Contents(): Table
      reads this, index.Values
    {
      Table(Names(order), map k | k in index :: index[k].State())
    }

    constructor (rate: real, burst: real, maxKeys: int)
      ensures Valid() && Cfg() == Config(rate, burst, if maxKeys < 1 then 1 else maxKeys)
      ensures Contents() == After([], Cfg())
    {
      this.rate, this.burst := rate, burst;
      this.maxKeys := if maxKeys < 1 then 1 else maxKeys;
      index, order := map[], [];
    }

    method MoveToFront(e: LimiterEntry)
      requires Valid() && e in order
      modifies this`order
      ensures Valid() && Names(order) == [e.key] + Remove(old(Names(order)), e.key)
    {
      var i := 0;
      while order[i] != e
        invariant 0 <= i < |order| && e !in order[..i]
        decreases |order| - i
      {
        i := i + 1;
      }
      FrontNames(order, i);
      FrontLinked(index, order, i);
      order := ToFront(order, i);
    }

    /** Unlinks the least recently used entry. */
    method EvictBack()
      requires |order| > 1 && Linked(index, order)
      modifies this`index, this`order
      ensures Linked(index, order) && order == old(order)[..|old(order)| - 1]
      ensures forall k :: k in index ==> k in old(index) && index[k] == old(index)[k]
    {
      var e := order[|order| - 1];
      order := order[..|order| - 1];
      index := index - {e.key};
      assert forall x :: x in old(order) ==> x == e || x in order;
    }

    /** Puts a new entry in front and evicts from the back until the table fits. */
    method Insert(e: LimiterEntry)
      requires Valid() && e.key !in index
      modifies this`index, this`order
      ensures Valid() && e.key in index && index[e.key] == e
      ensures Names(order) == Take([e.key] + old(Names(order)), maxKeys)
      ensures forall k :: k in index && k != e.key ==> k in old(index) && index[k] == old(index)[k]
    {
      hide Linked, Names;
      PushLinked(index, order, e);
      ghost var all := [e] + order;
      order := [e] + order;
      index := index[e.key := e];
      while |order| > maxKeys
        invariant Linked(index, order)
        invariant 1 <= |order| <= |all| && order == all[..|order|] && (|order| >= maxKeys || order == all)
        invariant forall k :: k in index && k != e.key ==> k in old(index) && index[k] == old(index)[k]
      {
        EvictBack();
      }
      NamesTake(all, |order|);
      FrontIsLinked(index, order);
    }

    /** The entry of a key, in front of the table: the one there was, or a full one. */
    method Lookup(key: string, now: real) returns (e: LimiterEntry)
      requires Valid()
      modifies this`index, this`order
      ensures Valid() && key in index && index[key] == e
      ensures Names(order) == Take([key] + Remove(old(Names(order)), key), maxKeys)
      ensures forall k :: k in index && k != key ==> k in old(index) && index[k] == old(index)[k]
      ensures if key in old(index) then e == old(index)[key] else fresh(e) && e.State() == Bucket(burst, now)
    {
      LinkedKeys(index, order, key);
      if key in index {
        e := index[key];
        MoveToFront(e);
      } else {
        e := new LimiterEntry(key, burst, now);
        RemoveAbsent(Names(order), key);
        Insert(e);
      }
    }

    /** One request: the table takes the step of the model and the answer is the model's. */
    method Allow(key: string, now: real) returns (allowed: bool)
      requires Valid()
      modifies this`index, this`order, index.Values
      ensures Valid() && Contents() == Step(old(Contents()), Request(key, now), Cfg())
      ensures allowed == Passes(old(Contents()), Request(key, now), Cfg())
      ensures forall e :: e in index.Values ==> e in old(index.Values) || fresh(e)
    {
      hide Served, Grants, Linked, Names, Take, Step;
      ghost var before := Contents();
      forall k ensures k in index <==> k in before.order { LinkedKeys(index, order, k); }
      var e := Lookup(key, now);
      forall k ensures k in index <==> k in Names(order) { LinkedKeys(index, order, k); }
      allowed := e.Draw(now, Cfg());
      OwnKeys(index, order);
      StepReached(before, Request(key, now), Cfg(), Contents());
    }
  }

  lemma StepReached(before: Table, r: Request, cfg: Config, after: Table)
    requires before.buckets.Keys == Elements(before.order) && after.buckets.Keys == Elements(after.order)
    requires after.order == Take([r.key] + Remove(before.order, r.key), cfg.maxKeys) && r.key in after.order
    requires after.buckets[r.key] == Served(BucketFor(before.buckets, r, cfg), r.now, cfg)
    requires forall k :: k in after.buckets && k != r.key ==> k in before.buckets && after.buckets[k] == before.buckets[k]
    ensures after == Step(before, r, cfg)
  {
    hide Served, Take, Remove;
    assert forall k :: k in after.order <==> k in Elements(after.order);
  }

  lemma OwnKeys(index: map<string, LimiterEntry>, order: seq<LimiterEntry>)
    requires Linked(index, order)
    ensures forall k :: k in index ==> index[k].key == k
  {
  }

  lemma FrontIsLinked(index: map<string, LimiterEntry>, order: seq<LimiterEntry>)
    requires Linked(index, order) && order != []
    ensures order[0].key in index && index[order[0].key] == order[0]
  {
  }
}
