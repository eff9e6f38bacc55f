/**
  The rate limiter as a value: token buckets, the order in which their keys were last used, and
  what a whole history of requests makes of them. Tokens and times are real numbers; the time of
  each request is an input.
*/
module LimiterModel {
  import opened Counting

  /** rate is in tokens per second; maxKeys bounds the table. */
  datatype Config = Config(rate: real, burst: real, maxKeys: int)

  ghost predicate Sensible(cfg: Config) { cfg.rate >= 0.0 && cfg.burst >= 0.0 && cfg.maxKeys >= 1 }

  datatype Bucket = Bucket(tokens: real, last: real)

  /** order lists the keys, most recently used first; buckets is indexed by key. */
  datatype Table = Table(order: seq<string>, buckets: map<string, Bucket>)

  datatype Request = Request(key: string, now: real)

  /** The tokens that accrue in some time. */
  function Gain(elapsed: real, cfg: Config): real { elapsed * cfg.rate }

  /** What a bucket holds at a later time, up to the burst. */
  function Refilled(b: Bucket, now: real, cfg: Config): real {
    var tokens := b.tokens + Gain(now - b.last, cfg);
    if tokens > cfg.burst then cfg.burst else tokens
  }

  function Grants(b: Bucket, now: real, cfg: Config): bool { Refilled(b, now, cfg) >= 1.0 }

  function Served(b: Bucket, now: real, cfg: Config): Bucket {
    Bucket(Refilled(b, now, cfg) - (if Grants(b, now, cfg) then 1.0 else 0.0), now)
  }

  function BucketFor(buckets: map<string, Bucket>, r: Request, cfg: Config): Bucket {
    if r.key in buckets then buckets[r.key] else Bucket(cfg.burst, r.now)
  }

  function Remove(s: seq<string>, k: string): seq<string> {
    if s == [] then [] else if s[0] == k then s[1..] else [s[0]] + Remove(s[1..], k)
  }

  function Elements(s: seq<string>): set<string> { set k | k in s }

  function Take(s: seq<string>, n: int): seq<string> { if 0 <= n < |s| then s[..n] else s }

  /** The table after a request: its key comes to the front, the keys past the cap are dropped. */
  function Step(t: Table, r: Request, cfg: Config): Table {
    var order := Take([r.key] + Remove(t.order, r.key), cfg.maxKeys);
    var buckets := t.buckets[r.key := Served(BucketFor(t.buckets, r, cfg), r.now, cfg)];
    Table(order, map k | k in buckets && k in order :: buckets[k])
  }

  function Passes(t: Table, r: Request, cfg: Config): bool { Grants(BucketFor(t.buckets, r, cfg), r.now, cfg) }

  /** A history of requests is read from the first to the last. */
  function After(h: seq<Request>, cfg: Config): Table {
    if h == [] then Table([], map[]) else Step(After(h[..|h| - 1], cfg), h[|h| - 1], cfg)
  }

  /** The answer to the i-th request of a history. */
  function Allowed(h: seq<Request>, i: nat, cfg: Config): bool
    requires i < |h|
  {
    Passes(After(h[..i], cfg), h[i], cfg)
  }

  // ---- what a history says about a key ----

  ghost predicate Requested(h: seq<Request>, k: string) {
    exists i :: 0 <= i < |h| && h[i].key == k
  }

  /** The other keys requested since the last use of k (all keys, if k was never used). */
  ghost function OthersSince(h: seq<Request>, k: string): set<string> {
    set j | 0 <= j < |h| && (forall i :: j <= i < |h| ==> h[i].key != k) :: h[j].key
  }

  lemma OthersStep(h: seq<Request>, r: Request, k: string)
    ensures OthersSince(h + [r], k) == if r.key == k then {} else OthersSince(h, k) + {r.key}
    ensures Requested(h + [r], k) <==> Requested(h, k) || r.key == k
  {
    var g := h + [r];
    assert g[|h|] == r;
    if Requested(h, k) {
      var i :| 0 <= i < |h| && h[i].key == k;
      assert g[i].key == k;
    }
    if r.key != k {
      forall x | x in OthersSince(h, k) ensures x in OthersSince(g, k) {
        var j :| 0 <= j < |h| && (forall i :: j <= i < |h| ==> h[i].key != k) && h[j].key == x;
        assert forall i :: j <= i < |g| ==> g[i].key != k;
        assert g[j].key == x;
      }
      assert forall i :: |h| <= i < |g| ==> g[i].key != k;
      assert r.key in OthersSince(g, k);
      forall x | x in OthersSince(g, k) ensures x in OthersSince(h, k) + {r.key} {
        var j :| 0 <= j < |g| && (forall i :: j <= i < |g| ==> g[i].key != k) && g[j].key == x;
        if j < |h| {
          assert forall i :: j <= i < |h| ==> g[i] == h[i];
          assert h[j].key == x;
        }
      }
    } else {
      assert g[|h|].key == k;
    }
  }

  // ---- the keys of a whole run in order of last use ----

  /** Every key ever requested, most recently used first. */
  function Recent(h: seq<Request>): seq<string> {
    if h == [] then [] else [h[|h| - 1].key] + Remove(Recent(h[..|h| - 1]), h[|h| - 1].key)
  }

  ghost predicate Unique(s: seq<string>) { forall i, j :: 0 <= i < j < |s| ==> s[i] != s[j] }

  lemma {:induction false} RemoveElements(s: seq<string>, k: string)
    requires Unique(s)
    ensures Unique(Remove(s, k)) && Elements(Remove(s, k)) == Elements(s) - {k}
  {
    if s != [] {
      assert s == [s[0]] + s[1..];
      RemoveElements(s[1..], k);
      var rest := Remove(s[1..], k);
      assert s[0] !in s[1..];
      assert forall x :: x in rest <==> x in Elements(rest);
      assert forall x :: x in s <==> x == s[0] || x in Elements(s[1..]);
      assert s[0] !in rest;
      assert forall j :: 0 <= j < |rest| ==> rest[j] in rest;
    }
  }

  /** Removing from a truncated list is the same as truncating after the removal. */
  lemma {:induction false} RemoveTake(s: seq<string>, k: string, n: nat)
    ensures Take(Remove(Take(s, n + 1), k), n) == Take(Remove(s, k), n)
  {
    if s == [] {
    } else if s[0] == k {
      assert Take(s, n + 1)[1..] == Take(s[1..], n);
    } else if n > 0 {
      var rest := Remove(s[1..], k);
      RemoveTake(s[1..], k, n - 1);
      assert Take(s, n + 1)[0] == s[0] && Take(s, n + 1)[1..] == Take(s[1..], n);
      assert Take([s[0]] + rest, n) == [s[0]] + Take(rest, n - 1);
      assert Take([s[0]] + Remove(Take(s[1..], n), k), n) == [s[0]] + Take(Remove(Take(s[1..], n), k), n - 1);
    }
  }

  /** The keys in front of k, or all of them. */
  function Before(s: seq<string>, k: string): set<string> {
    if s == [] || s[0] == k then {} else {s[0]} + Before(s[1..], k)
  }

  lemma {:induction false} BeforeRemove(s: seq<string>, r: string, k: string)
    requires Unique(s) && r != k
    ensures Before(Remove(s, r), k) == Before(s, k) - {r}
  {
    if s != [] {
      if s[0] == r {
        BeforeOnly(s[1..], k);
        assert forall x <- s[1..] :: x != r;
      } else {
        BeforeRemove(s[1..], r, k);
      }
    }
  }

  lemma {:induction false} BeforeOnly(s: seq<string>, k: string)
    ensures forall x <- Before(s, k) :: x in s
  {
    if s != [] && s[0] != k { BeforeOnly(s[1..], k); }
  }

  /** In a list without repetition a key stands at the position that counts the keys before it. */
  lemma {:induction false} BeforeSize(s: seq<string>, k: string)
    requires Unique(s)
    ensures |Before(s, k)| <= |s|
    ensures k in s <==> |Before(s, k)| < |s|
    ensures k in s ==> s[|Before(s, k)|] == k
  {
    if s != [] && s[0] != k {
      BeforeSize(s[1..], k);
      BeforeOnly(s[1..], k);
      assert s[0] !in Before(s[1..], k);
    }
  }

  lemma RecentStep(g: seq<Request>, r: Request)
    ensures Recent(g + [r]) == [r.key] + Remove(Recent(g), r.key)
  {
    assert (g + [r])[..|g|] == g;
  }

  lemma {:induction false} RecentElements(h: seq<Request>, k: string)
    ensures Unique(Recent(h)) && (k in Recent(h) <==> Requested(h, k))
  {
    hide OthersSince, Remove, Recent;
    if h == [] {
      NoneRecent(k);
    } else {
      var g, r := h[..|h| - 1], h[|h| - 1];
      assert h == g + [r];
      RecentStep(g, r);
      OthersStep(g, r, k);
      RecentElements(g, k);
      RemoveElements(Recent(g), r.key);
      hide Requested;
      FrontUnique(r.key, Remove(Recent(g), r.key), Elements(Recent(g)));
    }
  }

  lemma NoneRecent(k: string)
    ensures Recent([]) == [] && Unique([]) && !Requested([], k)
  {
  }

  lemma FrontUnique(x: string, rest: seq<string>, all: set<string>)
    requires Unique(rest) && Elements(rest) == all - {x}
    ensures Unique([x] + rest) && forall k :: k in [x] + rest <==> k == x || k in all
  {
    assert forall k :: k in rest <==> k in Elements(rest);
    assert forall j :: 0 <= j < |rest| ==> rest[j] in rest;
  }

  /** The list of a run: no repetition, exactly the requested keys, and in front of k what came since. */
  lemma {:induction false} RecentIsRecency(h: seq<Request>, k: string)
    ensures Unique(Recent(h))
    ensures k in Recent(h) <==> Requested(h, k)
    ensures Before(Recent(h), k) == OthersSince(h, k)
  {
    RecentElements(h, k);
    if h != [] {
      hide OthersSince, Remove, Recent, Requested, Unique;
      var g, r := h[..|h| - 1], h[|h| - 1];
      assert h == g + [r];
      RecentStep(g, r);
      OthersStep(g, r, k);
      RecentIsRecency(g, k);
      if k != r.key {
        BeforeRemove(Recent(g), r.key, k);
        assert ([r.key] + Remove(Recent(g), r.key))[1..] == Remove(Recent(g), r.key);
      }
    }
  }

  lemma TakeFront(x: string, s: seq<string>, n: int)
    requires n >= 1
    ensures Take([x] + s, n) == [x] + Take(s, n - 1)
  {
  }

  /** The bounded table lists exactly the maxKeys most recently used keys of the whole run, in that order. */
  lemma {:induction false} TableIsRecentKeys(h: seq<Request>, cfg: Config)
    requires cfg.maxKeys >= 1
    ensures After(h, cfg).order == Take(Recent(h), cfg.maxKeys)
    ensures After(h, cfg).buckets.Keys == Elements(After(h, cfg).order)
  {
    if h != [] {
      var g, r := h[..|h| - 1], h[|h| - 1];
      TableIsRecentKeys(g, cfg);
      var t, n := After(g, cfg), cfg.maxKeys;
      RemoveTake(Recent(g), r.key, n - 1);
      TakeFront(r.key, Remove(t.order, r.key), n);
      TakeFront(r.key, Remove(Recent(g), r.key), n);
      RemoveWithin(t.order, r.key);
      hide Remove, Recent, Served, BucketFor;
    }
  }

  lemma {:induction false} RemoveWithin(s: seq<string>, k: string)
    ensures forall x <- Remove(s, k) :: x in s
  {
    if s != [] && s[0] != k { RemoveWithin(s[1..], k); }
  }

  /** A key survives exactly while fewer than maxKeys other keys were requested since its last use. */
  lemma Survival(h: seq<Request>, k: string, cfg: Config)
    requires cfg.maxKeys >= 1
    ensures k in After(h, cfg).order <==> Requested(h, k) && |OthersSince(h, k)| < cfg.maxKeys
    ensures k in After(h, cfg).order ==>
      |OthersSince(h, k)| < |After(h, cfg).order| && After(h, cfg).order[|OthersSince(h, k)|] == k
    ensures k in After(h, cfg).buckets <==> k in After(h, cfg).order
  {
    hide Recent, After, OthersSince, Requested;
    TableIsRecentKeys(h, cfg);
    RecentIsRecency(h, k);
    BeforeSize(Recent(h), k);
    var all, kept := Recent(h), After(h, cfg).order;
    if k in kept {
      var i :| 0 <= i < |kept| && kept[i] == k;
      assert all[i] == k;
    }
    if k in all && |Before(all, k)| < cfg.maxKeys {
      assert kept[|Before(all, k)|] == k;
    }
    assert k in kept <==> k in Elements(kept);
  }

  // ---- the bounded table answers as one bucket per key would ----

  /** The limiter without a bound: one bucket per key, for ever. */
  function Unbounded(h: seq<Request>, cfg: Config): map<string, Bucket> {
    if h == [] then map[]
    else
      var r := h[|h| - 1];
      var buckets := Unbounded(h[..|h| - 1], cfg);
      buckets[r.key := Served(BucketFor(buckets, r, cfg), r.now, cfg)]
  }

  function UnboundedAllowed(h: seq<Request>, i: nat, cfg: Config): bool
    requires i < |h|
  {
    Grants(BucketFor(Unbounded(h[..i], cfg), h[i], cfg), h[i].now, cfg)
  }

  /** At each of its uses, k had been used before with fewer than maxKeys other keys since, or never. */
  ghost predicate NeverForgotten(h: seq<Request>, k: string, cfg: Config) {
    forall i {:trigger h[i]} :: 0 <= i < |h| && h[i].key == k && Requested(h[..i], k)
      ==> |OthersSince(h[..i], k)| < cfg.maxKeys
  }

  lemma NeverForgottenBefore(h: seq<Request>, k: string, cfg: Config)
    requires h != [] && NeverForgotten(h, k, cfg)
    ensures NeverForgotten(h[..|h| - 1], k, cfg)
  {
    var g := h[..|h| - 1];
    forall i | 0 <= i < |g| && g[i].key == k && Requested(g[..i], k)
      ensures |OthersSince(g[..i], k)| < cfg.maxKeys
    {
      assert g[..i] == h[..i] && h[i] == g[i];
    }
  }

  lemma {:induction false} UnboundedKeys(h: seq<Request>, k: string, cfg: Config)
    ensures k in Unbounded(h, cfg) <==> Requested(h, k)
  {
    if h != [] {
      var g, r := h[..|h| - 1], h[|h| - 1];
      assert h == g + [r];
      OthersStep(g, r, k);
      UnboundedKeys(g, k, cfg);
    }
  }

  /** A surviving key that was never forgotten has the bucket of the unbounded limiter. */
  lemma {:induction false} SameBucket(h: seq<Request>, k: string, cfg: Config)
    requires cfg.maxKeys >= 1 && NeverForgotten(h, k, cfg) && k in After(h, cfg).buckets
    ensures k in Unbounded(h, cfg) && Unbounded(h, cfg)[k] == After(h, cfg).buckets[k]
  {
    hide Served, Grants, Refilled;
    var g, r := h[..|h| - 1], h[|h| - 1];
    NeverForgottenBefore(h, k, cfg);
    UnboundedKeys(g, k, cfg);
    Survival(g, k, cfg);
    if k in After(g, cfg).buckets { SameBucket(g, k, cfg); }
    assert r == h[|h| - 1] && h[..|h| - 1] == g;
  }

  /** Refinement: a key that was never forgotten is answered exactly as without a bound. */
  lemma AnswersAsUnbounded(h: seq<Request>, i: nat, cfg: Config)
    requires cfg.maxKeys >= 1 && i < |h| && NeverForgotten(h[..i + 1], h[i].key, cfg)
    ensures Allowed(h, i, cfg) == UnboundedAllowed(h, i, cfg)
  {
    var g, k := h[..i], h[i].key;
    assert h[..i + 1][i] == h[i] && h[..i + 1][..i] == g && h[..i + 1][..|h[..i + 1]| - 1] == g;
    NeverForgottenBefore(h[..i + 1], k, cfg);
    UnboundedKeys(g, k, cfg);
    Survival(g, k, cfg);
    if k in After(g, cfg).buckets { SameBucket(g, k, cfg); }
  }

  ghost function AllKeys(h: seq<Request>): set<string> { set r | r in h :: r.key }

  /** While a run uses no more than maxKeys keys, the bound never shows. */
  lemma FewKeysNeverForgotten(h: seq<Request>, k: string, cfg: Config)
    requires |AllKeys(h)| <= cfg.maxKeys
    ensures NeverForgotten(h, k, cfg)
  {
    forall i | 0 <= i < |h| && h[i].key == k && Requested(h[..i], k)
      ensures |OthersSince(h[..i], k)| < cfg.maxKeys
    {
      var others := OthersSince(h[..i], k);
      assert k in AllKeys(h) && k !in others;
      forall x | x in others ensures x in AllKeys(h) {
        var j :| 0 <= j < i && h[..i][j].key == x;
        assert h[j] in h;
      }
      SubsetSize(others, AllKeys(h) - {k});
    }
  }

  // ---- the token bound ----

  ghost predicate Monotone(h: seq<Request>) { forall i, j :: 0 <= i < j < |h| ==> h[i].now <= h[j].now }

  lemma {:induction false} TokensBounded(h: seq<Request>, k: string, cfg: Config)
    requires Sensible(cfg) && Monotone(h) && k in After(h, cfg).buckets
    ensures 0.0 <= After(h, cfg).buckets[k].tokens <= cfg.burst
    ensures h != [] && After(h, cfg).buckets[k].last <= h[|h| - 1].now
  {
    var g, r := h[..|h| - 1], h[|h| - 1];
    if k in After(g, cfg).buckets {
      TokensBounded(g, k, cfg);
      assert g[|g| - 1].now <= r.now;
      if k == r.key {
        Elapsed(After(g, cfg).buckets[k], r.now, cfg);
      }
    } else {
      Elapsed(Bucket(cfg.burst, r.now), r.now, cfg);
    }
  }

  lemma GainNotNegative(elapsed: real, cfg: Config)
    requires elapsed >= 0.0 && cfg.rate >= 0.0
    ensures Gain(elapsed, cfg) >= 0.0
    ensures Gain(0.0, cfg) == 0.0
  {
  }

  lemma GainAdds(s: real, t: real, cfg: Config)
    ensures Gain(s, cfg) + Gain(t, cfg) == Gain(s + t, cfg)
  {
  }

  lemma Elapsed(b: Bucket, now: real, cfg: Config)
    requires cfg.rate >= 0.0 && b.last <= now && 0.0 <= b.tokens <= cfg.burst
    ensures 0.0 <= Refilled(b, now, cfg) <= cfg.burst
    ensures 0.0 <= Served(b, now, cfg).tokens <= cfg.burst
  {
    hide Gain;
    GainNotNegative(now - b.last, cfg);
  }

  /** What k can draw at once at a given time; a key without a bucket would start with a full one. */
  function Level(t: Table, k: string, now: real, cfg: Config): real {
    if k in t.buckets then Refilled(t.buckets[k], now, cfg) else cfg.burst
  }

  /** The requests of k allowed from position i on. */
  ghost function AllowedSince(h: seq<Request>, i: nat, k: string, cfg: Config): nat {
    if |h| <= i then 0
    else
      var n := |h| - 1;
      AllowedSince(h[..n], i, k, cfg) + (if h[n].key == k && Allowed(h, n, cfg) then 1 else 0)
  }

  /** How often k was dropped from the table from position i on. */
  ghost function EvictedSince(h: seq<Request>, i: nat, k: string, cfg: Config): nat {
    if |h| <= i then 0
    else
      var g := h[..|h| - 1];
      EvictedSince(g, i, k, cfg) + (if k in After(g, cfg).buckets && k !in After(h, cfg).buckets then 1 else 0)
  }

  /** So many full buckets, and what the rate yields in the elapsed time. */
  function Budget(buckets: int, elapsed: real, cfg: Config): real {
    cfg.burst * buckets as real + Gain(elapsed, cfg)
  }

  lemma BudgetAdds(m: int, n: int, s: real, t: real, cfg: Config)
    ensures Budget(m, s, cfg) + Budget(n, t, cfg) == Budget(m + n, s + t, cfg)
  {
    hide Gain;
    GainAdds(s, t, cfg);
    assert (m + n) as real == m as real + n as real;
  }

  lemma BudgetOfTime(t: real, cfg: Config)
    ensures Budget(0, t, cfg) == Gain(t, cfg)
    ensures Budget(1, 0.0, cfg) == cfg.burst && Budget(0, 0.0, cfg) == 0.0
  {
  }

  lemma LevelGrows(t: Table, k: string, earlier: real, later: real, cfg: Config)
    requires Sensible(cfg) && earlier <= later
    ensures Level(t, k, later, cfg) <= Level(t, k, earlier, cfg) + Budget(0, later - earlier, cfg)
  {
    hide Gain, Budget;
    BudgetOfTime(later - earlier, cfg);
    GainNotNegative(later - earlier, cfg);
    if k in t.buckets {
      GainAdds(earlier - t.buckets[k].last, later - earlier, cfg);
      assert earlier - t.buckets[k].last + (later - earlier) == later - t.buckets[k].last;
    }
  }

  lemma LevelNotNegative(h: seq<Request>, k: string, now: real, cfg: Config)
    requires Sensible(cfg) && Monotone(h) && (h != [] ==> h[|h| - 1].now <= now)
    ensures 0.0 <= Level(After(h, cfg), k, now, cfg) <= cfg.burst
  {
    if k in After(h, cfg).buckets {
      TokensBounded(h, k, cfg);
      Elapsed(After(h, cfg).buckets[k], now, cfg);
    }
  }

  /** A request takes from its key what it grants. */
  lemma ServedPays(b: Bucket, now: real, cfg: Config)
    ensures (if Grants(b, now, cfg) then 1.0 else 0.0) + Refilled(Served(b, now, cfg), now, cfg) <= Refilled(b, now, cfg)
    ensures Refilled(Bucket(cfg.burst, now), now, cfg) == cfg.burst
  {
    assert now - now == 0.0 && Gain(0.0, cfg) == 0.0;
  }

  /** The table keeps the key it was asked for, and of the others what it held. */
  lemma StepBuckets(t: Table, r: Request, k: string, cfg: Config)
    requires cfg.maxKeys >= 1
    ensures r.key in Step(t, r, cfg).buckets
    ensures Step(t, r, cfg).buckets[r.key] == Served(BucketFor(t.buckets, r, cfg), r.now, cfg)
    ensures k != r.key && k in Step(t, r, cfg).buckets ==> k in t.buckets && Step(t, r, cfg).buckets[k] == t.buckets[k]
  {
    hide Served, BucketFor, Remove;
    assert Step(t, r, cfg).order[0] == r.key;
  }

  /** A request pays for its own grant; only an eviction refills a level. */
  lemma LevelStep(g: seq<Request>, r: Request, k: string, cfg: Config)
    requires Sensible(cfg) && Monotone(g + [r])
    ensures (if r.key == k && Allowed(g + [r], |g|, cfg) then 1.0 else 0.0) + Level(After(g + [r], cfg), k, r.now, cfg)
         <= Level(After(g, cfg), k, r.now, cfg)
            + (if k in After(g, cfg).buckets && k !in After(g + [r], cfg).buckets then cfg.burst else 0.0)
  {
    hide Refilled, Served, Grants;
    var h, t := g + [r], After(g, cfg);
    assert h[..|h| - 1] == g && h[..|g|] == g && h[|g|] == r;
    assert forall i :: 0 <= i < |g| ==> g[i] == h[i];
    LevelNotNegative(g, k, r.now, cfg);
    assert After(h, cfg) == Step(t, r, cfg);
    StepBuckets(t, r, k, cfg);
    hide After, Sensible, Monotone, Step;
    ServedPays(BucketFor(t.buckets, r, cfg), r.now, cfg);
  }

  /** What the last request of a history adds to both sides of the bound. */
  lemma SinceStep(g: seq<Request>, r: Request, i: nat, k: string, cfg: Config)
    requires Sensible(cfg) && Monotone(g + [r]) && i <= |g|
    ensures var h := g + [r];
      AllowedSince(h, i, k, cfg) as real + Level(After(h, cfg), k, r.now, cfg)
      <= AllowedSince(g, i, k, cfg) as real + Level(After(g, cfg), k, r.now, cfg)
         + Budget(EvictedSince(h, i, k, cfg) - EvictedSince(g, i, k, cfg), 0.0, cfg)
  {
    hide Level, After, Allowed, Budget;
    var h := g + [r];
    assert h[..|h| - 1] == g;
    LevelStep(g, r, k, cfg);
    BudgetOfTime(0.0, cfg);
  }

  lemma {:induction false} LevelPays(h: seq<Request>, i: nat, k: string, cfg: Config)
    requires Sensible(cfg) && Monotone(h) && i < |h|
    ensures AllowedSince(h, i, k, cfg) as real + Level(After(h, cfg), k, h[|h| - 1].now, cfg)
         <= Budget(1 + EvictedSince(h, i, k, cfg), h[|h| - 1].now - h[i].now, cfg)
  {
    hide Level, After, Allowed, Budget, AllowedSince, EvictedSince;
    var n := |h| - 1;
    var g, r := h[..n], h[n];
    var start, before := h[i].now, 1 + EvictedSince(h[..n], i, k, cfg);
    assert h == g + [r] && Monotone(g) && (n > 0 ==> g[n - 1].now <= r.now);
    hide Sensible, Monotone;
    SinceStep(g, r, i, k, cfg);
    BudgetAdds(before, EvictedSince(h, i, k, cfg) - EvictedSince(g, i, k, cfg), r.now - start, 0.0, cfg);
    if i < n {
      var prior := g[n - 1].now;
      assert g[i].now == start;
      LevelPays(g, i, k, cfg);
      LevelGrows(After(g, cfg), k, prior, r.now, cfg);
      BudgetAdds(before, 0, prior - start, r.now - prior, cfg);
    } else {
      NoneYet(g, i, k, r.now, cfg);
    }
  }

  lemma NoneYet(g: seq<Request>, i: nat, k: string, now: real, cfg: Config)
    requires Sensible(cfg) && Monotone(g) && |g| <= i && (g != [] ==> g[|g| - 1].now <= now)
    ensures AllowedSince(g, i, k, cfg) as real + Level(After(g, cfg), k, now, cfg)
         <= Budget(1 + EvictedSince(g, i, k, cfg), 0.0, cfg)
  {
    LevelNotNegative(g, k, now, cfg);
    BudgetOfTime(0.0, cfg);
  }

  /**
    The promise of the limiter: between any two requests, the requests of a key that were let
    through number at most the burst plus what the rate yields in that time, and one more burst
    for each time the table dropped the key in between.
  */
  lemma TokenBound(h: seq<Request>, i: nat, j: nat, k: string, cfg: Config)
    requires Sensible(cfg) && Monotone(h) && i < j <= |h|
    ensures AllowedSince(h[..j], i, k, cfg) as real
         <= cfg.burst * (1 + EvictedSince(h[..j], i, k, cfg)) as real + (h[j - 1].now - h[i].now) * cfg.rate
  {
    hide Level, AllowedSince, EvictedSince, After;
    assert Monotone(h[..j]);
    hide Sensible, Monotone;
    LevelPays(h[..j], i, k, cfg);
    LevelNotNegative(h[..j], k, h[j - 1].now, cfg);
    assert h[..j][j - 1] == h[j - 1] && h[..j][i] == h[i];
  }
}
