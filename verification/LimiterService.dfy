/**
  When the limiter lets a request through: exactly if no window of time that ends with it is
  overdrawn. Windows begin at the uses of the key since the table last took it in.
*/
module LimiterService {
  import opened LimiterModel

  /** Position i is a use of k, and the table has kept k since. */
  ghost predicate WindowStart(g: seq<Request>, i: int, k: string, cfg: Config) {
    0 <= i < |g| && g[i].key == k && EvictedSince(g, i, k, cfg) == 0
  }

  /** What the window from use i leaves at a later time: the burst and what the rate yields, less what was granted. */
  ghost function Left(g: seq<Request>, i: nat, k: string, now: real, cfg: Config): real
    requires i < |g|
  {
    cfg.burst + Gain(now - g[i].now, cfg) - AllowedSince(g, i, k, cfg) as real
  }

  /** x is the least of the burst and of what the windows leave. */
  ghost predicate IsLeast(x: real, g: seq<Request>, k: string, now: real, cfg: Config) {
    && x <= cfg.burst
    && (forall i :: WindowStart(g, i, k, cfg) ==> x <= Left(g, i, k, now, cfg))
    && (x == cfg.burst || exists i :: WindowStart(g, i, k, cfg) && x == Left(g, i, k, now, cfg))
  }

  lemma {:induction false} WindowKeepsKey(g: seq<Request>, i: int, k: string, cfg: Config)
    requires cfg.maxKeys >= 1 && WindowStart(g, i, k, cfg)
    ensures k in After(g, cfg).buckets
  {
    var n := |g| - 1;
    StepBuckets(After(g[..n], cfg), g[n], k, cfg);
    if i < n {
      hide After, Step;
      WindowKeepsKey(g[..n], i, k, cfg);
    }
  }

  /** The windows after one more request. */
  lemma WindowsStep(g: seq<Request>, r: Request, i: int, k: string, cfg: Config)
    requires cfg.maxKeys >= 1 && k in After(g + [r], cfg).buckets
    ensures i < |g| ==> (WindowStart(g + [r], i, k, cfg) <==> WindowStart(g, i, k, cfg))
    ensures i == |g| ==> (WindowStart(g + [r], i, k, cfg) <==> r.key == k)
    ensures i > |g| ==> !WindowStart(g + [r], i, k, cfg)
    ensures 0 <= i <= |g| ==>
      AllowedSince(g + [r], i, k, cfg) == AllowedSince(g, i, k, cfg) + (if r.key == k && Allowed(g + [r], |g|, cfg) then 1 else 0)
  {
    hide After, Allowed;
    var h := g + [r];
    assert h[..|h| - 1] == g && h[|g|] == r;
    if 0 <= i <= |g| { assert EvictedSince(h, i, k, cfg) == EvictedSince(g, i, k, cfg); }
    assert EvictedSince(g, |g|, k, cfg) == 0;
  }

  /** A key that is new to the table has no window yet. */
  lemma NewKeyHasNoWindow(g: seq<Request>, k: string, cfg: Config)
    requires cfg.maxKeys >= 1 && k !in After(g, cfg).buckets
    ensures forall i :: !WindowStart(g, i, k, cfg)
  {
    hide WindowStart;
    forall i ensures !WindowStart(g, i, k, cfg) {
      if WindowStart(g, i, k, cfg) { WindowKeepsKey(g, i, k, cfg); }
    }
  }

  function Least(a: real, b: real): real { if a < b then a else b }

  /** What a served bucket holds later. */
  lemma ServedLater(b: Bucket, now: real, later: real, cfg: Config)
    ensures Refilled(Served(b, now, cfg), later, cfg)
         == Least(cfg.burst, Refilled(b, now, cfg) - (if Grants(b, now, cfg) then 1.0 else 0.0) + Gain(later - now, cfg))
  {
  }

  lemma LeftLater(g: seq<Request>, r: Request, i: nat, k: string, later: real, cfg: Config)
    requires cfg.maxKeys >= 1 && r.key == k && k in After(g + [r], cfg).buckets && i <= |g|
    ensures var paid := if Allowed(g + [r], |g|, cfg) then 1.0 else 0.0;
      Left(g + [r], i, k, later, cfg)
      == (if i < |g| then Left(g, i, k, r.now, cfg) else cfg.burst) - paid + Gain(later - r.now, cfg)
  {
    hide Gain, AllowedSince, EvictedSince, Allowed, After, WindowStart;
    WindowsStep(g, r, i, k, cfg);
    var paid := if Allowed(g + [r], |g|, cfg) then 1.0 else 0.0;
    assert AllowedSince(g + [r], i, k, cfg) as real == AllowedSince(g, i, k, cfg) as real + paid;
    if i < |g| {
      GainAdds(r.now - g[i].now, later - r.now, cfg);
      assert r.now - g[i].now + (later - r.now) == later - g[i].now;
    } else {
      NoneSince(g, i, k, cfg);
    }
  }

  lemma NoneSince(g: seq<Request>, i: nat, k: string, cfg: Config)
    requires |g| <= i
    ensures AllowedSince(g, i, k, cfg) == 0
  {
  }

  /** A use of the key: what is left at once is the least before, less the grant. */
  lemma LeastAfterUse(g: seq<Request>, r: Request, x: real, later: real, cfg: Config)
    requires cfg.maxKeys >= 1 && r.key in After(g + [r], cfg).buckets && IsLeast(x, g, r.key, r.now, cfg)
    ensures var paid := if Allowed(g + [r], |g|, cfg) then 1.0 else 0.0;
      IsLeast(Least(cfg.burst, x - paid + Gain(later - r.now, cfg)), g + [r], r.key, later, cfg)
  {
    var h, k, n := g + [r], r.key, |g|;
    var paid := if Allowed(h, n, cfg) then 1.0 else 0.0;
    var y := Least(cfg.burst, x - paid + Gain(later - r.now, cfg));
    hide Left, WindowStart, Gain, Allowed, After;
    forall i | WindowStart(h, i, k, cfg)
      ensures 0 <= i <= n && (i < n ==> WindowStart(g, i, k, cfg)) && y <= Left(h, i, k, later, cfg)
    {
      WindowsStep(g, r, i, k, cfg);
      WindowRange(h, i, k, cfg);
      LeftLater(g, r, i, k, later, cfg);
    }
    WindowsStep(g, r, n, k, cfg);
    LeftLater(g, r, n, k, later, cfg);
    if x != cfg.burst {
      var i :| WindowStart(g, i, k, cfg) && x == Left(g, i, k, r.now, cfg);
      WindowRange(g, i, k, cfg);
      WindowsStep(g, r, i, k, cfg);
      LeftLater(g, r, i, k, later, cfg);
    }
  }

  lemma WindowRange(g: seq<Request>, i: int, k: string, cfg: Config)
    requires WindowStart(g, i, k, cfg)
    ensures 0 <= i < |g|
  {
  }

  /** A request of another key, which the table survives. */
  lemma LeastAfterOther(g: seq<Request>, r: Request, k: string, x: real, now: real, cfg: Config)
    requires cfg.maxKeys >= 1 && k != r.key && k in After(g + [r], cfg).buckets && IsLeast(x, g, k, now, cfg)
    ensures IsLeast(x, g + [r], k, now, cfg)
  {
    var h := g + [r];
    hide WindowStart, Gain, Allowed, After, AllowedSince;
    forall i ensures WindowStart(h, i, k, cfg) <==> WindowStart(g, i, k, cfg) {
      WindowsStep(g, r, i, k, cfg);
      if WindowStart(g, i, k, cfg) { WindowRange(g, i, k, cfg); }
    }
    forall i | WindowStart(h, i, k, cfg) ensures 0 <= i < |g| && Left(h, i, k, now, cfg) == Left(g, i, k, now, cfg) {
      WindowRange(g, i, k, cfg);
      WindowsStep(g, r, i, k, cfg);
    }
  }

  /** A bucket holds at any time the least of the burst and of what its windows leave. */
  lemma {:induction false} BucketIsLeast(h: seq<Request>, k: string, now: real, cfg: Config)
    requires cfg.maxKeys >= 1 && k in After(h, cfg).buckets
    ensures IsLeast(Refilled(After(h, cfg).buckets[k], now, cfg), h, k, now, cfg)
    decreases |h|, 0
  {
    hide Refilled, Served, IsLeast, BucketFor, Step;
    var n := |h| - 1;
    var g, r := h[..n], h[n];
    assert h == g + [r] && After(h, cfg) == Step(After(g, cfg), r, cfg);
    hide After;
    StepBuckets(After(g, cfg), r, k, cfg);
    if k != r.key {
      BucketIsLeast(g, k, now, cfg);
      LeastAfterOther(g, r, k, Refilled(After(g, cfg).buckets[k], now, cfg), now, cfg);
    } else {
      var b := BucketFor(After(g, cfg).buckets, r, cfg);
      AllowedLast(g, r, cfg);
      LeastBefore(g, r, cfg);
      ServedLater(b, r.now, now, cfg);
      LeastAfterUse(g, r, Refilled(b, r.now, cfg), now, cfg);
    }
  }

  lemma AllowedLast(g: seq<Request>, r: Request, cfg: Config)
    ensures Allowed(g + [r], |g|, cfg) == Grants(BucketFor(After(g, cfg).buckets, r, cfg), r.now, cfg)
  {
    assert (g + [r])[..|g|] == g;
  }

  /** The same of the bucket that a request finds or is given. */
  lemma LeastBefore(g: seq<Request>, r: Request, cfg: Config)
    requires cfg.maxKeys >= 1
    ensures IsLeast(Refilled(BucketFor(After(g, cfg).buckets, r, cfg), r.now, cfg), g, r.key, r.now, cfg)
    decreases |g|, 1
  {
    if r.key in After(g, cfg).buckets {
      hide Refilled, IsLeast;
      BucketIsLeast(g, r.key, r.now, cfg);
    } else {
      NewKeyHasNoWindow(g, r.key, cfg);
      FullBucket(r.now, cfg);
    }
  }

  lemma FullBucket(now: real, cfg: Config)
    ensures Refilled(Bucket(cfg.burst, now), now, cfg) == cfg.burst
  {
    assert now - now == 0.0 && Gain(0.0, cfg) == 0.0;
  }

  // ---- who is let through ----

  /** The requests of k let through in h[i..], and one more, are within the burst and what the rate yields until now. */
  ghost predicate WindowAllows(h: seq<Request>, i: nat, k: string, now: real, cfg: Config)
    requires i < |h|
  {
    AllowedSince(h, i, k, cfg) as real + 1.0 <= cfg.burst + (now - h[i].now) * cfg.rate
  }

  /**
    The other half of the token bound, over every history: a request is let through exactly if there
    is a whole token in the burst and every window that begins at a use of its key since the table
    last took the key in can pay for one more.
  */
  lemma AllowedExactlyIf(h: seq<Request>, n: nat, cfg: Config)
    requires cfg.maxKeys >= 1 && n < |h|
    ensures Allowed(h, n, cfg) <==>
      && cfg.burst >= 1.0
      && forall i :: WindowStart(h[..n], i, h[n].key, cfg) ==> WindowAllows(h[..n], i, h[n].key, h[n].now, cfg)
  {
    var g, r := h[..n], h[n];
    var level := Refilled(BucketFor(After(g, cfg).buckets, r, cfg), r.now, cfg);
    LeastBefore(g, r, cfg);
    assert Allowed(h, n, cfg) <==> level >= 1.0;
    hide After, Refilled, BucketFor, Allowed, WindowStart, AllowedSince;
    forall i | WindowStart(g, i, r.key, cfg)
      ensures 0 <= i < |g| && (WindowAllows(g, i, r.key, r.now, cfg) <==> Left(g, i, r.key, r.now, cfg) >= 1.0)
    {
      WindowRange(g, i, r.key, cfg);
    }
  }

  /** The first request of a key is let through, if the burst holds a whole token. */
  lemma FirstIsAllowed(h: seq<Request>, n: nat, cfg: Config)
    requires cfg.maxKeys >= 1 && n < |h| && cfg.burst >= 1.0 && forall i :: 0 <= i < n ==> h[i].key != h[n].key
    ensures Allowed(h, n, cfg)
  {
    hide Allowed, WindowAllows, EvictedSince;
    AllowedExactlyIf(h, n, cfg);
  }

  /** So is one whose key was last used long enough ago for the rate to yield a token. */
  lemma RestedIsAllowed(h: seq<Request>, j: nat, n: nat, cfg: Config)
    requires Sensible(cfg) && Monotone(h) && cfg.burst >= 1.0 && j < n < |h|
    requires h[j].key == h[n].key && forall i :: j < i < n ==> h[i].key != h[n].key
    requires (h[n].now - h[j].now) * cfg.rate >= 1.0
    ensures Allowed(h, n, cfg)
  {
    hide Sensible, Monotone, Allowed;
    assert Gain(h[n].now - h[j].now, cfg) >= 1.0;
    RestedGains(h, j, n, cfg);
  }

  lemma RestedGains(h: seq<Request>, j: nat, n: nat, cfg: Config)
    requires Sensible(cfg) && Monotone(h) && cfg.burst >= 1.0 && j < n < |h|
    requires h[j].key == h[n].key && forall i :: j < i < n ==> h[i].key != h[n].key
    requires Gain(h[n].now - h[j].now, cfg) >= 1.0
    ensures Allowed(h, n, cfg)
  {
    hide After, Gain;
    var g := h[..n];
    if h[n].key in After(g, cfg).buckets {
      LastUse(g, j, h[n].key, cfg);
      TokensBounded(g, h[n].key, cfg);
    } else {
      FullBucket(h[n].now, cfg);
    }
  }

  /** A bucket was drawn from when its key was last used. */
  lemma {:induction false} LastUse(g: seq<Request>, j: nat, k: string, cfg: Config)
    requires cfg.maxKeys >= 1 && j < |g| && g[j].key == k && (forall i :: j < i < |g| ==> g[i].key != k)
    requires k in After(g, cfg).buckets
    ensures After(g, cfg).buckets[k].last == g[j].now
  {
    var n := |g| - 1;
    StepBuckets(After(g[..n], cfg), g[n], k, cfg);
    if j < n { LastUse(g[..n], j, k, cfg); }
  }
}
