/** The per-key token-bucket limiter, over whole runs of requests and sweeps. Time is in seconds. */
module RateLimiting {

  datatype Limits = Limits(rate: real, burst: real, idle: real)

  datatype Bucket = Bucket(tokens: real, lastFill: real)

  type Buckets = map<string, Bucket>

  function Min(x: real, y: real): real { if x <= y then x else y }

  // ---------- one call ----------

  /** Tokens gained over `elapsed` seconds. */
  function Gain(l: Limits, elapsed: real): real {
    elapsed * l.rate
  }

  function Refilled(l: Limits, b: Bucket, now: real): real {
    Min(l.burst, b.tokens + Gain(l, now - b.lastFill))
  }

  function Allow(l: Limits, m: Buckets, key: string, now: real): (Buckets, bool) {
    if key !in m then (m[key := Bucket(l.burst - 1.0, now)], true)
    else
      var tokens := Refilled(l, m[key], now);
      if tokens < 1.0 then (m[key := Bucket(tokens, now)], false)
      else (m[key := Bucket(tokens - 1.0, now)], true)
  }

  function Idle(l: Limits, b: Bucket, now: real): bool {
    b.lastFill < now - l.idle
  }

  function Sweep(l: Limits, m: Buckets, now: real): Buckets {
    map k | k in m && !Idle(l, m[k], now) :: m[k]
  }

  class RateLimiter {
    const limits: Limits
    var buckets: Buckets

    constructor (limits: Limits)
      ensures this.limits == limits && buckets == map[]
    {
      this.limits, buckets := limits, map[];
    }

    method Request(key: string, now: real) returns (ok: bool)
      modifies this
      ensures (buckets, ok) == Allow(limits, old(buckets), key, now)
    {
      if key !in buckets {
        buckets := buckets[key := Bucket(limits.burst - 1.0, now)];
        return true;
      }
      var elapsed := now - buckets[key].lastFill;
      var tokens := buckets[key].tokens + Gain(limits, elapsed);
      if tokens > limits.burst { tokens := limits.burst; }
      buckets := buckets[key := Bucket(tokens, now)];
      if tokens < 1.0 { return false; }
      buckets := buckets[key := Bucket(tokens - 1.0, now)];
      ok := true;
      assert buckets == old(buckets)[key := Bucket(tokens - 1.0, now)];
    }

    method Reap(now: real)
      modifies this
      ensures buckets == Sweep(limits, old(buckets), now)
      ensures forall k :: k in buckets <==> k in old(buckets) && now - old(buckets)[k].lastFill <= limits.idle
      ensures forall k | k in buckets :: buckets[k] == old(buckets)[k]
    {
      var cutoff := now - limits.idle;
      var keys := buckets.Keys;
      while keys != {}
        invariant keys <= buckets.Keys <= old(buckets).Keys
        invariant forall k | k in buckets :: buckets[k] == old(buckets)[k]
        invariant forall k | k in old(buckets) && k !in keys :: k in buckets <==> !Idle(limits, old(buckets)[k], now)
        decreases keys
      {
        var k :| k in keys;
        keys := keys - {k};
        if buckets[k].lastFill < cutoff { buckets := buckets - {k}; }
      }
    }
  }

  // ---------- runs ----------

  datatype Op = Request(key: string, at: real) | Reap(at: real)

  function Step(l: Limits, m: Buckets, op: Op): (Buckets, bool) {
    match op
    case Request(key, at) => Allow(l, m, key, at)
    case Reap(at) => (Sweep(l, m, at), false)
  }

  function After(l: Limits, ops: seq<Op>): Buckets {
    if ops == [] then map[] else Step(l, After(l, ops[..|ops| - 1]), ops[|ops| - 1]).0
  }

  /** Whether the operation after `ops` is an allowed request. */
  function Answer(l: Limits, ops: seq<Op>, op: Op): bool {
    Step(l, After(l, ops), op).1
  }

  predicate Ordered(ops: seq<Op>) {
    forall i, j | 0 <= i < j < |ops| :: ops[i].at <= ops[j].at
  }

  predicate Valid(l: Limits) {
    l.burst >= 1.0 && l.rate >= 0.0
  }

  /** A swept bucket would have been full again. */
  predicate SweepsOnlyFull(l: Limits) {
    Gain(l, l.idle) >= l.burst
  }

  /** The tokens a request by `key` at time `t` would find. */
  function Level(l: Limits, m: Buckets, key: string, t: real): real {
    if key in m then Refilled(l, m[key], t) else l.burst
  }

  /** Buckets hold between zero and burst tokens and were filled in the past. */
  predicate Sound(l: Limits, m: Buckets, now: real) {
    forall k | k in m :: 0.0 <= m[k].tokens <= l.burst && m[k].lastFill <= now
  }

  lemma GainMonotone(l: Limits, x: real, y: real)
    requires x <= y && l.rate >= 0.0
    ensures Gain(l, x) <= Gain(l, y)
    ensures x >= 0.0 ==> Gain(l, x) >= 0.0
  {
    assert Gain(l, y) - Gain(l, x) == (y - x) * l.rate;
  }

  lemma GainIs(l: Limits, elapsed: real)
    ensures Gain(l, elapsed) == l.rate * elapsed
  {
  }

  lemma GainAdds(l: Limits, x: real, y: real)
    ensures Gain(l, x + y) == Gain(l, x) + Gain(l, y)
  {
  }

  lemma LevelBounds(l: Limits, m: Buckets, key: string, t: real)
    requires Valid(l) && Sound(l, m, t)
    ensures 0.0 <= Level(l, m, key, t) <= l.burst
  {
    if key in m { GainMonotone(l, 0.0, t - m[key].lastFill); }
  }

  lemma LevelGrows(l: Limits, m: Buckets, key: string, t: real, u: real)
    requires Valid(l) && Sound(l, m, t) && t <= u
    ensures Level(l, m, key, t) <= Level(l, m, key, u) <= Level(l, m, key, t) + Gain(l, u - t)
  {
    GainMonotone(l, 0.0, u - t);
    if key in m { Later(l, m[key], t, u); }
  }

  lemma Later(l: Limits, b: Bucket, t: real, u: real)
    ensures Gain(l, u - b.lastFill) == Gain(l, t - b.lastFill) + Gain(l, u - t)
  {
    GainAdds(l, t - b.lastFill, u - t);
    assert t - b.lastFill + (u - t) == u - b.lastFill;
  }

  lemma SoundStep(l: Limits, m: Buckets, op: Op)
    requires Valid(l) && Sound(l, m, op.at)
    ensures Sound(l, Step(l, m, op).0, op.at)
  {
    if op.Request? { LevelBounds(l, m, op.key, op.at); }
  }

  lemma {:induction false} SoundRun(l: Limits, ops: seq<Op>, now: real)
    requires Valid(l) && Ordered(ops) && (ops != [] ==> ops[|ops| - 1].at <= now)
    ensures Sound(l, After(l, ops), now)
  {
    if ops == [] {
    } else {
      var n := |ops| - 1;
      SoundRun(l, ops[..n], ops[n].at);
      SoundStep(l, After(l, ops[..n]), ops[n]);
    }
  }

  /** The level is all there is to a bucket: it decides the answer, an allowed request takes one token off it,
      and nothing else moves it -- not a refusal, not another key, and not a sweep of full buckets. */
  lemma LevelStep(l: Limits, m: Buckets, op: Op, key: string, t: real)
    requires Valid(l) && Sound(l, m, op.at) && op.at <= t
    requires op.Reap? ==> SweepsOnlyFull(l)
    ensures var (m', ok) := Step(l, m, op);
      && (op.Request? ==> (ok <==> Level(l, m, op.key, op.at) >= 1.0))
      && Level(l, m', key, t) ==
           if ok && op.key == key then Min(l.burst, Level(l, m, key, op.at) - 1.0 + Gain(l, t - op.at))
           else Level(l, m, key, t)
  {
    GainMonotone(l, 0.0, t - op.at);
    if op.Request? {
      if key in m { Later(l, m[key], op.at, t); }
    } else if key in m && Idle(l, m[key], op.at) {
      GainMonotone(l, l.idle, t - m[key].lastFill);
    }
  }

  // ---------- the bound over every window ----------

  /** Requests of `key` allowed among operations i .. j-1 of the run. */
  function Allowed(l: Limits, ops: seq<Op>, i: nat, j: nat, key: string): nat
    requires j <= |ops|
  {
    if j <= i then 0
    else Allowed(l, ops, i, j - 1, key) +
         if ops[j - 1].Request? && ops[j - 1].key == key && Answer(l, ops[..j - 1], ops[j - 1]) then 1 else 0
  }

  predicate NoSweep(ops: seq<Op>) {
    forall op | op in ops :: op.Request?
  }

  lemma {:induction false} Budget(l: Limits, ops: seq<Op>, i: nat, j: nat, key: string, t0: real, t: real)
    requires Valid(l) && Ordered(ops) && (SweepsOnlyFull(l) || NoSweep(ops))
    requires i <= j <= |ops| && t0 <= t && forall k | i <= k < j :: t0 <= ops[k].at <= t
    requires j > 0 ==> ops[j - 1].at <= t
    ensures Allowed(l, ops, i, j, key) as real + Level(l, After(l, ops[..j]), key, t) <= l.burst + Gain(l, t - t0)
  {
    GainMonotone(l, 0.0, t - t0);
    if i == j {
      SoundRun(l, ops[..j], t);
      LevelBounds(l, After(l, ops[..j]), key, t);
    } else {
      var op := ops[j - 1];
      var u, m := op.at, After(l, ops[..j - 1]);
      Budget(l, ops, i, j - 1, key, t0, u);
      SoundRun(l, ops[..j - 1], u);
      assert op in ops;
      Spend(l, m, op, key, u, t);
      assert ops[..j][..j - 1] == ops[..j - 1];
      GainAdds(l, u - t0, t - u);
      assert u - t0 + (t - u) == t - t0;
    }
  }

  /** What an operation at time `u` lets through comes out of the level. */
  lemma Spend(l: Limits, m: Buckets, op: Op, key: string, u: real, t: real)
    requires Valid(l) && Sound(l, m, u) && op.at == u <= t && (op.Reap? ==> SweepsOnlyFull(l))
    ensures var (m', ok) := Step(l, m, op);
      Level(l, m', key, t) + (if ok && op.key == key then 1.0 else 0.0) <= Level(l, m, key, u) + Gain(l, t - u)
  {
    SoundStep(l, m, op);
    LevelStep(l, m, op, key, u);
    LevelBounds(l, m, key, u);
    assert Gain(l, u - u) == 0.0;
    LevelGrows(l, Step(l, m, op).0, key, u, t);
  }

  /** In every run and every window [t0, t1], a key gets at most burst + rate * (t1 - t0) requests through. */
  lemma WindowBound(l: Limits, ops: seq<Op>, i: nat, j: nat, key: string, t0: real, t1: real)
    requires Valid(l) && Ordered(ops) && (l.rate * l.idle >= l.burst || NoSweep(ops))
    requires i <= j <= |ops| && t0 <= t1 && forall k | i <= k < j :: t0 <= ops[k].at <= t1
    ensures Allowed(l, ops, i, j, key) as real <= l.burst + l.rate * (t1 - t0)
  {
    hide Gain, After, Level, Allowed;
    GainIs(l, t1 - t0);
    GainIs(l, l.idle);
    if i < j {
      Budget(l, ops, i, j, key, t0, t1);
      SoundRun(l, ops[..j], t1);
      LevelBounds(l, After(l, ops[..j]), key, t1);
    } else {
      NoneAllowed(l, ops, i, j, key);
      GainMonotone(l, 0.0, t1 - t0);
    }
  }

  lemma NoneAllowed(l: Limits, ops: seq<Op>, i: nat, j: nat, key: string)
    requires j <= i && j <= |ops|
    ensures Allowed(l, ops, i, j, key) == 0
  {
  }

  // ---------- patient clients ----------

  lemma {:induction false} LastFillWasRequest(l: Limits, ops: seq<Op>, key: string)
    requires key in After(l, ops)
    ensures Request(key, After(l, ops)[key].lastFill) in ops
  {
    var n := |ops| - 1;
    if ops[n] == Request(key, After(l, ops)[key].lastFill) {
    } else {
      LastFillWasRequest(l, ops[..n], key);
    }
  }

  /** A key whose requests are at least 1/rate apart is never refused, with or without sweeps. */
  lemma PatientNeverRefused(l: Limits, ops: seq<Op>, key: string, at: real)
    requires Valid(l) && l.rate > 0.0 && Ordered(ops + [Request(key, at)])
    requires forall op | op in ops && op.Request? && op.key == key :: at - op.at >= 1.0 / l.rate
    ensures Answer(l, ops, Request(key, at))
  {
    var m := After(l, ops);
    if key in m {
      LastFillWasRequest(l, ops, key);
      PrefixOrdered(ops, Request(key, at));
      SoundRun(l, ops, at);
      GainMonotone(l, 1.0 / l.rate, at - m[key].lastFill);
      assert Gain(l, 1.0 / l.rate) == 1.0;
    }
  }

  lemma PrefixOrdered(ops: seq<Op>, op: Op)
    requires Ordered(ops + [op])
    ensures Ordered(ops) && (ops != [] ==> ops[|ops| - 1].at <= op.at)
  {
    var all := ops + [op];
    forall i | 0 <= i < |ops| ensures ops[i] == all[i] {}
    if ops != [] { assert all[|ops| - 1].at <= all[|ops|].at; }
  }

  // ---------- exactly how much a client gets ----------

  /** The level after a wait decides the next request: tokens come in at the rate, up to the burst. */
  lemma RefillExactly(l: Limits, ops: seq<Op>, key: string, t: real, at: real)
    requires Valid(l) && Until(ops, t) && t <= at
    ensures var x := Level(l, After(l, ops), key, t);
      && (Answer(l, ops, Request(key, at)) <==> x + l.rate * (at - t) >= 1.0)
      && Level(l, After(l, ops), key, at) == Min(l.burst, x + l.rate * (at - t))
  {
    hide Gain, After, Level, Answer;
    GainIs(l, at - t);
    WaitTellsApart(l, ops, key, t, at);
    SoundRun(l, ops, t);
    LevelLater(l, After(l, ops), key, t, at);
  }

  function Repeated(key: string, t: real, n: nat): seq<Op> {
    if n == 0 then [] else Repeated(key, t, n - 1) + [Request(key, t)]
  }

  lemma {:induction false} BurstLevel(l: Limits, ops: seq<Op>, key: string, t: real, n: nat)
    requires Valid(l) && Until(ops, t) && forall op | op in ops :: !(op.Request? && op.key == key)
    ensures Until(ops + Repeated(key, t, n), t)
    ensures Level(l, After(l, ops + Repeated(key, t, n)), key, t) ==
      l.burst - (if n <= l.burst.Floor then n else l.burst.Floor) as real
  {
    var m := After(l, ops);
    if n == 0 {
      assert ops + Repeated(key, t, n) == ops;
      if key in m { LastFillWasRequest(l, ops, key); }
    } else {
      hide Gain, After, Level;
      var before := ops + Repeated(key, t, n - 1);
      BurstLevel(l, ops, key, t, n - 1);
      assert ops + Repeated(key, t, n) == before + [Request(key, t)];
      RequestLevel(l, before, key, t);
      BurstCounts(l.burst, n);
    }
  }

  lemma BurstCounts(burst: real, n: nat)
    requires n > 0
    ensures var left := burst - (if n - 1 <= burst.Floor then n - 1 else burst.Floor) as real;
      burst - (if n <= burst.Floor then n else burst.Floor) as real == if left >= 1.0 then left - 1.0 else left
  {
    if n <= burst.Floor { assert (n - 1) as real + 1.0 == n as real <= burst.Floor as real; }
  }

  /** A request at the instant of the level takes a token if there is one. */
  lemma RequestLevel(l: Limits, p: seq<Op>, key: string, t: real)
    requires Valid(l) && Until(p, t)
    ensures Until(p + [Request(key, t)], t)
    ensures var x := Level(l, After(l, p), key, t);
      Level(l, After(l, p + [Request(key, t)]), key, t) == if x >= 1.0 then x - 1.0 else x
  {
    UntilNext(p, Request(key, t), t);
    if Level(l, After(l, p), key, t) >= 1.0 {
      SpendOne(l, p, key, t);
    } else {
      AfterNext(l, p, Request(key, t));
      SoundRun(l, p, t);
      LevelStep(l, After(l, p), Request(key, t), key, t);
    }
  }

  lemma Nothing(l: Limits, t: real)
    ensures l.rate * (t - t) == 0.0
  {
    assert t - t == 0.0;
  }

  /** A client that was never seen gets exactly its burst at once: the first requests up to the burst are allowed, and
      not one more. */
  lemma FreshBurst(l: Limits, ops: seq<Op>, key: string, t: real, n: nat)
    requires Valid(l) && Until(ops, t) && forall op | op in ops :: !(op.Request? && op.key == key)
    ensures Answer(l, ops + Repeated(key, t, n), Request(key, t)) <==> (n + 1) as real <= l.burst
  {
    hide Level, After, Answer;
    BurstLevel(l, ops, key, t, n);
    RefillExactly(l, ops + Repeated(key, t, n), key, t, t);
    Nothing(l, t);
  }

  // ---------- what a client cannot observe ----------

  /** The operations whose flag is set. */
  function Kept(ops: seq<Op>, keep: seq<bool>): seq<Op>
    requires |ops| == |keep|
  {
    if ops == [] then []
    else
      var n := |ops| - 1;
      Kept(ops[..n], keep[..n]) + if keep[n] then [ops[n]] else []
  }

  /** Only sweeps, refused requests and requests of other keys are left out. */
  predicate KeepsAllowed(l: Limits, ops: seq<Op>, keep: seq<bool>, key: string)
    requires |ops| == |keep|
  {
    forall i | 0 <= i < |ops| && !keep[i] && ops[i].Request? && ops[i].key == key :: !Answer(l, ops[..i], ops[i])
  }

  lemma {:induction false} KeptOrdered(ops: seq<Op>, keep: seq<bool>)
    requires |ops| == |keep| && Ordered(ops)
    ensures Ordered(Kept(ops, keep))
    ensures forall op | op in Kept(ops, keep) :: ops != [] && op.at <= ops[|ops| - 1].at
  {
    if ops == [] {
    } else {
      var n := |ops| - 1;
      KeptOrdered(ops[..n], keep[..n]);
      if n > 0 { assert ops[n - 1].at <= ops[n].at; }
    }
  }

  /** Equal levels give equal answers and equal levels. */
  lemma BothStep(l: Limits, m: Buckets, p: Buckets, op: Op, key: string, t: real)
    requires Valid(l) && Sound(l, m, op.at) && Sound(l, p, op.at) && op.at <= t && (op.Reap? ==> SweepsOnlyFull(l))
    requires Level(l, m, key, op.at) == Level(l, p, key, op.at) && Level(l, m, key, t) == Level(l, p, key, t)
    ensures Level(l, Step(l, m, op).0, key, t) == Level(l, Step(l, p, op).0, key, t)
    ensures op.Request? && op.key == key ==> Step(l, m, op).1 == Step(l, p, op).1
  {
    LevelStep(l, m, op, key, t);
    LevelStep(l, p, op, key, t);
  }

  lemma {:induction false} SameLevel(l: Limits, ops: seq<Op>, keep: seq<bool>, key: string, t: real)
    requires Valid(l) && SweepsOnlyFull(l) && Ordered(ops) && |ops| == |keep| && KeepsAllowed(l, ops, keep, key)
    requires ops != [] ==> ops[|ops| - 1].at <= t
    ensures Level(l, After(l, Kept(ops, keep)), key, t) == Level(l, After(l, ops), key, t)
    decreases |ops|
  {
    if ops == [] {
    } else {
      var n := |ops| - 1;
      var op, kept := ops[n], Kept(ops[..n], keep[..n]);
      assert KeepsAllowed(l, ops[..n], keep[..n], key) by {
        forall i | 0 <= i < n ensures ops[..n][..i] == ops[..i] {}
      }
      SameLevel(l, ops[..n], keep[..n], key, op.at);
      SameLevel(l, ops[..n], keep[..n], key, t);
      KeptOrdered(ops[..n], keep[..n]);
      if n > 0 { assert ops[n - 1].at <= op.at; }
      SoundRun(l, ops[..n], op.at);
      SoundRun(l, kept, op.at);
      KeptStep(l, ops, keep);
      if keep[n] { BothStep(l, After(l, ops[..n]), After(l, kept), op, key, t); }
      else { LevelStep(l, After(l, ops[..n]), op, key, t); }
    }
  }

  lemma KeptStep(l: Limits, ops: seq<Op>, keep: seq<bool>)
    requires |ops| == |keep| && ops != []
    ensures var n := |ops| - 1; var before := After(l, Kept(ops[..n], keep[..n]));
      After(l, Kept(ops, keep)) == if keep[n] then Step(l, before, ops[n]).0 else before
  {
    var kept, n := Kept(ops[..|ops| - 1], keep[..|ops| - 1]), |ops| - 1;
    assert (kept + [ops[n]])[..|kept|] == kept;
    assert kept + [] == kept;
  }

  /** Inserting sweeps, deleting refused requests, and all traffic of other keys leave every answer to a key
      unchanged, when a bucket idle long enough to be swept is full anyway. */
  lemma SweepsAndRefusalsUnobservable(l: Limits, ops: seq<Op>, keep: seq<bool>, key: string, at: real)
    requires Valid(l) && l.rate * l.idle >= l.burst && |ops| == |keep| && KeepsAllowed(l, ops, keep, key)
    requires Ordered(ops + [Request(key, at)])
    ensures Answer(l, Kept(ops, keep), Request(key, at)) == Answer(l, ops, Request(key, at))
  {
    hide Gain, After, Level, Step;
    GainIs(l, l.idle);
    PrefixOrdered(ops, Request(key, at));
    KeptOrdered(ops, keep);
    SameLevel(l, ops, keep, key, at);
    SoundRun(l, ops, at);
    SoundRun(l, Kept(ops, keep), at);
    BothStep(l, After(l, ops), After(l, Kept(ops, keep)), Request(key, at), key, at);
  }

  // ---------- when sweeps can be observed ----------

  ghost predicate SweepsUnobservable(l: Limits) {
    forall ops, keep, key, at
      | |ops| == |keep| && KeepsAllowed(l, ops, keep, key) && Ordered(ops + [Request(key, at)]) ::
      Answer(l, Kept(ops, keep), Request(key, at)) == Answer(l, ops, Request(key, at))
  }

  predicate Until(ops: seq<Op>, t: real) {
    Ordered(ops) && forall op | op in ops :: op.at <= t
  }

  lemma UntilNext(ops: seq<Op>, op: Op, t: real)
    requires Until(ops, t) && op.at == t
    ensures Until(ops + [op], t)
  {
    var all := ops + [op];
    forall i, j | 0 <= i < j < |all| ensures all[i].at <= all[j].at {
      assert all[i] == ops[i];
      if j < |ops| { assert all[j] == ops[j]; } else { assert ops[i] in ops; }
    }
  }

  lemma AfterNext(l: Limits, ops: seq<Op>, op: Op)
    ensures After(l, ops + [op]) == Step(l, After(l, ops), op).0
  {
    assert (ops + [op])[..|ops|] == ops;
  }

  /** The level after a wait follows from the level before. */
  lemma LevelLater(l: Limits, m: Buckets, key: string, t: real, u: real)
    requires Valid(l) && Sound(l, m, t) && t <= u
    ensures Level(l, m, key, u) == Min(l.burst, Level(l, m, key, t) + Gain(l, u - t))
  {
    GainMonotone(l, 0.0, u - t);
    if key in m { Later(l, m[key], t, u); }
  }

  /** Two histories that left a key with different levels, x < y. */
  predicate Apart(l: Limits, p: seq<Op>, q: seq<Op>, key: string, t: real, x: real, y: real) {
    && Until(p, t) && Until(q, t)
    && Level(l, After(l, p), key, t) == x && Level(l, After(l, q), key, t) == y
    && 0.0 <= x < y
    && (l.rate > 0.0 || x < 1.0 <= y)
  }

  lemma SpendOne(l: Limits, p: seq<Op>, key: string, t: real)
    requires Valid(l) && Until(p, t) && Level(l, After(l, p), key, t) >= 1.0
    ensures Until(p + [Request(key, t)], t)
    ensures Level(l, After(l, p + [Request(key, t)]), key, t) == Level(l, After(l, p), key, t) - 1.0
  {
    UntilNext(p, Request(key, t), t);
    AfterNext(l, p, Request(key, t));
    SoundRun(l, p, t);
    LevelStep(l, After(l, p), Request(key, t), key, t);
    LevelBounds(l, After(l, p), key, t);
    assert Gain(l, t - t) == 0.0;
  }

  /** The key's requests `more` at time t, then one at time `at`, are answered differently after p and after q. */
  predicate Differ(l: Limits, p: seq<Op>, q: seq<Op>, key: string, t: real, more: seq<Op>, at: real) {
    && (forall op | op in more :: op == Request(key, t))
    && t <= at
    && Answer(l, p + more, Request(key, at)) != Answer(l, q + more, Request(key, at))
  }

  /** Further requests of the key tell the two histories apart. */
  lemma {:induction false} TellApart(l: Limits, p: seq<Op>, q: seq<Op>, key: string, t: real, x: real, y: real)
    returns (more: seq<Op>, at: real)
    requires Valid(l) && Apart(l, p, q, key, t, x, y)
    ensures Differ(l, p, q, key, t, more, at)
    decreases x.Floor
  {
    hide Differ;
    assert 0.0 <= x < y;
    if x >= 1.0 {
      var r := Request(key, t);
      ApartNext(l, p, q, key, t, x, y);
      more, at := TellApart(l, p + [r], q + [r], key, t, x - 1.0, y - 1.0);
      DifferBefore(l, p, q, key, t, more, at);
      more := [r] + more;
    } else {
      at := WaitForOne(l, p, q, key, t, x, y);
      more := [];
    }
  }

  lemma DifferBefore(l: Limits, p: seq<Op>, q: seq<Op>, key: string, t: real, more: seq<Op>, at: real)
    requires var r := Request(key, t); Differ(l, p + [r], q + [r], key, t, more, at)
    ensures Differ(l, p, q, key, t, [Request(key, t)] + more, at)
  {
    hide Answer;
    Regroup(p, Request(key, t), more);
    Regroup(q, Request(key, t), more);
  }

  lemma ApartNext(l: Limits, p: seq<Op>, q: seq<Op>, key: string, t: real, x: real, y: real)
    requires Valid(l) && Apart(l, p, q, key, t, x, y) && x >= 1.0
    ensures Apart(l, p + [Request(key, t)], q + [Request(key, t)], key, t, x - 1.0, y - 1.0)
  {
    SpendOne(l, p, key, t);
    SpendOne(l, q, key, t);
  }

  lemma Regroup(p: seq<Op>, r: Op, more: seq<Op>)
    ensures p + [r] + more == p + ([r] + more)
  {
  }

  /** Wait until the higher level is worth a token and the lower one is not. */
  lemma WaitForOne(l: Limits, p: seq<Op>, q: seq<Op>, key: string, t: real, x: real, y: real) returns (at: real)
    requires Valid(l) && Apart(l, p, q, key, t, x, y) && x < 1.0
    ensures Differ(l, p, q, key, t, [], at)
  {
    var wait := 0.0;
    if y < 1.0 {
      wait := (1.0 - y) / l.rate;
      TimeToGain(l, 1.0 - y);
    }
    at := t + wait;
    assert at - t == wait;
    WaitTellsApart(l, p, key, t, at);
    WaitTellsApart(l, q, key, t, at);
    assert p + [] == p && q + [] == q;
  }

  lemma WaitTellsApart(l: Limits, p: seq<Op>, key: string, t: real, at: real)
    requires Valid(l) && Until(p, t) && t <= at
    ensures Answer(l, p, Request(key, at)) <==> Level(l, After(l, p), key, t) + Gain(l, at - t) >= 1.0
  {
    SoundRun(l, p, t);
    SoundRun(l, p, at);
    LevelLater(l, After(l, p), key, t, at);
    LevelStep(l, After(l, p), Request(key, at), key, at);
  }

  lemma TimeToGain(l: Limits, tokens: real)
    requires l.rate > 0.0 && tokens >= 0.0
    ensures tokens / l.rate >= 0.0 && Gain(l, tokens / l.rate) == tokens
  {
  }

  predicate FromZero(ops: seq<Op>) {
    forall op | op in ops :: op.at >= 0.0
  }

  /** The requests of a key let through so far, and what its bucket still holds. */
  function Spent(l: Limits, ops: seq<Op>, key: string, t: real): real {
    Allowed(l, ops, 0, |ops|, key) as real + Level(l, After(l, ops), key, t)
  }

  lemma {:induction false} AllowedPrefix(l: Limits, ops: seq<Op>, more: seq<Op>, j: nat, key: string)
    requires j <= |ops|
    ensures Allowed(l, ops + more, 0, j, key) == Allowed(l, ops, 0, j, key)
  {
    if j == 0 {
    } else {
      AllowedPrefix(l, ops, more, j - 1, key);
      assert (ops + more)[..j - 1] == ops[..j - 1];
    }
  }

  lemma AllowedNext(l: Limits, ops: seq<Op>, op: Op, key: string)
    ensures Allowed(l, ops + [op], 0, |ops| + 1, key) ==
      Allowed(l, ops, 0, |ops|, key) + if op.Request? && op.key == key && Answer(l, ops, op) then 1 else 0
  {
    AllowedPrefix(l, ops, [op], |ops|, key);
    assert (ops + [op])[..|ops|] == ops;
  }

  /** An allowed request moves a token from the bucket to the count. */
  lemma SpentOne(l: Limits, p: seq<Op>, key: string, t: real)
    requires Valid(l) && Until(p, t) && Level(l, After(l, p), key, t) >= 1.0
    ensures Spent(l, p + [Request(key, t)], key, t) == Spent(l, p, key, t)
  {
    hide Level, After, Allowed, Answer;
    SpendOne(l, p, key, t);
    AllowedNext(l, p, Request(key, t), key);
    AllowedAt(l, p, key, t);
  }

  lemma AllowedAt(l: Limits, p: seq<Op>, key: string, t: real)
    requires Valid(l) && Until(p, t) && Level(l, After(l, p), key, t) >= 1.0
    ensures Answer(l, p, Request(key, t))
  {
    SoundRun(l, p, t);
    LevelStep(l, After(l, p), Request(key, t), key, t);
  }

  /** Requests at one instant bring a key below one token. */
  lemma {:induction false} Drain(l: Limits, p: seq<Op>, key: string, t: real) returns (q: seq<Op>)
    requires Valid(l) && Until(p, t) && FromZero(p) && t >= 0.0
    ensures Until(q, t) && 0.0 <= Level(l, After(l, q), key, t) < 1.0
    ensures FromZero(q) && Spent(l, q, key, t) == Spent(l, p, key, t)
    decreases Level(l, After(l, p), key, t).Floor
  {
    SoundRun(l, p, t);
    LevelBounds(l, After(l, p), key, t);
    q := p;
    if Level(l, After(l, p), key, t) >= 1.0 {
      hide Spent;
      SpendOne(l, p, key, t);
      SpentOne(l, p, key, t);
      q := Drain(l, p + [Request(key, t)], key, t);
    }
  }

  /** Empty a key's bucket exactly, then wait longer than the idle time without earning a full burst. */
  lemma EmptyAndWait(l: Limits, key: string) returns (p: seq<Op>, t: real)
    requires Valid(l) && l.idle >= 0.0 && !SweepsOnlyFull(l)
    ensures Until(p, t) && (forall k | k in After(l, p) :: Idle(l, After(l, p)[k], t))
    ensures var x := Level(l, After(l, p), key, t); 0.0 <= x < l.burst && (l.rate == 0.0 ==> x < 1.0)
    ensures t >= 0.0 && FromZero(p) && Spent(l, p, key, t) == l.burst + Gain(l, t)
  {
    p := Drain(l, [], key, 0.0);
    SpentNothing(l, key);
    hide Allowed, After, Level;
    if l.rate == 0.0 {
      t := l.idle + 1.0;
      SoundRun(l, p, 0.0);
      LevelLater(l, After(l, p), key, 0.0, t);
    } else {
      var s: real;
      p, s := EmptyExactly(l, p, key, 0.0);
      t := IdleWait(l, p, key, s);
      GainAdds(l, s, t - s);
      assert s + (t - s) == t;
    }
  }

  lemma SpentNothing(l: Limits, key: string)
    ensures Spent(l, [], key, 0.0) == l.burst
  {
  }

  /** Spend the last token the moment it is whole. */
  lemma EmptyExactly(l: Limits, p: seq<Op>, key: string, t: real) returns (q: seq<Op>, s: real)
    requires Valid(l) && l.rate > 0.0 && Until(p, t) && 0.0 <= Level(l, After(l, p), key, t) < 1.0
    requires FromZero(p) && t >= 0.0
    ensures Until(q, s) && Level(l, After(l, q), key, s) == 0.0
    ensures t <= s && FromZero(q) && Spent(l, q, key, s) == Spent(l, p, key, t) + Gain(l, s - t)
  {
    var missing := 1.0 - Level(l, After(l, p), key, t);
    var wait := missing / l.rate;
    s := t + wait;
    TimeToGain(l, missing);
    assert s - t == wait;
    SoundRun(l, p, t);
    LevelLater(l, After(l, p), key, t, s);
    SpendOne(l, p, key, s);
    SpentOne(l, p, key, s);
    q := p + [Request(key, s)];
  }

  lemma IdleWait(l: Limits, p: seq<Op>, key: string, s: real) returns (t: real)
    requires Valid(l) && l.rate > 0.0 && l.idle >= 0.0 && !SweepsOnlyFull(l)
    requires Until(p, s) && Level(l, After(l, p), key, s) == 0.0
    ensures s + l.idle < t && Until(p, t) && 0.0 <= Level(l, After(l, p), key, t) < l.burst
    ensures forall k | k in After(l, p) :: Idle(l, After(l, p)[k], t)
    ensures Level(l, After(l, p), key, t) == Gain(l, t - s)
  {
    var spare := (l.burst - Gain(l, l.idle)) / 2.0;
    TimeToGain(l, spare);
    GainAdds(l, l.idle, spare / l.rate);
    t := s + (l.idle + spare / l.rate);
    assert t - s == l.idle + spare / l.rate;
    GainPositive(l, spare);
    SoundRun(l, p, s);
    LevelLater(l, After(l, p), key, s, t);
    GainMonotone(l, 0.0, l.idle);
  }

  lemma GainPositive(l: Limits, tokens: real)
    requires l.rate > 0.0 && tokens > 0.0
    ensures tokens / l.rate > 0.0
  {
  }

  lemma {:induction false} KeptAll(ops: seq<Op>, keep: seq<bool>)
    requires |ops| == |keep| && forall i | 0 <= i < |keep| :: keep[i]
    ensures Kept(ops, keep) == ops
  {
    if ops == [] {
    } else {
      KeptAll(ops[..|ops| - 1], keep[..|ops| - 1]);
    }
  }

  lemma {:induction false} KeptConcat(p: seq<Op>, keepP: seq<bool>, q: seq<Op>, keepQ: seq<bool>)
    requires |p| == |keepP| && |q| == |keepQ|
    ensures Kept(p + q, keepP + keepQ) == Kept(p, keepP) + Kept(q, keepQ)
    decreases |q|
  {
    if q == [] {
      assert p + q == p && keepP + keepQ == keepP;
    } else {
      var n := |q| - 1;
      assert (p + q)[..|p| + n] == p + q[..n] && (keepP + keepQ)[..|p| + n] == keepP + keepQ[..n];
      KeptConcat(p, keepP, q[..n], keepQ[..n]);
    }
  }

  function All(n: nat): seq<bool> {
    seq(n, _ => true)
  }

  lemma {:induction false} KeptAllButOne(p: seq<Op>, op: Op, q: seq<Op>)
    ensures Kept(p + [op] + q, All(|p|) + [false] + All(|q|)) == p + q
  {
    KeptConcat(p, All(|p|), [op], [false]);
    KeptConcat(p + [op], All(|p|) + [false], q, All(|q|));
    KeptAll(p, All(|p|));
    KeptAll(q, All(|q|));
    assert Kept([op], [false]) == [];
    assert p + [] == p;
  }

  /** Sweeping is invisible to every client in every run exactly when it discards only buckets that are full again. */
  lemma SweepsUnobservableIff(l: Limits)
    requires Valid(l) && l.idle >= 0.0
    ensures SweepsUnobservable(l) <==> l.rate * l.idle >= l.burst
  {
    hide Gain, After, Answer;
    GainIs(l, l.idle);
    if SweepsOnlyFull(l) {
      forall ops, keep, key, at
        | |ops| == |keep| && KeepsAllowed(l, ops, keep, key) && Ordered(ops + [Request(key, at)])
        ensures Answer(l, Kept(ops, keep), Request(key, at)) == Answer(l, ops, Request(key, at))
      {
        SweepsAndRefusalsUnobservable(l, ops, keep, key, at);
      }
    } else {
      SweepSeen(l, "client");
    }
  }

  lemma SweepSeen(l: Limits, key: string)
    requires Valid(l) && l.idle >= 0.0 && !SweepsOnlyFull(l)
    ensures !SweepsUnobservable(l)
  {
    var p, t := EmptyAndWait(l, key);
    var x := Level(l, After(l, p), key, t);
    SweptApart(l, p, key, t);
    var more, at := TellApart(l, p, p + [Reap(t)], key, t, x, l.burst);
    SweepObserved(l, p, key, t, more, at);
  }

  lemma SweptApart(l: Limits, p: seq<Op>, key: string, t: real)
    requires Valid(l) && Until(p, t) && forall k | k in After(l, p) :: Idle(l, After(l, p)[k], t)
    requires 0.0 <= Level(l, After(l, p), key, t) < l.burst && (l.rate == 0.0 ==> Level(l, After(l, p), key, t) < 1.0)
    ensures Apart(l, p, p + [Reap(t)], key, t, Level(l, After(l, p), key, t), l.burst)
  {
    UntilNext(p, Reap(t), t);
    AfterNext(l, p, Reap(t));
  }

  lemma SweepObserved(l: Limits, p: seq<Op>, key: string, t: real, more: seq<Op>, at: real)
    requires Until(p, t) && Differ(l, p, p + [Reap(t)], key, t, more, at)
    ensures !SweepsUnobservable(l)
  {
    hide Answer;
    var sweep := Reap(t);
    UntilNext(p, sweep, t);
    var ops, keep := p + [sweep] + more, All(|p|) + [false] + All(|more|);
    KeptAllButOne(p, sweep, more);
    TrailOrdered(p + [sweep], more, key, t, at);
    forall i | 0 <= i < |ops| && !keep[i] ensures ops[i] == sweep {}
    assert KeepsAllowed(l, ops, keep, key);
    assert Answer(l, Kept(ops, keep), Request(key, at)) != Answer(l, ops, Request(key, at));
  }

  lemma TrailOrdered(p: seq<Op>, more: seq<Op>, key: string, t: real, at: real)
    requires Until(p, t) && (forall op | op in more :: op == Request(key, t)) && t <= at
    ensures Ordered(p + more + [Request(key, at)])
  {
    var all := p + more + [Request(key, at)];
    forall i, j | 0 <= i < j < |all| ensures all[i].at <= all[j].at {
      if j < |p| {
        assert all[i] == p[i] && all[j] == p[j];
      } else {
        assert all[i].at <= t by {
          if i < |p| {
            assert all[i] == p[i] && p[i] in p;
          } else {
            assert all[i] == more[i - |p|] && more[i - |p|] in more;
          }
        }
        assert t <= all[j].at by { if j < |p| + |more| { assert all[j] == more[j - |p|] && more[j - |p|] in more; } }
      }
    }
  }

  // ---------- when the window bound holds ----------

  /** No run and no window lets a key exceed the burst plus the rate. */
  ghost predicate Bounded(l: Limits) {
    forall ops, i: nat, j: nat, key, t0: real, t1: real |
      Ordered(ops) && i <= j <= |ops| && t0 <= t1 && Within(ops, i, j, t0, t1) ::
      Allowed(l, ops, i, j, key) as real <= l.burst + l.rate * (t1 - t0)
  }

  predicate Within(ops: seq<Op>, i: nat, j: nat, t0: real, t1: real)
    requires j <= |ops|
  {
    forall k | i <= k < j :: t0 <= ops[k].at <= t1
  }

  /** The window bound holds in every run, sweeps included, exactly when sweeping discards only buckets that are full
      again. */
  lemma WindowBoundIff(l: Limits)
    requires Valid(l) && l.idle >= 0.0
    ensures Bounded(l) <==> l.rate * l.idle >= l.burst
  {
    hide Allowed, Gain;
    GainIs(l, l.idle);
    if SweepsOnlyFull(l) {
      forall ops, i: nat, j: nat, key, t0: real, t1: real
        | Ordered(ops) && i <= j <= |ops| && t0 <= t1 && Within(ops, i, j, t0, t1)
        ensures Allowed(l, ops, i, j, key) as real <= l.burst + l.rate * (t1 - t0)
      {
        WindowBound(l, ops, i, j, key, t0, t1);
      }
    } else {
      var ops, t := TooMany(l, "client");
      assert Within(ops, 0, |ops|, 0.0, t);
      assert t - 0.0 == t;
      GainIs(l, t);
    }
  }

  /** Empty a bucket, have it swept before it is full, and empty it again. */
  lemma TooMany(l: Limits, key: string) returns (ops: seq<Op>, t: real)
    requires Valid(l) && l.idle >= 0.0 && !SweepsOnlyFull(l)
    ensures Until(ops, t) && FromZero(ops) && t >= 0.0
    ensures Allowed(l, ops, 0, |ops|, key) as real > l.burst + Gain(l, t)
  {
    hide Allowed, Level, After;
    var p;
    p, t := EmptyAndWait(l, key);
    var first := Allowed(l, p, 0, |p|, key);
    SweptIsFull(l, p, key, t);
    ops := Drain(l, p + [Reap(t)], key, t);
    if l.rate > 0.0 {
      var s := t;
      ops, t := EmptyExactly(l, ops, key, s);
      GainAdds(l, s, t - s);
      assert s + (t - s) == t;
    } else {
      assert Gain(l, t) == 0.0;
      MoreThanBurst(first, Allowed(l, ops, 0, |ops|, key), Level(l, After(l, p), key, t),
        Level(l, After(l, ops), key, t), l.burst);
    }
  }

  lemma MoreThanBurst(first: nat, all: nat, x: real, y: real, burst: real)
    requires first as real + x == burst && all as real + y == first as real + burst && x < 1.0 && y < 1.0 <= burst
    ensures all as real > burst
  {
    assert all > first;
    assert all as real >= first as real + 1.0;
  }

  lemma SweptIsFull(l: Limits, p: seq<Op>, key: string, t: real)
    requires Until(p, t) && FromZero(p) && t >= 0.0 && forall k | k in After(l, p) :: Idle(l, After(l, p)[k], t)
    ensures Until(p + [Reap(t)], t) && FromZero(p + [Reap(t)])
    ensures Spent(l, p + [Reap(t)], key, t) == Allowed(l, p, 0, |p|, key) as real + l.burst
  {
    UntilNext(p, Reap(t), t);
    AfterNext(l, p, Reap(t));
    AllowedNext(l, p, Reap(t), key);
  }
}
