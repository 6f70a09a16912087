/** The token bucket (crates/ussl-transport/src/rate_limit.rs) as one connection
  * uses it: how much a run can admit, over the whole run and over any window. */
module RateLimit {
  import opened Basics

  const NS_PER_MS: nat := 1_000_000
  const COST: nat := 1000

  type U32 = n: int | 0 <= n < 0x1_0000_0000

  /** Tokens are scaled by 1000; `last` is an instant in nanoseconds. */
  datatype Bucket = Bucket(tokens: U64, last: nat, perMs: U64, max: U64)

  function NewBucket(perSecond: U32, burst: U32, now: nat): Bucket {
    Bucket(burst * 1000, now, perSecond * 1000 / 1000, burst * 1000)
  }

  predicate Valid(b: Bucket) {
    b.tokens <= b.max
  }

  /** Whole milliseconds since `from`; 0 for an earlier instant. */
  function Ms(from: nat, now: nat): nat {
    if now <= from then 0 else (now - from) / NS_PER_MS
  }

  /** `tokens_per_ms * elapsed` in u64 arithmetic. */
  function Gain(b: Bucket, now: nat): U64 {
    (b.perMs * (Ms(b.last, now) % TWO_64)) % TWO_64
  }

  function Min(a: int, b: int): int {
    if a <= b then a else b
  }

  function Refilled(b: Bucket, now: nat): Bucket {
    if Gain(b, now) == 0 then b
    else b.(last := now, tokens := Min((b.tokens + Gain(b, now)) % TWO_64, b.max))
  }

  datatype Op = Acquire | Peek | Reset

  datatype Timed = Timed(op: Op, now: nat)

  function Apply(b: Bucket, t: Timed): (Bucket, bool) {
    match t.op
    case Reset => (b.(tokens := b.max, last := t.now), false)
    case Peek => (Refilled(b, t.now), false)
    case Acquire =>
      var r := Refilled(b, t.now);
      if r.tokens < COST then (r, false) else (r.(tokens := r.tokens - COST), true)
  }

  class RateLimiter {
    var tokens: U64
    var last: nat
    const perMs: U64
    const max: U64

    function Abs(): Bucket
      reads this
    {
      Bucket(tokens, last, perMs, max)
    }

    constructor (perSecond: U32, burst: U32, now: nat)
      ensures Abs() == NewBucket(perSecond, burst, now) && Valid(Abs())
    {
      max := burst * 1000;
      perMs := perSecond * 1000 / 1000;
      tokens := burst * 1000;
      last := now;
    }

    method Refill(now: nat)
      modifies this
      ensures Abs() == Refilled(old(Abs()), now)
    {
      var elapsed := Ms(last, now);
      if elapsed > 0 {
        var newTokens := (perMs * (elapsed % TWO_64)) % TWO_64;
        if newTokens > 0 {
          last := now;
          var current := tokens;
          tokens := Min((current + newTokens) % TWO_64, max);
        }
      }
    }

    /** `compare_exchange_weak` may fail without cause; here it does so `spurious` times. */
    method TryAcquire(now: nat, spurious: nat) returns (allowed: bool)
      modifies this
      ensures (Abs(), allowed) == Apply(old(Abs()), Timed(Acquire, now))
    {
      Refill(now);
      var failures := spurious;
      while true
        invariant Abs() == Refilled(old(Abs()), now)
        decreases failures
      {
        var current := tokens;
        if current < COST {
          return false;
        }
        if failures == 0 {
          tokens := current - COST;
          return true;
        }
        failures := failures - 1;
      }
    }

    method WouldLimit(now: nat) returns (limited: bool)
      modifies this
      ensures Abs() == Apply(old(Abs()), Timed(Peek, now)).0
      ensures limited <==> !Apply(old(Abs()), Timed(Acquire, now)).1
    {
      Refill(now);
      limited := tokens < 1000;
    }

    method AvailableTokens(now: nat) returns (n: nat)
      modifies this
      ensures Abs() == Apply(old(Abs()), Timed(Peek, now)).0
      ensures n == tokens / 1000
    {
      Refill(now);
      n := tokens / 1000;
    }

    method ResetBucket(now: nat)
      modifies this
      ensures Abs() == Apply(old(Abs()), Timed(Reset, now)).0
    {
      tokens := max;
      last := now;
    }
  }

  // ---------- runs ----------

  datatype Run = Run(b: Bucket, admitted: nat, resets: nat)

  function RunOf(b: Bucket, ts: seq<Timed>): Run {
    if ts == [] then Run(b, 0, 0) else
    var r := RunOf(b, Front(ts));
    var (after, ok) := Apply(r.b, Last(ts));
    Run(after, r.admitted + (if ok then 1 else 0), r.resets + if Last(ts).op.Reset? then 1 else 0)
  }

  /** Instants never go back, starting from `from`. */
  predicate Monotone(from: nat, ts: seq<Timed>) {
    if ts == [] then true else
    Monotone(from, Front(ts)) && Last(ts).now >= End(from, Front(ts))
  }

  /** The instant of the last operation. */
  function End(from: nat, ts: seq<Timed>): nat {
    if ts == [] then from else Last(ts).now
  }

  lemma {:induction false} MonotoneEnd(from: nat, ts: seq<Timed>)
    requires Monotone(from, ts)
    ensures from <= End(from, ts)
    decreases |ts|
  {
    if ts != [] {
      MonotoneEnd(from, Front(ts));
    }
  }

  lemma MsAdds(a: nat, b: nat, c: nat)
    requires a <= b <= c
    ensures Ms(a, b) + Ms(b, c) <= Ms(a, c) <= Ms(a, b) + Ms(b, c) + 1
  {}

  lemma MulMonotone(k: nat, a: nat, b: nat)
    requires a <= b
    ensures k * a <= k * b
  {}

  lemma MulAdds(k: nat, a: nat, b: nat, c: nat)
    requires a + b <= c
    ensures k * a + k * b <= k * c
  {
    MulMonotone(k, a + b, c);
  }

  lemma OneMore(n: nat, k: nat)
    ensures (n + 1) * k == n * k + k
  {}

  /** Wrapping never credits more than the exact product. */
  lemma GainAtMost(b: Bucket, now: nat)
    ensures Gain(b, now) <= b.perMs * Ms(b.last, now)
  {
    var ms := Ms(b.last, now);
    MulMonotone(b.perMs, ms % TWO_64, ms);
    ModAtMost(b.perMs * (ms % TWO_64));
    ModAtMost(ms);
  }

  lemma ModAtMost(n: nat)
    ensures n % TWO_64 <= n
  {}

  // ---------- the upper bound, from any state ----------

  lemma StepKeepsShape(b: Bucket, t: Timed)
    requires Valid(b)
    ensures var c := Apply(b, t).0; Valid(c) && c.perMs == b.perMs && c.max == b.max
    ensures t.now >= b.last ==> b.last <= Apply(b, t).0.last <= t.now
  {}

  /** One operation: what is held plus what is admitted grows by no more than the credit. */
  lemma StepBound(b: Bucket, t: Timed)
    requires Valid(b) && t.now >= b.last
    ensures var (c, ok) := Apply(b, t);
            c.tokens + (if ok then COST else 0)
              <= b.tokens + (if t.op.Reset? then b.max else 0) + b.perMs * Ms(b.last, c.last)
  {
    GainAtMost(b, t.now);
    ModAtMost(b.tokens + Gain(b, t.now));
    MulMonotone(b.perMs, 0, Ms(b.last, t.now));
  }

  lemma {:induction false} RunKeepsShape(b: Bucket, ts: seq<Timed>, from: nat)
    requires Valid(b) && b.last <= from && Monotone(from, ts)
    ensures var r := RunOf(b, ts);
            Valid(r.b) && r.b.perMs == b.perMs && r.b.max == b.max && b.last <= r.b.last <= End(from, ts)
    decreases |ts|
  {
    if ts != [] {
      RunKeepsShape(b, Front(ts), from);
      StepKeepsShape(RunOf(b, Front(ts)).b, Last(ts));
    }
  }

  /** Over every sequential run: 1000 x admitted, plus the tokens left, is at
    * most the tokens at the start, a full bucket per reset, and the rate times
    * the whole milliseconds up to the last refill. */
  lemma {:induction false} RunBound(b: Bucket, ts: seq<Timed>, from: nat)
    requires Valid(b) && b.last <= from && Monotone(from, ts)
    ensures var r := RunOf(b, ts);
            r.b.tokens + COST * r.admitted <= b.tokens + r.resets * b.max + b.perMs * Ms(b.last, r.b.last)
    decreases |ts|
  {
    hide Apply, Ms;
    if ts == [] {
      MulMonotone(b.perMs, 0, Ms(b.last, b.last));
    } else {
      RunBound(b, Front(ts), from);
      RunKeepsShape(b, Front(ts), from);
      var r := RunOf(b, Front(ts));
      StepBound(r.b, Last(ts));
      StepKeepsShape(r.b, Last(ts));
      var e := RunOf(b, ts);
      MsAdds(b.last, r.b.last, e.b.last);
      MulAdds(b.perMs, Ms(b.last, r.b.last), Ms(r.b.last, e.b.last), Ms(b.last, e.b.last));
      OneMore(r.resets, b.max);
    }
  }

  /** The promised rate, from creation to any instant of a run without resets. */
  lemma RateBound(perSecond: U32, burst: U32, created: nat, ts: seq<Timed>)
    requires Monotone(created, ts)
    ensures var r := RunOf(NewBucket(perSecond, burst, created), ts);
            1000 * r.admitted <= (r.resets + 1) * (burst * 1000) + perSecond * Ms(created, End(created, ts))
  {
    var b := NewBucket(perSecond, burst, created);
    RunBound(b, ts, created);
    RunKeepsShape(b, ts, created);
    var r := RunOf(b, ts);
    MsAdds(created, r.b.last, End(created, ts));
    MulMonotone(perSecond, Ms(created, r.b.last), Ms(created, End(created, ts)));
    OneMore(r.resets, b.max);
  }

  // ---------- any window inside a run ----------

  /** A bucket that a refill at instant `a` would leave as it is, or that has been refilled since. */
  predicate SettledAt(b: Bucket, a: nat) {
    b.last >= a || Gain(b, a) == 0
  }

  /** Credit since `a`: one millisecond more than the whole milliseconds. */
  function Credit(b: Bucket, a: nat): nat {
    if b.last >= a then Ms(a, b.last) + 1 else 0
  }

  lemma AnyOperationSettles(b: Bucket, t: Timed)
    ensures SettledAt(Apply(b, t).0, t.now)
  {
    if t.op != Reset && Gain(b, t.now) == 0 && t.op == Acquire {
      assert Gain(Apply(b, t).0, t.now) == 0;
    }
  }

  /** After a settled instant `a`, a refill gains at most the rate times the
    * whole milliseconds since `a`, plus one. */
  lemma GainSinceSettled(b: Bucket, a: nat, now: nat)
    requires SettledAt(b, a) && b.last < a <= now
    ensures Gain(b, now) <= b.perMs * (Ms(a, now) + 1)
  {
    var m, n := Ms(b.last, a), Ms(b.last, now);
    MsAdds(b.last, a, now);
    ProductMod(b.perMs, m);
    ProductMod(b.perMs, n);
    DifferenceMod(b.perMs, m, n - m);
    ModAtMost(b.perMs * (n - m));
    MulMonotone(b.perMs, n - m, Ms(a, now) + 1);
  }

  lemma DifferenceMod(k: nat, m: nat, d: nat)
    requires (k * m) % TWO_64 == 0
    ensures (k * (m + d)) % TWO_64 == (k * d) % TWO_64
  {
    var q := (k * m) / TWO_64;
    assert k * m == TWO_64 * q;
    assert k * (m + d) == k * d + TWO_64 * q;
    ModShift(k * d, q);
  }

  /** Truncating a factor first does not change a product modulo 2^64. */
  lemma ProductMod(k: nat, m: nat)
    ensures (k * (m % TWO_64)) % TWO_64 == (k * m) % TWO_64
  {
    var q := m / TWO_64;
    assert m == TWO_64 * q + m % TWO_64;
    assert k * m == k * (m % TWO_64) + TWO_64 * (k * q);
    ModShift(k * (m % TWO_64), k * q);
  }

  lemma WindowStep(b: Bucket, t: Timed, a: nat)
    requires Valid(b) && SettledAt(b, a) && a <= t.now && b.last <= t.now
    ensures var (c, ok) := Apply(b, t);
            SettledAt(c, a) &&
            c.tokens + (if ok then COST else 0) + b.perMs * Credit(b, a)
              <= b.tokens + (if t.op.Reset? then b.max else 0) + b.perMs * Credit(c, a)
  {
    hide Ms;
    var c := Apply(b, t).0;
    StepBound(b, t);
    StepKeepsShape(b, t);
    if b.last >= a {
      MsAdds(a, b.last, c.last);
      MulAdds(b.perMs, Credit(b, a), Ms(b.last, c.last), Credit(c, a));
    } else {
      GainSinceSettled(b, a, t.now);
      ModAtMost(b.tokens + Gain(b, t.now));
      MulMonotone(b.perMs, 0, Credit(c, a));
    }
  }

  /** Any window inside a run, from its first operation on: a full bucket, one
    * more per reset, and the rate times the window's milliseconds plus one. */
  lemma {:induction false} WindowBound(b: Bucket, ts: seq<Timed>)
    requires Valid(b) && ts != [] && b.last <= ts[0].now && Monotone(ts[0].now, ts)
    ensures var a, r := ts[0].now, RunOf(b, ts);
            SettledAt(r.b, a) && Valid(r.b) && r.b.perMs == b.perMs && r.b.max == b.max && r.b.last <= End(a, ts) &&
            r.b.tokens + COST * r.admitted <= (r.resets + 1) * b.max + b.perMs * Credit(r.b, a)
    decreases |ts|
  {
    hide Apply, SettledAt, Credit;
    var a, r := ts[0].now, RunOf(b, Front(ts));
    RunKeepsShape(b, ts, a);
    if |ts| == 1 {
      assert Front(ts) == [];
      AnyOperationSettles(b, ts[0]);
      FirstOfWindow(b, ts[0]);
      OneMore(0, b.max);
      OneMore(1, b.max);
      MulMonotone(b.perMs, 0, Credit(RunOf(b, ts).b, a));
    } else {
      assert Front(ts)[0] == ts[0];
      WindowBound(b, Front(ts));
      RunKeepsShape(b, Front(ts), a);
      MonotoneEnd(a, ts);
      WindowStep(r.b, Last(ts), a);
      OneMore(r.resets + 1, b.max);
    }
  }

  lemma FirstOfWindow(b: Bucket, t: Timed)
    requires Valid(b)
    ensures var (c, ok) := Apply(b, t); c.tokens + (if ok then COST else 0) <= b.max
  {}

  lemma {:induction false} RunSplits(b: Bucket, before: seq<Timed>, ts: seq<Timed>)
    ensures var r, w := RunOf(b, before), RunOf(RunOf(b, before).b, ts);
            RunOf(b, before + ts) == Run(w.b, r.admitted + w.admitted, r.resets + w.resets)
    decreases |ts|
  {
    if ts == [] {
      assert before + ts == before;
    } else {
      RunSplits(b, before, Front(ts));
      assert Front(before + ts) == before + Front(ts);
    }
  }

  lemma CreditAtMost(b: Bucket, a: nat, z: nat)
    requires b.last <= z && a <= z
    ensures Credit(b, a) <= Ms(a, z) + 1
  {
    if b.last >= a {
      MsAdds(a, b.last, z);
    }
  }

  /** In every run since creation, and for every window of it, the admissions in
    * the window keep to the burst and the rate, with one extra millisecond. */
  lemma WindowRateBound(perSecond: U32, burst: U32, created: nat, before: seq<Timed>, ts: seq<Timed>)
    requires ts != [] && Monotone(created, before) && End(created, before) <= ts[0].now && Monotone(ts[0].now, ts)
    ensures var b := NewBucket(perSecond, burst, created);
            var all, head := RunOf(b, before + ts), RunOf(b, before);
            1000 * (all.admitted - head.admitted)
              <= (all.resets - head.resets + 1) * (burst * 1000) + perSecond * (Ms(ts[0].now, End(created, ts)) + 1)
  {
    var b := NewBucket(perSecond, burst, created);
    hide RunOf, Ms, Credit;
    RunSplits(b, before, ts);
    RunKeepsShape(b, before, created);
    var s := RunOf(b, before).b;
    WindowBound(s, ts);
    var e := RunOf(s, ts);
    var a := ts[0].now;
    MonotoneEnd(a, ts);
    CreditAtMost(e.b, a, End(a, ts));
    MulMonotone(perSecond, Credit(e.b, a), Ms(a, End(a, ts)) + 1);
  }

  // ---------- the lower bound: how little truncation loses ----------

  /** Nothing wraps: the gain is the product, and the sum with it fits. */
  predicate Exact(b: Bucket, now: nat) {
    Gain(b, now) == b.perMs * Ms(b.last, now) && b.tokens + Gain(b, now) < TWO_64
  }

  /** A bucket made with these limits, at any later moment. */
  predicate MadeWith(b: Bucket, perSecond: U32, burst: U32) {
    Valid(b) && b.perMs == NewBucket(perSecond, burst, 0).perMs && b.max == NewBucket(perSecond, burst, 0).max
  }

  /** No bucket, however full, overflows when it is refilled at most `ms` milliseconds after the last time. */
  ghost predicate SafeIdle(ms: nat) {
    forall perSecond: U32, burst: U32, b: Bucket, now: nat ::
      MadeWith(b, perSecond, burst) && Ms(b.last, now) <= ms ==> Exact(b, now)
  }

  /** Exactly up to 2^32 - 999 idle milliseconds no refill overflows, over all
    * limits, fill levels and instants. */
  lemma NoOverflowIff(ms: nat)
    ensures SafeIdle(ms) <==> ms <= 0x1_0000_0000 - 999
  {
    if ms <= 0x1_0000_0000 - 999 {
      forall perSecond: U32, burst: U32, b: Bucket, now: nat | MadeWith(b, perSecond, burst) && Ms(b.last, now) <= ms
        ensures Exact(b, now) {
        MulBoth(perSecond, 0xffff_ffff, Ms(b.last, now), 0x1_0000_0000 - 999);
        SmallMod(Ms(b.last, now), b.perMs);
      }
    } else {
      var top: U32 := 0xffff_ffff;
      var b, now := NewBucket(top, top, 0), ms * NS_PER_MS;
      assert Ms(0, now) == ms;
      MulBoth(top, top, 0x1_0000_0000 - 998, ms);
      assert MadeWith(b, top, top) && !Exact(b, now);
    }
  }

  function Product(k: nat, n: nat): nat {
    k * n
  }

  lemma MulBoth(k: nat, l: nat, m: nat, n: nat)
    requires k <= l && m <= n
    ensures Product(k, m) <= Product(l, n)
  {
    MulMonotone(k, m, n);
    MulMonotone(n, k, l);
  }

  /** The cap does not bite and nothing wraps. */
  predicate Uncapped(b: Bucket, t: Timed) {
    !t.op.Reset? && Exact(b, t.now) && b.tokens + b.perMs * Ms(b.last, t.now) <= b.max
  }

  predicate RunUncapped(b: Bucket, ts: seq<Timed>) {
    ts == [] || (RunUncapped(b, Front(ts)) && Uncapped(RunOf(b, Front(ts)).b, Last(ts)))
  }

  /** A refill happens only after a whole millisecond, so flooring loses less than half. */
  lemma HalfIsKept(from: nat, now: nat)
    requires Ms(from, now) > 0
    ensures 2 * NS_PER_MS * Ms(from, now) > now - from
  {}

  lemma UncappedStep(b: Bucket, t: Timed)
    requires Valid(b) && t.now >= b.last && Uncapped(b, t)
    ensures var (c, ok) := Apply(b, t);
            c.tokens + (if ok then COST else 0) == b.tokens + b.perMs * Ms(b.last, c.last)
    ensures var last := Apply(b, t).0.last;
            2 * NS_PER_MS * Ms(b.last, last) >= last - b.last &&
            (last > b.last ==> 2 * NS_PER_MS * Ms(b.last, last) > last - b.last)
  {
    var n := Ms(b.last, t.now);
    if n > 0 {
      MulMonotone(b.perMs, 1, n);
      HalfIsKept(b.last, t.now);
      SmallMod(n, b.perMs);
    }
    assert Gain(b, t.now) == b.perMs * n;
    ZeroProduct(b.perMs, Ms(b.last, b.last));
  }

  lemma SmallMod(n: nat, k: nat)
    requires k * n < TWO_64
    ensures (k * (n % TWO_64)) % TWO_64 == k * n
  {
    ProductMod(k, n);
  }

  lemma ZeroProduct(k: nat, n: nat)
    requires n == 0
    ensures k * n == 0
  {}

  /** While the cap does not bite, tokens left and tokens spent account for more
    * than half of the rate over all the time up to the last refill. */
  lemma {:induction false} TruncationLosesLessThanHalf(b: Bucket, ts: seq<Timed>, from: nat)
    requires Valid(b) && b.last <= from && Monotone(from, ts) && RunUncapped(b, ts)
    ensures var r := RunOf(b, ts);
            b.last <= r.b.last && MoreThanHalf(b.perMs, r.b.tokens + COST * r.admitted - b.tokens, r.b.last - b.last)
    decreases |ts|
  {
    hide Apply, Uncapped, Ms, MoreThanHalf;
    if ts == [] {
      NothingIsHalf(b.perMs);
    } else {
      TruncationLosesLessThanHalf(b, Front(ts), from);
      RunKeepsShape(b, Front(ts), from);
      var r := RunOf(b, Front(ts)).b;
      UncappedStep(r, Last(ts));
      StepKeepsShape(r, Last(ts));
      var e := RunOf(b, ts).b;
      HalfOfMore(b.perMs, Ms(r.last, e.last), e.last - r.last);
      var front := RunOf(b, Front(ts));
      MoreThanHalfAdds(b.perMs, r.tokens + COST * front.admitted - b.tokens, r.last - b.last,
          b.perMs * Ms(r.last, e.last), e.last - r.last);
    }
  }

  /** More than half of the rate `k` over `ns` nanoseconds; exactly half only over none. */
  predicate MoreThanHalf(k: nat, amount: int, ns: nat) {
    2 * NS_PER_MS * amount >= k * ns && (k > 0 && ns > 0 ==> 2 * NS_PER_MS * amount > k * ns)
  }

  lemma NothingIsHalf(k: nat)
    ensures MoreThanHalf(k, 0, 0)
  {
    ZeroProduct(k, 0);
  }

  lemma MoreThanHalfAdds(k: nat, x: int, a: nat, y: int, b: nat)
    requires MoreThanHalf(k, x, a) && MoreThanHalf(k, y, b)
    ensures MoreThanHalf(k, x + y, a + b)
  {
    Splits(k, a, b);
  }

  lemma Splits(k: nat, a: nat, b: nat)
    ensures k * (a + b) == k * a + k * b
  {}

  lemma HalfOfMore(k: nat, ms: nat, ns: nat)
    requires 2 * NS_PER_MS * ms >= ns
    requires ns > 0 ==> 2 * NS_PER_MS * ms > ns
    ensures MoreThanHalf(k, k * ms, ns)
  {
    MulMonotone(k, ns, 2 * NS_PER_MS * ms);
    if 2 * NS_PER_MS * ms > ns {
      MulMonotone(k, ns + 1, 2 * NS_PER_MS * ms);
      OneMore(ns, k);
    }
    assert k * (2 * NS_PER_MS * ms) == 2 * NS_PER_MS * (k * ms);
  }

  // ---------- what is admitted ----------

  /** While nothing wraps: the bucket holds what it held and the credit for the
    * whole milliseconds since its last refill, at most the cap; an acquisition is
    * admitted exactly when that is a token at least, and then takes one. */
  lemma AdmittedIff(b: Bucket, now: nat)
    requires Valid(b) && Exact(b, now)
    ensures var (c, ok) := Apply(b, Timed(Acquire, now));
            var credit := b.perMs * Ms(b.last, now);
            var held := if b.tokens + credit > b.max then b.max else b.tokens + credit;
            (ok <==> held >= 1000) &&
            c == Bucket(held - (if ok then 1000 else 0), if credit == 0 then b.last else now, b.perMs, b.max)
  {
    hide Ms;
  }

  /** Looking credits the same and takes nothing; a reset fills the bucket. */
  lemma PeekAndReset(b: Bucket, now: nat)
    requires Valid(b)
    ensures Apply(b, Timed(Reset, now)) == (Bucket(b.max, now, b.perMs, b.max), false)
    ensures Exact(b, now) ==>
              var credit := b.perMs * Ms(b.last, now);
              var held := if b.tokens + credit > b.max then b.max else b.tokens + credit;
              Apply(b, Timed(Peek, now)) == (Bucket(held, if credit == 0 then b.last else now, b.perMs, b.max), false)
  {
    hide Ms;
  }

  lemma NothingWrapsAtOnce(b: Bucket, now: nat)
    requires Valid(b) && now <= b.last
    ensures Exact(b, now) && b.perMs * Ms(b.last, now) == 0
  {
    ZeroProduct(b.perMs, Ms(b.last, now));
    ZeroProduct(b.perMs, Ms(b.last, now) % TWO_64);
  }

  function Acquisitions(k: nat, now: nat): seq<Timed> {
    seq(k, _ => Timed(Acquire, now))
  }

  /** Of k acquisitions at once on a full bucket, exactly the burst is admitted. */
  lemma {:induction false} BurstIsAdmitted(b: Bucket, burst: nat, k: nat, now: nat)
    requires b.max == 1000 * burst && b.tokens == b.max && now <= b.last
    ensures var r := RunOf(b, Acquisitions(k, now));
            var n := if k <= burst then k else burst;
            r.admitted == n && r.b == b.(tokens := 1000 * (burst - n))
    decreases k
  {
    hide Apply, Ms;
    var ts := Acquisitions(k, now);
    if k > 0 {
      BurstIsAdmitted(b, burst, k - 1, now);
      assert Front(ts) == Acquisitions(k - 1, now);
      var e := RunOf(b, Front(ts)).b;
      NothingWrapsAtOnce(e, now);
      AdmittedIff(e, now);
    }
  }

  /** So at creation, and again after every reset, k acquisitions are all admitted
    * exactly when they are no more than the burst. */
  lemma AllAdmittedIff(perSecond: U32, burst: U32, before: seq<Timed>, created: nat, now: nat, k: nat)
    requires Monotone(created, before) && End(created, before) <= now
    ensures RunOf(NewBucket(perSecond, burst, created), Acquisitions(k, created)).admitted == k <==> k <= burst
    ensures var b := RunOf(NewBucket(perSecond, burst, created), before).b;
            RunOf(Apply(b, Timed(Reset, now)).0, Acquisitions(k, now)).admitted == k <==> k <= burst
  {
    var b := NewBucket(perSecond, burst, created);
    BurstIsAdmitted(b, burst, k, created);
    RunKeepsShape(b, before, created);
    BurstIsAdmitted(Apply(RunOf(b, before).b, Timed(Reset, now)).0, burst, k, now);
  }

  predicate ExactRun(b: Bucket, ts: seq<Timed>) {
    ts == [] || (ExactRun(b, Front(ts)) && Exact(RunOf(b, Front(ts)).b, Last(ts).now))
  }

  /** Since instant `a`, when `x` had been admitted, tokens left and tokens spent
    * come to a full bucket and more than half of the rate. */
  predicate Account(r: Run, x: nat, a: nat) {
    a <= r.b.last && MoreThanHalf(r.b.perMs, r.b.tokens + COST * (r.admitted - x) - r.b.max, r.b.last - a)
  }

  /** So since instant `a`, from the `j`-th operation on. */
  predicate FullAt(b: Bucket, ts: seq<Timed>, a: nat, j: nat) {
    j <= |ts| && Account(RunOf(b, ts), RunOf(b, ts[..j]).admitted, a)
  }

  lemma {:induction false} FullSince(b: Bucket, ts: seq<Timed>, from: nat) returns (a: nat, j: nat)
    requires b.tokens == b.max && b.last <= from && Monotone(from, ts) && ExactRun(b, ts)
    ensures FullAt(b, ts, a, j)
    decreases |ts|
  {
    hide Apply, Exact, Ms, MoreThanHalf;
    if ts == [] {
      a, j := b.last, 0;
      NothingIsHalf(b.perMs);
    } else {
      a, j := FullSince(b, Front(ts), from);
      RunKeepsShape(b, Front(ts), from);
      assert Front(ts)[..j] == ts[..j];
      assert ts[..|ts|] == ts && ts[..|ts| - 1] == Front(ts);
      var front, t := RunOf(b, Front(ts)), Last(ts);
      StepKeepsShape(front.b, t);
      if Uncapped(front.b, t) {
        MoreCredit(front, t, RunOf(b, ts[..j]).admitted, a);
      } else {
        FullAgain(front.b, t);
        NothingIsHalf(b.perMs);
        var (c, ok) := Apply(front.b, t);
        assert RunOf(b, ts).b == c && RunOf(b, ts).admitted == front.admitted + if ok then 1 else 0;
        a, j := t.now, |ts| - 1;
        assert RunOf(b, ts[..j]) == front;
      }
    }
  }

  /** A refill below the cap carries the account on. */
  lemma MoreCredit(r: Run, t: Timed, x: nat, a: nat)
    requires Valid(r.b) && Account(r, x, a) && Uncapped(r.b, t) && t.now >= r.b.last
    ensures var (c, ok) := Apply(r.b, t); Account(Run(c, r.admitted + (if ok then 1 else 0), r.resets), x, a)
  {
    hide Apply, Ms, MoreThanHalf;
    var b, c := r.b, Apply(r.b, t).0;
    UncappedStep(b, t);
    StepKeepsShape(b, t);
    HalfOfMore(b.perMs, Ms(b.last, c.last), c.last - b.last);
    MoreThanHalfAdds(b.perMs, b.tokens + COST * (r.admitted - x) - b.max, b.last - a,
        b.perMs * Ms(b.last, c.last), c.last - b.last);
  }

  /** A refill that reaches the cap, or a reset, fills the bucket. */
  lemma FullAgain(b: Bucket, t: Timed)
    requires Valid(b) && Exact(b, t.now) && !Uncapped(b, t)
    ensures var (c, ok) := Apply(b, t); c.tokens + (if ok then COST else 0) == b.max && c.last == t.now
  {
    hide Ms;
  }

  /** Every refusal is earned: there is an instant since when, with a bucket full
    * at it, admissions came to more than the burst less one token and half of
    * the rate up to the last refill. */
  lemma EveryRefusalIsEarned(perSecond: U32, burst: U32, created: nat, ts: seq<Timed>)
    requires ts != [] && Last(ts).op.Acquire? && Monotone(created, ts)
    requires var b := NewBucket(perSecond, burst, created);
             ExactRun(b, ts) && RunOf(b, ts).admitted == RunOf(b, Front(ts)).admitted
    ensures var b := NewBucket(perSecond, burst, created);
            exists a: nat, j: nat :: Earned(b, ts, a, j)
  {
    hide Apply, Exact, Ms;
    var b := NewBucket(perSecond, burst, created);
    var a, j := FullSince(b, ts, created);
    RunKeepsShape(b, ts, created);
    RunKeepsShape(b, Front(ts), created);
    AdmittedIff(RunOf(b, Front(ts)).b, Last(ts).now);
    LessThanAToken(b, ts, a, j);
    assert Earned(b, ts, a, j);
  }

  lemma LessThanAToken(b: Bucket, ts: seq<Timed>, a: nat, j: nat)
    requires FullAt(b, ts, a, j) && RunOf(b, ts).b.tokens < 1000
    requires RunOf(b, ts).b.perMs == b.perMs && RunOf(b, ts).b.max == b.max
    ensures Earned(b, ts, a, j)
  {
    hide RunOf;
  }

  predicate Earned(b: Bucket, ts: seq<Timed>, a: nat, j: nat) {
    var r := RunOf(b, ts);
    j <= |ts| && a <= r.b.last &&
    2 * NS_PER_MS * (1000 * (r.admitted - RunOf(b, ts[..j]).admitted) + 1000 - b.max) > b.perMs * (r.b.last - a)
  }

  /** Every acquisition comes long enough after the one before for a token. */
  predicate Paced(perSecond: nat, from: nat, ts: seq<Timed>) {
    ts == [] ||
    (Paced(perSecond, from, Front(ts)) && Last(ts).op.Acquire? &&
     (Front(ts) == [] || perSecond * Ms(End(from, Front(ts)), Last(ts).now) >= 1000))
  }

  /** Requests no faster than the rate are never refused, with a burst of one at least. */
  lemma {:induction false} PacedIsNeverRefused(perSecond: U32, burst: U32, created: nat, ts: seq<Timed>)
    requires burst >= 1 && Monotone(created, ts) && Paced(perSecond, created, ts)
    requires ExactRun(NewBucket(perSecond, burst, created), ts)
    ensures RunOf(NewBucket(perSecond, burst, created), ts).admitted == |ts|
    decreases |ts|
  {
    hide Apply, Ms, Exact;
    if ts != [] {
      var b := NewBucket(perSecond, burst, created);
      PacedIsNeverRefused(perSecond, burst, created, Front(ts));
      RunKeepsShape(b, Front(ts), created);
      var e := RunOf(b, Front(ts)).b;
      AdmittedIff(e, Last(ts).now);
      if Front(ts) != [] {
        MsAdds(e.last, End(created, Front(ts)), Last(ts).now);
        MulMonotone(perSecond, Ms(End(created, Front(ts)), Last(ts).now), Ms(e.last, Last(ts).now));
      }
    }
  }
}
