/** The token bucket shared by threads (crates/ussl-transport/src/rate_limit.rs:75-139):
  * `try_acquire` is a load and a compare-and-swap, `refill` takes the lock but
  * loads and stores the tokens separately, `reset` stores before it locks. Any
  * number of threads take these steps in any order. */
module BucketThreads {
  import opened Basics
  import RateLimit

  type Tid = nat

  /** What a thread wants after its refill: a token, or only to look. */
  datatype Goal = Take | Look

  /** The next step of a thread. */
  datatype Pc =
    | Idle
    | Lock(goal: Goal)
    | ReadClock(goal: Goal)
    | LoadForRefill(goal: Goal, gain: nat)
    | StoreRefill(goal: Goal, gain: nat, current: nat)
    | Unlock(goal: Goal)
    | LoadForTake
    | Swap(current: nat)
    | ResetStore
    | ResetClock
    | ResetLock(now: nat)
    | ResetWrite(now: nat)
    | ResetUnlock

  /** The shared fields, the threads, and counts of what has happened: tokens
    * taken, refill credit, resets, takes since the refill in progress loaded
    * (`overlap`), and takes that a refill's store has undone (`undone`). */
  datatype State = State(
    tokens: nat, last: nat, clock: nat, holder: Option<Tid>, pcs: map<Tid, Pc>,
    taken: nat, credit: nat, resets: nat, overlap: nat, undone: nat)

  datatype Config = Config(perMs: U64, max: U64)

  function PcOf(s: State, i: Tid): Pc {
    if i in s.pcs then s.pcs[i] else Idle
  }

  function At(s: State, i: Tid, pc: Pc): State {
    s.(pcs := s.pcs[i := pc])
  }

  function Start(c: Config, now: nat): State {
    State(c.max, now, now, None, map[], 0, 0, 0, 0, 0)
  }

  /** Time passes, a thread calls a method, or a thread takes its next step (a
    * swap may fail without cause). A thread that waits for the lock stays put. */
  datatype Action = Tick(ns: nat) | Call(i: Tid, pc: Pc) | Step(i: Tid, spurious: bool)

  function Gain(c: Config, last: nat, now: nat): nat {
    RateLimit.Gain(RateLimit.Bucket(0, last, c.perMs, c.max), now)
  }

  function Next(c: Config, s: State, a: Action): State {
    match a
    case Tick(ns) => s.(clock := s.clock + ns)
    case Call(i, pc) => if PcOf(s, i).Idle? && (pc.Lock? || pc.ResetStore?) then At(s, i, pc) else s
    case Step(i, spurious) => Advance(c, s, i, spurious)
  }

  function Advance(c: Config, s: State, i: Tid, spurious: bool): State {
    match PcOf(s, i)
    case Idle => s
    case Lock(goal) => if s.holder.Some? then s else At(s.(holder := Some(i)), i, ReadClock(goal))
    case ReadClock(goal) =>
      var gain := Gain(c, s.last, s.clock);
      if gain == 0 then At(s, i, Unlock(goal)) else At(s.(last := s.clock), i, LoadForRefill(goal, gain))
    case LoadForRefill(goal, gain) => At(s.(overlap := 0), i, StoreRefill(goal, gain, s.tokens))
    case StoreRefill(goal, gain, current) =>
      At(s.(tokens := RateLimit.Min((current + gain) % TWO_64, c.max), 
              undone := s.undone + s.overlap, credit := s.credit + gain), i, Unlock(goal))
    case Unlock(goal) => At(s.(holder := None), i, if goal.Take? then LoadForTake else Idle)
    case LoadForTake => At(s, i, if s.tokens < RateLimit.COST then Idle else Swap(s.tokens))
    case Swap(current) =>
      if spurious || s.tokens != current || current < RateLimit.COST then At(s, i, LoadForTake)
      else At(s.(tokens := current - RateLimit.COST, taken := s.taken + 1, overlap := s.overlap + 1), i, Idle)
    case ResetStore => At(s.(tokens := c.max, resets := s.resets + 1), i, ResetClock)
    case ResetClock => At(s, i, ResetLock(s.clock))
    case ResetLock(now) => if s.holder.Some? then s else At(s.(holder := Some(i)), i, ResetWrite(now))
    case ResetWrite(now) => At(s.(last := now), i, ResetUnlock)
    case ResetUnlock => At(s.(holder := None), i, Idle)
  }

  function Run(c: Config, s: State, actions: seq<Action>): State {
    if actions == [] then s else Next(c, Run(c, s, Front(actions)), Last(actions))
  }

  // ---------- invariants ----------

  predicate InLock(pc: Pc) {
    pc.ReadClock? || pc.LoadForRefill? || pc.StoreRefill? || pc.Unlock? || pc.ResetWrite? || pc.ResetUnlock?
  }

  predicate InReset(pc: Pc) {
    pc.ResetClock? || pc.ResetLock? || pc.ResetWrite? || pc.ResetUnlock?
  }

  /** What a thread knows; the credit it is about to store fits the time since creation. */
  predicate Knows(c: Config, s: State, created: nat, pc: Pc) {
    match pc
    case LoadForRefill(_, gain) => CreditFits(c, s, created, gain)
    case StoreRefill(_, gain, current) =>
      CreditFits(c, s, created, gain) && current <= c.max && current <= s.tokens + RateLimit.COST * s.overlap
    case Swap(current) => RateLimit.COST <= current <= c.max
    case ResetLock(now) => created <= now <= s.clock
    case ResetWrite(now) => created <= now <= s.clock
    case _ => true
  }

  predicate CreditFits(c: Config, s: State, created: nat, gain: nat) {
    s.resets == 0 ==> s.credit + gain <= c.perMs * RateLimit.Ms(created, s.last)
  }

  ghost predicate Threads(c: Config, s: State, created: nat) {
    && (forall i: Tid :: InLock(PcOf(s, i)) <==> s.holder == Some(i))
    && (forall i: Tid :: Knows(c, s, created, PcOf(s, i)))
    && (forall i: Tid :: InReset(PcOf(s, i)) ==> s.resets > 0)
  }

  predicate Books(c: Config, s: State, created: nat) {
    && s.tokens <= c.max
    && created <= s.last <= s.clock
    && s.tokens + RateLimit.COST * s.taken <= (s.resets + 1) * c.max + s.credit + RateLimit.COST * s.undone
    && CreditFits(c, s, created, 0)
  }

  ghost predicate Inv(c: Config, s: State, created: nat) {
    Threads(c, s, created) && Books(c, s, created)
  }

  lemma BooksAfter(c: Config, s: State, i: Tid, spurious: bool, created: nat)
    requires Inv(c, s, created)
    ensures Books(c, Advance(c, s, i, spurious), created)
  {
    assert Knows(c, s, created, PcOf(s, i));
    match PcOf(s, i)
    case ReadClock(goal) =>
      RateLimit.MsAdds(created, s.last, s.clock);
      RateLimit.MulMonotone(c.perMs, RateLimit.Ms(created, s.last), RateLimit.Ms(created, s.clock));
    case StoreRefill(goal, gain, current) =>
      RateLimit.ModAtMost(current + gain);
    case ResetStore =>
      RateLimit.OneMore(s.resets + 1, c.max);
    case _ =>
  }

  lemma OwnStep(c: Config, s: State, i: Tid, spurious: bool, created: nat)
    requires Inv(c, s, created)
    ensures var t := Advance(c, s, i, spurious);
            (InLock(PcOf(t, i)) <==> t.holder == Some(i)) && Knows(c, t, created, PcOf(t, i)) &&
            (InReset(PcOf(t, i)) ==> t.resets > 0)
  {
    assert Knows(c, s, created, PcOf(s, i));
    assert InLock(PcOf(s, i)) <==> s.holder == Some(i);
    assert InReset(PcOf(s, i)) ==> s.resets > 0;
    match PcOf(s, i)
    case ReadClock(goal) =>
      RateLimit.GainAtMost(RateLimit.Bucket(0, s.last, c.perMs, c.max), s.clock);
      RateLimit.MsAdds(created, s.last, s.clock);
      RateLimit.MulAdds(c.perMs, RateLimit.Ms(created, s.last), RateLimit.Ms(s.last, s.clock),
          RateLimit.Ms(created, s.clock));
    case _ =>
  }

  lemma OtherStep(c: Config, s: State, i: Tid, spurious: bool, created: nat, j: Tid)
    requires Inv(c, s, created) && j != i
    ensures var t := Advance(c, s, i, spurious);
            PcOf(t, j) == PcOf(s, j) && (InLock(PcOf(t, j)) <==> t.holder == Some(j)) &&
            Knows(c, t, created, PcOf(t, j)) && t.resets >= s.resets
  {
    hide Gain, RateLimit.Ms;
    assert Knows(c, s, created, PcOf(s, j));
    assert InLock(PcOf(s, j)) <==> s.holder == Some(j);
    assert InLock(PcOf(s, i)) <==> s.holder == Some(i);
  }

  /** A step of one thread leaves what every thread knows true. */
  lemma ThreadsAfter(c: Config, s: State, i: Tid, spurious: bool, created: nat)
    requires Inv(c, s, created)
    ensures Threads(c, Advance(c, s, i, spurious), created)
  {
    hide Advance, Knows, Books;
    var t := Advance(c, s, i, spurious);
    forall j: Tid ensures (InLock(PcOf(t, j)) <==> t.holder == Some(j)) && Knows(c, t, created, PcOf(t, j))
                          && (InReset(PcOf(t, j)) ==> t.resets > 0) {
      if j == i {
        OwnStep(c, s, i, spurious, created);
      } else {
        OtherStep(c, s, i, spurious, created, j);
        assert InReset(PcOf(s, j)) ==> s.resets > 0;
      }
    }
  }

  lemma NextKeepsInv(c: Config, s: State, a: Action, created: nat)
    requires Inv(c, s, created)
    ensures Inv(c, Next(c, s, a), created)
  {
    match a
    case Tick(ns) =>
      forall i: Tid ensures Knows(c, Next(c, s, a), created, PcOf(s, i)) {
        assert Knows(c, s, created, PcOf(s, i));
      }
    case Call(i, pc) =>
      var t := Next(c, s, a);
      if t != s {
        forall j: Tid ensures (InLock(PcOf(t, j)) <==> t.holder == Some(j)) && Knows(c, t, created, PcOf(t, j))
                              && (InReset(PcOf(t, j)) ==> t.resets > 0) {
          assert Knows(c, s, created, PcOf(s, j));
          assert InLock(PcOf(s, j)) <==> s.holder == Some(j);
          assert InReset(PcOf(s, j)) ==> s.resets > 0;
        }
      }
    case Step(i, spurious) =>
      BooksAfter(c, s, i, spurious, created);
      ThreadsAfter(c, s, i, spurious, created);
  }

  lemma {:induction false} EveryRunKeepsInv(c: Config, created: nat, actions: seq<Action>)
    ensures Inv(c, Run(c, Start(c, created), actions), created)
    decreases |actions|
  {
    if actions == [] {
      RateLimit.OneMore(0, c.max);
      RateLimit.MulMonotone(c.perMs, 0, RateLimit.Ms(created, created));
    } else {
      EveryRunKeepsInv(c, created, Front(actions));
      NextKeepsInv(c, Run(c, Start(c, created), Front(actions)), Last(actions), created);
    }
  }

  // ---------- what every interleaving guarantees ----------

  /** The bucket never overflows its cap, and the tokens taken are bounded by
    * the burst, the rate, the resets, and the takes that a refill undid. */
  lemma EveryInterleavingIsBounded(c: Config, created: nat, actions: seq<Action>)
    ensures var s := Run(c, Start(c, created), actions);
            s.tokens <= c.max &&
            1000 * s.taken <= (s.resets + 1) * c.max + s.credit + 1000 * s.undone &&
            (s.resets == 0 ==> 1000 * s.taken <= c.max + c.perMs * RateLimit.Ms(created, s.clock) + 1000 * s.undone)
  {
    EveryRunKeepsInv(c, created, actions);
    var s := Run(c, Start(c, created), actions);
    RateLimit.MsAdds(created, s.last, s.clock);
    RateLimit.MulMonotone(c.perMs, RateLimit.Ms(created, s.last), RateLimit.Ms(created, s.clock));
    RateLimit.OneMore(0, c.max);
  }

  /** A store to the tokens other than a take. */
  predicate Stores(s: State, a: Action) {
    a.Step? && (PcOf(s, a.i).StoreRefill? || PcOf(s, a.i).ResetStore?)
  }

  predicate NoStores(c: Config, s: State, actions: seq<Action>) {
    actions == [] || (NoStores(c, s, Front(actions)) && !Stores(Run(c, s, Front(actions)), Last(actions)))
  }

  /** From any state, as long as no refill or reset stores: every token is spent
    * once, and spent tokens and tokens left add up. */
  lemma {:induction false} NoTokenIsSpentTwice(c: Config, s: State, actions: seq<Action>)
    requires NoStores(c, s, actions)
    ensures var t := Run(c, s, actions);
            t.tokens + 1000 * t.taken == s.tokens + 1000 * s.taken
    decreases |actions|
  {
    hide Gain;
    if actions != [] {
      NoTokenIsSpentTwice(c, s, Front(actions));
    }
  }

  /** At most one thread at a time is between its refill's load and store. */
  lemma RefillsExclude(c: Config, created: nat, actions: seq<Action>, i: Tid, j: Tid)
    requires var s := Run(c, Start(c, created), actions); PcOf(s, i).StoreRefill? && PcOf(s, j).StoreRefill?
    ensures i == j
  {
    EveryRunKeepsInv(c, created, actions);
    var s := Run(c, Start(c, created), actions);
    assert InLock(PcOf(s, i)) && InLock(PcOf(s, j));
  }

  // ---------- when the sequential rate is kept ----------

  /** The sequential bound of a run without resets. */
  predicate KeepsTheRate(c: Config, created: nat, s: State) {
    1000 * s.taken <= c.max + c.perMs * RateLimit.Ms(created, s.clock)
  }

  /** Takes that no refill undid keep the rate. */
  lemma RateHoldsWithoutOverlap(c: Config, created: nat, actions: seq<Action>)
    requires var s := Run(c, Start(c, created), actions); s.resets == 0 && s.undone == 0
    ensures KeepsTheRate(c, created, Run(c, Start(c, created), actions))
  {
    EveryInterleavingIsBounded(c, created, actions);
  }

  function ConfigOf(perSecond: RateLimit.U32, burst: RateLimit.U32): Config {
    var b := RateLimit.NewBucket(perSecond, burst, 0);
    Config(b.perMs, b.max)
  }

  predicate IsBy(threads: set<Tid>, a: Action) {
    a.Tick? || a.i in threads
  }

  /** Only these threads call and step. */
  predicate By(threads: set<Tid>, actions: seq<Action>) {
    forall k :: 0 <= k < |actions| ==> IsBy(threads, actions[k])
  }

  /** Every run of these threads without resets keeps the rate. */
  ghost predicate KeptBy(c: Config, created: nat, threads: set<Tid>) {
    forall actions ::
      By(threads, actions) && Run(c, Start(c, created), actions).resets == 0 ==>
        KeepsTheRate(c, created, Run(c, Start(c, created), actions))
  }

  /** Exactly when sharing a limiter is safe, over all configurations, sets of
    * threads and runs without resets: at most one thread uses it, or it never
    * refills, or a millisecond refills it whole. */
  lemma RateIsKeptIff(perSecond: RateLimit.U32, burst: RateLimit.U32, created: nat, threads: set<Tid>)
    ensures KeptBy(ConfigOf(perSecond, burst), created, threads)
            <==> |threads| <= 1 || perSecond == 0 || perSecond >= 1000 * burst
  {
    hide Run, By, KeepsTheRate;
    var c := ConfigOf(perSecond, burst);
    if |threads| > 1 && 0 < perSecond < 1000 * burst {
      var i, j := TwoOf(threads);
      var s := Overspend(perSecond, burst, created, i, j, threads);
      var actions :| By(threads, actions) && Run(c, Start(c, created), actions) == s;
    } else {
      forall actions | By(threads, actions) && Run(c, Start(c, created), actions).resets == 0
        ensures KeepsTheRate(c, created, Run(c, Start(c, created), actions)) {
        if |threads| <= 1 {
          OneThreadKeepsTheRate(c, created, actions, threads);
        } else if perSecond == 0 {
          NoRefillKeepsTheRate(c, created, actions);
        } else {
          FullRefillKeepsTheRate(c, created, actions);
        }
      }
    }
  }

  lemma TwoOf(threads: set<Tid>) returns (i: Tid, j: Tid)
    requires |threads| > 1
    ensures i in threads && j in threads && i != j
  {
    i :| i in threads;
    assert |threads - {i}| == |threads| - 1;
    j :| j in threads - {i};
  }

  // ---------- one thread ----------

  /** Nobody else is in a call, and no take comes between a refill's load and store. */
  ghost predicate Alone(s: State, threads: set<Tid>) {
    s.undone == 0 && forall i: Tid ::
      (i !in threads ==> PcOf(s, i).Idle?) && (PcOf(s, i).StoreRefill? ==> s.overlap == 0)
  }

  lemma NextKeepsAlone(c: Config, s: State, a: Action, threads: set<Tid>)
    requires Alone(s, threads) && IsBy(threads, a) && forall i, j :: i in threads && j in threads ==> i == j
    ensures Alone(Next(c, s, a), threads)
  {
    hide Gain;
    forall i: Tid
      ensures i !in threads ==> PcOf(Next(c, s, a), i).Idle?
      ensures PcOf(Next(c, s, a), i).StoreRefill? ==> Next(c, s, a).overlap == 0 {
      assert i !in threads ==> PcOf(s, i).Idle?;
    }
  }

  lemma AllTheSame(threads: set<Tid>)
    requires |threads| <= 1
    ensures forall i, j :: i in threads && j in threads ==> i == j
  {
    forall i, j | i in threads && j in threads ensures i == j {
      if i != j {
        assert |{i, j}| == 2 && {i, j} <= threads;
        SubsetSize({i, j}, threads);
      }
    }
  }

  lemma SubsetSize(a: set<Tid>, b: set<Tid>)
    requires a <= b
    ensures |a| <= |b|
  {
    assert b == a + (b - a);
  }

  lemma {:induction false} OneThreadIsAlone(c: Config, created: nat, actions: seq<Action>, threads: set<Tid>)
    requires |threads| <= 1 && By(threads, actions)
    ensures Alone(Run(c, Start(c, created), actions), threads)
    decreases |actions|
  {
    if actions != [] {
      OneThreadIsAlone(c, created, Front(actions), threads);
      AllTheSame(threads);
      NextKeepsAlone(c, Run(c, Start(c, created), Front(actions)), Last(actions), threads);
    }
  }

  /** One thread, as a connection uses its limiter, keeps the rate. */
  lemma OneThreadKeepsTheRate(c: Config, created: nat, actions: seq<Action>, threads: set<Tid>)
    requires |threads| <= 1 && By(threads, actions)
    requires Run(c, Start(c, created), actions).resets == 0
    ensures KeepsTheRate(c, created, Run(c, Start(c, created), actions))
  {
    OneThreadIsAlone(c, created, actions, threads);
    RateHoldsWithoutOverlap(c, created, actions);
  }

  // ---------- nothing to refill, or everything at once ----------

  predicate Refilling(pc: Pc) {
    pc.LoadForRefill? || pc.StoreRefill?
  }

  ghost predicate NeverRefills(s: State) {
    s.undone == 0 && forall i: Tid :: !Refilling(PcOf(s, i))
  }

  lemma {:induction false} NoRateNoRefill(c: Config, created: nat, actions: seq<Action>)
    requires c.perMs == 0
    ensures NeverRefills(Run(c, Start(c, created), actions))
    decreases |actions|
  {
    if actions != [] {
      var s := Run(c, Start(c, created), Front(actions));
      NoRateNoRefill(c, created, Front(actions));
      assert Gain(c, s.last, s.clock) == 0;
      forall i: Tid ensures !Refilling(PcOf(Next(c, s, Last(actions)), i)) {
        assert !Refilling(PcOf(s, i));
      }
    }
  }

  lemma NoRefillKeepsTheRate(c: Config, created: nat, actions: seq<Action>)
    requires c.perMs == 0 && Run(c, Start(c, created), actions).resets == 0
    ensures KeepsTheRate(c, created, Run(c, Start(c, created), actions))
  {
    NoRateNoRefill(c, created, actions);
    RateHoldsWithoutOverlap(c, created, actions);
  }

  /** While a refill is under way, the millisecond it credits pays for a full bucket. */
  ghost predicate Ample(c: Config, s: State, created: nat) {
    s.resets == 0 ==>
      s.tokens + RateLimit.COST * s.taken <= c.max + c.perMs * RateLimit.Ms(created, s.last) &&
      forall i: Tid :: Refilling(PcOf(s, i)) ==> Paid(c, s, created)
  }

  predicate Paid(c: Config, s: State, created: nat) {
    s.tokens + RateLimit.COST * s.taken <= c.perMs * RateLimit.Ms(created, s.last)
  }

  lemma StepKeepsAmple(c: Config, s: State, i: Tid, spurious: bool, created: nat)
    requires c.perMs >= c.max && Inv(c, s, created) && Ample(c, s, created)
    ensures Ample(c, Advance(c, s, i, spurious), created)
  {
    hide Knows, Books;
    var t := Advance(c, s, i, spurious);
    assert InLock(PcOf(s, i)) <==> s.holder == Some(i);
    assert InReset(PcOf(s, i)) ==> s.resets > 0;
    assert s.resets == 0 && Refilling(PcOf(s, i)) ==> Paid(c, s, created);
    forall j: Tid | j != i ensures PcOf(t, j) == PcOf(s, j) && (InLock(PcOf(s, i)) ==> !Refilling(PcOf(s, j))) {
      assert InLock(PcOf(s, j)) <==> s.holder == Some(j);
    }
    match PcOf(s, i)
    case ReadClock(goal) =>
      if t != At(s, i, Unlock(goal)) {
        LongEnough(c, s, created);
      }
    case _ =>
  }

  /** A refill that gains anything advances the clock by a millisecond's worth at least. */
  lemma LongEnough(c: Config, s: State, created: nat)
    requires Books(c, s, created) && Gain(c, s.last, s.clock) > 0
    ensures c.perMs * RateLimit.Ms(created, s.last) + c.perMs <= c.perMs * RateLimit.Ms(created, s.clock)
  {
    if RateLimit.Ms(s.last, s.clock) == 0 {
      RateLimit.GainAtMost(RateLimit.Bucket(0, s.last, c.perMs, c.max), s.clock);
      assert false;
    }
    RateLimit.MsAdds(created, s.last, s.clock);
    RateLimit.OneMore(RateLimit.Ms(created, s.last), c.perMs);
    RateLimit.MulMonotone(c.perMs, RateLimit.Ms(created, s.last) + 1, RateLimit.Ms(created, s.clock));
  }

  lemma {:induction false} EveryRunIsAmple(c: Config, created: nat, actions: seq<Action>)
    requires c.perMs >= c.max
    ensures Ample(c, Run(c, Start(c, created), actions), created)
    decreases |actions|
  {
    hide Inv, Advance;
    if actions == [] {
      RateLimit.MulMonotone(c.perMs, 0, RateLimit.Ms(created, created));
    } else {
      var s := Run(c, Start(c, created), Front(actions));
      EveryRunIsAmple(c, created, Front(actions));
      EveryRunKeepsInv(c, created, Front(actions));
      match Last(actions)
      case Step(i, spurious) => StepKeepsAmple(c, s, i, spurious, created);
      case _ =>
        var t := Next(c, s, Last(actions));
        forall i: Tid ensures Refilling(PcOf(t, i)) ==> Refilling(PcOf(s, i)) {
        }
    }
  }

  lemma FullRefillKeepsTheRate(c: Config, created: nat, actions: seq<Action>)
    requires c.perMs >= c.max && Run(c, Start(c, created), actions).resets == 0
    ensures KeepsTheRate(c, created, Run(c, Start(c, created), actions))
  {
    EveryRunIsAmple(c, created, actions);
    EveryRunKeepsInv(c, created, actions);
    var s := Run(c, Start(c, created), actions);
    RateLimit.MsAdds(created, s.last, s.clock);
    RateLimit.MulMonotone(c.perMs, RateLimit.Ms(created, s.last), RateLimit.Ms(created, s.clock));
  }

  // ---------- two threads ----------

  ghost predicate Reaches(c: Config, s: State, t: State, threads: set<Tid>) {
    exists actions :: By(threads, actions) && Run(c, s, actions) == t
  }

  lemma NothingYet(c: Config, s: State, threads: set<Tid>)
    ensures Reaches(c, s, s, threads)
  {
    assert By(threads, []) && Run(c, s, []) == s;
  }

  lemma ReachesNext(c: Config, s: State, t: State, threads: set<Tid>, a: Action)
    requires Reaches(c, s, t, threads) && IsBy(threads, a)
    ensures Reaches(c, s, Next(c, t, a), threads)
  {
    var actions :| By(threads, actions) && Run(c, s, actions) == t;
    assert Front(actions + [a]) == actions;
    assert By(threads, actions + [a]) && Run(c, s, actions + [a]) == Next(c, t, a);
  }

  /** A thread that finds nothing to refill gets as far as its swap. */
  lemma ReadyToTake(c: Config, s: State, t: State, threads: set<Tid>, i: Tid) returns (u: State)
    requires Reaches(c, s, t, threads) && i in threads
    requires PcOf(t, i) == Idle && t.holder == None && Gain(c, t.last, t.clock) == 0 && t.tokens >= RateLimit.COST
    ensures Reaches(c, s, u, threads) && u == t.(pcs := t.pcs[i := Swap(t.tokens)])
  {
    hide Reaches, Gain;
    ReachesNext(c, s, t, threads, Call(i, Lock(Take)));
    u := Next(c, t, Call(i, Lock(Take)));
    ReachesNext(c, s, u, threads, Step(i, false));
    u := Next(c, u, Step(i, false));
    assert u == t.(holder := Some(i), pcs := t.pcs[i := ReadClock(Take)]);
    ReachesNext(c, s, u, threads, Step(i, false));
    u := Next(c, u, Step(i, false));
    assert u == t.(holder := Some(i), pcs := t.pcs[i := Unlock(Take)]);
    ReachesNext(c, s, u, threads, Step(i, false));
    u := Next(c, u, Step(i, false));
    assert u == t.(pcs := t.pcs[i := LoadForTake]);
    ReachesNext(c, s, u, threads, Step(i, false));
    u := Next(c, u, Step(i, false));
  }

  /** With enough tokens and nothing to refill, a thread takes one after the other. */
  lemma {:induction false} TakesMany(c: Config, s: State, t: State, threads: set<Tid>, i: Tid, n: nat)
      returns (u: State)
    requires Reaches(c, s, t, threads) && i in threads
    requires PcOf(t, i) == Idle && t.holder == None && Gain(c, t.last, t.clock) == 0 && t.tokens >= RateLimit.COST * n
    ensures Reaches(c, s, u, threads)
    ensures u == t.(tokens := t.tokens - RateLimit.COST * n, taken := t.taken + n, overlap := t.overlap + n,
            pcs := u.pcs)
    ensures PcOf(u, i) == Idle && forall j: Tid :: j != i ==> PcOf(u, j) == PcOf(t, j)
  {
    hide Reaches, Gain;
    u := t;
    if n > 0 {
      u := TakesMany(c, s, t, threads, i, n - 1);
      u := ReadyToTake(c, s, u, threads, i);
      ReachesNext(c, s, u, threads, Step(i, false));
      u := Next(c, u, Step(i, false));
    }
  }

  /** A millisecond after the last refill, a thread that only looks begins to refill. */
  lemma BeginsToRefill(c: Config, s: State, t: State, threads: set<Tid>, i: Tid) returns (u: State)
    requires Reaches(c, s, t, threads) && i in threads
    requires PcOf(t, i) == Idle && t.holder == None && t.clock == t.last && 0 < c.perMs
    ensures Reaches(c, s, u, threads)
    ensures u == t.(clock := t.clock + RateLimit.NS_PER_MS, last := t.clock + RateLimit.NS_PER_MS, holder := Some(i),
                    overlap := 0, pcs := t.pcs[i := StoreRefill(Look, c.perMs, t.tokens)])
  {
    hide Reaches, Gain;
    ReachesNext(c, s, t, threads, Tick(RateLimit.NS_PER_MS));
    u := Next(c, t, Tick(RateLimit.NS_PER_MS));
    OneMillisecond(c, u);
    ReachesNext(c, s, u, threads, Call(i, Lock(Look)));
    u := Next(c, u, Call(i, Lock(Look)));
    ReachesNext(c, s, u, threads, Step(i, false));
    u := Next(c, u, Step(i, false));
    assert PcOf(u, i) == ReadClock(Look);
    ReachesNext(c, s, u, threads, Step(i, false));
    u := Next(c, u, Step(i, false));
    assert PcOf(u, i) == LoadForRefill(Look, c.perMs);
    ReachesNext(c, s, u, threads, Step(i, false));
    u := Next(c, u, Step(i, false));
  }

  lemma OneMillisecond(c: Config, s: State)
    requires s.clock == s.last + RateLimit.NS_PER_MS
    ensures Gain(c, s.last, s.clock) == c.perMs && Gain(c, s.clock, s.clock) == 0
  {
    assert RateLimit.Ms(s.last, s.clock) == 1;
    assert c.perMs * 1 == c.perMs;
  }

  /** Thread j takes a token between the load and the store of thread i's refill,
    * whose store brings it back. */
  lemma TakesInBetween(c: Config, s: State, t: State, threads: set<Tid>, i: Tid, j: Tid, current: nat)
      returns (u: State)
    requires Reaches(c, s, t, threads) && i in threads && j in threads && i != j
    requires PcOf(t, i) == StoreRefill(Look, c.perMs, current) && PcOf(t, j) == Swap(current)
    requires t.tokens == current >= RateLimit.COST && c.max <= current + c.perMs < TWO_64
    ensures Reaches(c, s, u, threads)
    ensures u.tokens == c.max && u.taken == t.taken + 1 && u.holder == None && u.resets == t.resets
    ensures u.last == t.last && u.clock == t.clock && PcOf(u, i) == Idle
  {
    hide Reaches, Gain;
    ReachesNext(c, s, t, threads, Step(j, false));
    u := Next(c, t, Step(j, false));
    ReachesNext(c, s, u, threads, Step(i, false));
    u := Next(c, u, Step(i, false));
    assert PcOf(u, i) == Unlock(Look);
    ReachesNext(c, s, u, threads, Step(i, false));
    u := Next(c, u, Step(i, false));
  }

  lemma NothingGained(c: Config, s: State)
    requires s.last == s.clock
    ensures Gain(c, s.last, s.clock) == 0
  {
    assert RateLimit.Ms(s.last, s.clock) == 0;
    assert c.perMs * 0 == 0;
  }

  /** Thread i takes what a millisecond will refill; at the end of that
    * millisecond its next refill fills the bucket and undoes a take of thread j
    * as well; then the whole bucket is taken. */
  lemma Overspend(perSecond: RateLimit.U32, burst: RateLimit.U32, created: nat, i: Tid, j: Tid, threads: set<Tid>)
      returns (s: State)
    requires i in threads && j in threads && i != j && 0 < perSecond < 1000 * burst
    ensures var c := ConfigOf(perSecond, burst);
            Reaches(c, Start(c, created), s, threads) && s.resets == 0 && !KeepsTheRate(c, created, s)
  {
    hide Reaches, Gain;
    var c := ConfigOf(perSecond, burst);
    var n := perSecond / 1000;
    s := Start(c, created);
    NothingYet(c, s, threads);
    NothingGained(c, s);
    s := TakesMany(c, s, s, threads, i, n);
    s := ReadyToTake(c, Start(c, created), s, threads, j);
    s := BeginsToRefill(c, Start(c, created), s, threads, i);
    s := TakesInBetween(c, Start(c, created), s, threads, i, j, s.tokens);
    NothingGained(c, s);
    s := TakesMany(c, Start(c, created), s, threads, i, burst);
    assert s.taken == n + 1 + burst && RateLimit.Ms(created, s.clock) == 1;
  }

  /** A concrete case: with a burst of one and one token a second, two threads
    * take two tokens within a millisecond. */
  lemma OverlapBreaksTheRate()
    ensures exists actions ::
              var c := ConfigOf(1, 1);
              var s := Run(c, Start(c, 0), actions);
              By({0, 1}, actions) && s.resets == 0 && !KeepsTheRate(c, 0, s)
  {
    assert |{0, 1}| == 2;
    RateIsKeptIff(1, 1, 0, {0, 1});
  }
}
