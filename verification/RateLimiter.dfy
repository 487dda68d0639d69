/** The token-bucket limiter, its eviction of idle buckets, and the ideal limiter that never evicts.
    Doubles are reals; times are nanoseconds since the clock's epoch. */
module RateLimiting {
  import opened LeastOfSet

  const EVICT_THRESHOLD := 10000
  const NANOS_PER_MS := 1_000_000

  // last == 0 marks a bucket that was just inserted.
  datatype Bucket = Bucket(tokens: real, last: int)

  type Buckets = map<string, Bucket>

  datatype Answer = Answer(allowed: bool, retryMs: int)

  datatype Op = Allow(key: string, now: int) | Refund(key: string, now: int) | Evict(now: int)

  function Min(a: real, b: real): real {
    if a <= b then a else b
  }

  function Seconds(nanos: int): real {
    nanos as real / 1_000_000_000.0
  }

  function Ceil(x: real): int {
    -(-x).Floor
  }

  datatype Limits = Limits(burst: real, refill: real)
  {
    predicate Valid() {
      burst >= 0.0 && refill > 0.0
    }

    /** The tokens a bucket has accrued by `now`. */
    function Accrued(b: Bucket, now: int): real {
      Min(burst, b.tokens + Seconds(now - b.last) * refill)
    }

    predicate Full(b: Bucket, now: int) {
      Accrued(b, now) >= burst
    }

    /** evict_idle. */
    function Evicted(m: Buckets, now: int): Buckets {
      map k | k in m && !Full(m[k], now) :: m[k]
    }

    function Refilled(b: Bucket, now: int): Bucket {
      if b.last == 0 then Bucket(burst, now)
      else if now - b.last > 0 then Bucket(Accrued(b, now), now)
      else b
    }

    function Spend(b: Bucket): (Bucket, Answer)
      requires Valid()
    {
      if b.tokens >= 1.0 then (Bucket(b.tokens - 1.0, b.last), Answer(true, 0))
      else (b, Answer(false, Ceil((1.0 - b.tokens) / refill * 1000.0)))
    }

    function Lookup(m: Buckets, key: string): Bucket {
      if key in m then m[key] else Bucket(0.0, 0)
    }

    /** A call that looks at one bucket and nothing else. */
    function IdealAllow(m: Buckets, key: string, now: int): (Buckets, Answer)
      requires Valid()
    {
      var (b, answer) := Spend(Refilled(Lookup(m, key), now));
      (m[key := b], answer)
    }

    /** allow: a large map is swept first. */
    function AllowStep(m: Buckets, key: string, now: int): (Buckets, Answer)
      requires Valid()
    {
      IdealAllow(if |m| > EVICT_THRESHOLD then Evicted(m, now) else m, key, now)
    }

    function RefundStep(m: Buckets, key: string, now: int): Buckets {
      if key in m then m[key := Bucket(Min(burst, m[key].tokens + 1.0), now)] else m
    }
  }

  class RateLimiter {
    const limits: Limits
    var buckets: Buckets

    constructor (burst: real, refillPerSec: real)
      ensures limits == Limits(burst, refillPerSec) && buckets == map[]
    {
      limits := Limits(burst, refillPerSec);
      buckets := map[];
    }

    method Allow(key: string, now: int) returns (allowed: bool, retryMs: int)
      requires limits.Valid()
      modifies this
      ensures (buckets, Answer(allowed, retryMs)) == limits.AllowStep(old(buckets), key, now)
    {
      hide Limits.Evicted, Limits.Accrued, Seconds, Ceil;
      if |buckets| > EVICT_THRESHOLD {
        EvictIdle(now);
      }
      var b := if key in buckets then buckets[key] else Bucket(0.0, 0);
      if b.last == 0 {
        b := Bucket(limits.burst, now);
      } else {
        var elapsed := Seconds(now - b.last);
        ElapsedSign(now - b.last);
        AccruedAfter(limits, b, now);
        if elapsed > 0.0 {
          b := Bucket(Min(limits.burst, b.tokens + elapsed * limits.refill), now);
        }
      }
      if b.tokens >= 1.0 {
        b := b.(tokens := b.tokens - 1.0);
        buckets := buckets[key := b];
        return true, 0;
      }
      buckets := buckets[key := b];
      var need := 1.0 - b.tokens;
      return false, Ceil(need / limits.refill * 1000.0);
    }

    method Refund(key: string, now: int)
      modifies this
      ensures buckets == limits.RefundStep(old(buckets), key, now)
    {
      if key !in buckets {
        return;
      }
      buckets := buckets[key := Bucket(Min(limits.burst, buckets[key].tokens + 1.0), now)];
    }

    /** The order of the sweep does not matter. */
    method EvictIdle(now: int)
      modifies this
      ensures buckets == limits.Evicted(old(buckets), now)
    {
      hide Limits.Full;
      ghost var before := buckets;
      var rest := buckets.Keys;
      while rest != {}
        invariant rest <= buckets.Keys <= before.Keys
        invariant forall k :: k in buckets ==> buckets[k] == before[k]
        invariant forall k :: k in rest ==> k in buckets
        invariant forall k :: k in before && k !in rest ==> (k in buckets <==> !limits.Full(before[k], now))
        decreases |rest|
      {
        ghost var some := Pick(rest);
        var k :| k in rest;
        if limits.Full(buckets[k], now) {
          buckets := buckets - {k};
        }
        rest := rest - {k};
      }
      assert buckets == limits.Evicted(before, now);
    }
  }

  lemma ElapsedSign(nanos: int)
    ensures Seconds(nanos) > 0.0 <==> nanos > 0
    ensures nanos >= 0 ==> Seconds(nanos) >= 0.0
  {
  }

  // ---- Runs ----

  /** The limiter; a sweep may come at any point. */
  function Run(l: Limits, m: Buckets, ops: seq<Op>): (Buckets, seq<Answer>)
    requires l.Valid()
    decreases |ops|
  {
    if ops == [] then (m, [])
    else
      match ops[0]
      case Allow(key, now) =>
        var (next, answer) := l.AllowStep(m, key, now);
        var (end, answers) := Run(l, next, ops[1..]);
        (end, [answer] + answers)
      case Refund(key, now) => Run(l, l.RefundStep(m, key, now), ops[1..])
      case Evict(now) => Run(l, l.Evicted(m, now), ops[1..])
  }

  /** The ideal limiter keeps every bucket for ever. */
  function RunIdeal(l: Limits, m: Buckets, ops: seq<Op>): (Buckets, seq<Answer>)
    requires l.Valid()
    decreases |ops|
  {
    if ops == [] then (m, [])
    else
      match ops[0]
      case Allow(key, now) =>
        var (next, answer) := l.IdealAllow(m, key, now);
        var (end, answers) := RunIdeal(l, next, ops[1..]);
        (end, [answer] + answers)
      case Refund(key, now) => RunIdeal(l, l.RefundStep(m, key, now), ops[1..])
      case Evict(_) => RunIdeal(l, m, ops[1..])
  }

  /** Times are positive and do not decrease. */
  ghost predicate Timed(ops: seq<Op>, t: int) {
    ops == [] || (t <= ops[0].now && 0 < ops[0].now && Timed(ops[1..], ops[0].now))
  }

  function EndTime(ops: seq<Op>, t: int): int {
    if ops == [] then t else EndTime(ops[1..], ops[0].now)
  }

  /** Every bucket was last touched by time t, and holds between nothing and a full burst. */
  ghost predicate Sound(l: Limits, m: Buckets, t: int) {
    forall k :: k in m ==> 0 < m[k].last <= t && 0.0 <= m[k].tokens <= l.burst
  }

  // ---- Arithmetic of accrual ----

  lemma SecondsAdd(a: int, b: int)
    ensures Seconds(a + b) == Seconds(a) + Seconds(b)
  {
  }

  lemma RefillMonotone(l: Limits, a: int, b: int)
    requires l.Valid() && a <= b
    ensures Seconds(a) * l.refill <= Seconds(b) * l.refill
    ensures a >= 0 ==> 0.0 <= Seconds(a) * l.refill
  {
    SecondsAdd(a, b - a);
    ProductSign(Seconds(b - a), l.refill);
    if a >= 0 {
      ProductSign(Seconds(a), l.refill);
    }
    assert Seconds(b) * l.refill == Seconds(a) * l.refill + Seconds(b - a) * l.refill;
  }

  lemma ProductSign(a: real, b: real)
    requires a >= 0.0 && b >= 0.0
    ensures a * b >= 0.0
  {
  }

  lemma FullStays(l: Limits, b: Bucket, t: int, now: int)
    requires l.Valid() && t <= now && l.Full(b, t)
    ensures l.Full(b, now)
  {
    RefillMonotone(l, t - b.last, now - b.last);
  }

  lemma RefilledSound(l: Limits, b: Bucket, now: int)
    requires l.Valid() && 0 < now && (b.last != 0 ==> 0 < b.last <= now && 0.0 <= b.tokens <= l.burst)
    ensures var r := l.Refilled(b, now); r.last == now && 0.0 <= r.tokens <= l.burst
    ensures b.last != 0 ==> l.Refilled(b, now).tokens == l.Accrued(b, now)
  {
    if b.last != 0 {
      RefillMonotone(l, 0, now - b.last);
      assert Seconds(0) * l.refill == 0.0;
    }
  }

  // ---- Eviction is unobservable ----

  /** The limiter has forgotten only buckets that are full. */
  ghost predicate Agrees(l: Limits, m: Buckets, ideal: Buckets, t: int) {
    && (forall k :: k in m ==> k in ideal && m[k] == ideal[k])
    && (forall k :: k in ideal && k !in m ==> l.Full(ideal[k], t))
  }

  lemma AgreesLater(l: Limits, m: Buckets, ideal: Buckets, t: int, now: int)
    requires l.Valid() && t <= now && Agrees(l, m, ideal, t)
    ensures Agrees(l, m, ideal, now)
    ensures Agrees(l, l.Evicted(m, now), ideal, now)
  {
    hide Limits.Full;
    forall k | k in ideal && k !in m ensures l.Full(ideal[k], now) {
      FullStays(l, ideal[k], t, now);
    }
  }

  /** A forgotten bucket and a fresh one refill to the same. */
  lemma FullIsFresh(l: Limits, b: Bucket, now: int)
    requires l.Valid() && 0 < b.last <= now && b.tokens <= l.burst && l.Full(b, now)
    ensures l.Refilled(b, now) == Bucket(l.burst, now)
  {
    if b.last == now {
      assert Seconds(0) * l.refill == 0.0;
    }
  }

  lemma AllowAgrees(l: Limits, m: Buckets, ideal: Buckets, key: string, now: int)
    requires l.Valid() && 0 < now && Agrees(l, m, ideal, now) && Sound(l, ideal, now)
    ensures l.IdealAllow(m, key, now).1 == l.IdealAllow(ideal, key, now).1
    ensures Agrees(l, l.IdealAllow(m, key, now).0, l.IdealAllow(ideal, key, now).0, now)
    ensures Sound(l, l.IdealAllow(ideal, key, now).0, now)
  {
    hide Limits.Full, Limits.Accrued, Limits.Refilled, Ceil;
    RefilledSound(l, l.Lookup(ideal, key), now);
    if key !in m {
      FreshRefills(l, now);
      if key in ideal {
        FullIsFresh(l, ideal[key], now);
      }
    }
  }

  lemma FreshRefills(l: Limits, now: int)
    ensures l.Refilled(Bucket(0.0, 0), now) == Bucket(l.burst, now)
  {
  }

  /** A refund that finds the bucket forgotten where the ideal limiter still has it does nothing, and so
      keeps the agreement exactly when one more token fills that bucket. */
  predicate RefundFits(l: Limits, m: Buckets, ideal: Buckets, key: string) {
    key in m || key !in ideal || ideal[key].tokens + 1.0 >= l.burst
  }

  lemma RefundAgrees(l: Limits, m: Buckets, ideal: Buckets, key: string, now: int)
    requires l.Valid() && 0 < now && Agrees(l, m, ideal, now) && Sound(l, ideal, now)
    ensures Agrees(l, l.RefundStep(m, key, now), l.RefundStep(ideal, key, now), now) <==> RefundFits(l, m, ideal, key)
    ensures Sound(l, l.RefundStep(ideal, key, now), now)
  {
    hide Limits.Accrued;
    if key in ideal {
      AccruedNow(l, Min(l.burst, ideal[key].tokens + 1.0), now);
    }
  }

  function IdealNext(l: Limits, ideal: Buckets, op: Op): Buckets
    requires l.Valid()
  {
    match op
    case Allow(key, now) => l.IdealAllow(ideal, key, now).0
    case Refund(key, now) => l.RefundStep(ideal, key, now)
    case Evict(_) => ideal
  }

  function LimiterNext(l: Limits, m: Buckets, op: Op): Buckets
    requires l.Valid()
  {
    match op
    case Allow(key, now) => l.AllowStep(m, key, now).0
    case Refund(key, now) => l.RefundStep(m, key, now)
    case Evict(now) => l.Evicted(m, now)
  }

  predicate RefundsFit(l: Limits, m: Buckets, ideal: Buckets, ops: seq<Op>)
    requires l.Valid()
    decreases |ops|
  {
    ops == [] || ((ops[0].Refund? ==> RefundFits(l, m, ideal, ops[0].key))
                  && RefundsFit(l, LimiterNext(l, m, ops[0]), IdealNext(l, ideal, ops[0]), ops[1..]))
  }

  /** After every step the limiter has forgotten only full buckets. */
  ghost predicate AgreesThroughout(l: Limits, m: Buckets, ideal: Buckets, ops: seq<Op>)
    requires l.Valid()
    decreases |ops|
  {
    ops == [] || (Agrees(l, LimiterNext(l, m, ops[0]), IdealNext(l, ideal, ops[0]), ops[0].now)
                  && AgreesThroughout(l, LimiterNext(l, m, ops[0]), IdealNext(l, ideal, ops[0]), ops[1..]))
  }

  lemma StepAgrees(l: Limits, m: Buckets, ideal: Buckets, op: Op, t: int)
    requires l.Valid() && t <= op.now && 0 < op.now && Agrees(l, m, ideal, t) && Sound(l, ideal, t)
    ensures Sound(l, IdealNext(l, ideal, op), op.now)
    ensures Agrees(l, LimiterNext(l, m, op), IdealNext(l, ideal, op), op.now)
       <==> (op.Refund? ==> RefundFits(l, m, ideal, op.key))
    ensures op.Allow? ==> l.AllowStep(m, op.key, op.now).1 == l.IdealAllow(ideal, op.key, op.now).1
  {
    hide Limits.Full, Limits.IdealAllow, Limits.Evicted, Limits.RefundStep, Agrees, Sound, RefundFits;
    AgreesLater(l, m, ideal, t, op.now);
    SoundLater(l, ideal, t, op.now);
    match op {
      case Allow(key, now) => AllowAgrees(l, if |m| > EVICT_THRESHOLD then l.Evicted(m, now) else m, ideal, key, now);
      case Refund(key, now) => RefundAgrees(l, m, ideal, key, now);
      case Evict(_) =>
    }
  }

  /** The limiter stays in agreement with one that never forgets exactly when every refund fits, and then
      it gives the same answers: same decisions, same retry estimates, whatever keys are called in whatever
      order and whenever sweeps happen. */
  lemma {:induction false} EvictionUnobservable(l: Limits, m: Buckets, ideal: Buckets, ops: seq<Op>, t: int)
    requires l.Valid() && 0 <= t && Timed(ops, t) && Agrees(l, m, ideal, t) && Sound(l, ideal, t)
    ensures AgreesThroughout(l, m, ideal, ops) <==> RefundsFit(l, m, ideal, ops)
    ensures RefundsFit(l, m, ideal, ops) ==> Run(l, m, ops).1 == RunIdeal(l, ideal, ops).1
    decreases |ops|
  {
    hide Limits.AllowStep, Limits.IdealAllow, Limits.Evicted, Limits.RefundStep, Agrees, Sound, RefundFits;
    if ops != [] {
      StepAgrees(l, m, ideal, ops[0], t);
      if ops[0].Refund? ==> RefundFits(l, m, ideal, ops[0].key) {
        EvictionUnobservable(l, LimiterNext(l, m, ops[0]), IdealNext(l, ideal, ops[0]), ops[1..], ops[0].now);
      }
    }
  }

  lemma SoundLater(l: Limits, m: Buckets, t: int, now: int)
    requires Sound(l, m, t) && t <= now
    ensures Sound(l, m, now)
  {
  }

  // ---- Refunds that always fit ----

  /** Less than one token is refilled between the two times. */
  predicate Soon(l: Limits, since: int, now: int) {
    Seconds(now - since) * l.refill < 1.0
  }

  /** Each refund comes within the refill time of one token after an admission of its key, with no other
      call of that key in between. A caller can tell from the answers alone; pending holds the keys that
      may be refunded, with the time of their admission. */
  predicate PromptRefunds(l: Limits, ops: seq<Op>, answers: seq<Answer>, pending: map<string, int>)
    decreases |ops|
  {
    if ops == [] then true
    else
      match ops[0]
      case Allow(key, now) =>
        answers != []
        && PromptRefunds(l, ops[1..], answers[1..], if answers[0].allowed then pending[key := now] else pending - {key})
      case Refund(key, now) =>
        key in pending && Soon(l, pending[key], now)
        && PromptRefunds(l, ops[1..], answers, pending - {key})
      case Evict(_) => PromptRefunds(l, ops[1..], answers, pending)
  }

  /** A pending key's bucket lacks at least one token of its admission. */
  ghost predicate Lacking(l: Limits, ideal: Buckets, pending: map<string, int>) {
    forall k :: k in pending ==> k in ideal && ideal[k].last == pending[k] && ideal[k].tokens <= l.burst - 1.0
  }

  lemma AdmittedLacks(l: Limits, ideal: Buckets, key: string, now: int, pending: map<string, int>)
    requires l.Valid() && 0 < now && Sound(l, ideal, now) && Lacking(l, ideal, pending)
    ensures var (next, answer) := l.IdealAllow(ideal, key, now);
            Lacking(l, next, if answer.allowed then pending[key := now] else pending - {key})
  {
    hide Limits.Accrued, Limits.Refilled, Ceil;
    RefilledSound(l, l.Lookup(ideal, key), now);
  }

  /** A bucket that lacks a token is not full, so no sweep has taken it, while less than one token's
      refill time has passed. */
  lemma LackingIsKept(l: Limits, m: Buckets, ideal: Buckets, key: string, now: int, pending: map<string, int>)
    requires l.Valid() && Agrees(l, m, ideal, now) && Lacking(l, ideal, pending)
    requires key in pending && Soon(l, pending[key], now)
    ensures key in m
  {
    hide Limits.Full, Soon;
    StaysBelow(l, ideal[key], now);
  }

  lemma StaysBelow(l: Limits, b: Bucket, now: int)
    requires b.tokens <= l.burst - 1.0 && Soon(l, b.last, now)
    ensures !l.Full(b, now)
  {
    var gained := Seconds(now - b.last) * l.refill;
    assert gained < 1.0 by { assert Soon(l, b.last, now); }
    assert b.tokens + gained < l.burst;
    assert l.Accrued(b, now) == b.tokens + gained;
  }

  lemma {:induction false} PromptRefundsFit(
      l: Limits, m: Buckets, ideal: Buckets, ops: seq<Op>, t: int, pending: map<string, int>)
    requires l.Valid() && 0 <= t && Timed(ops, t) && Agrees(l, m, ideal, t) && Sound(l, ideal, t)
    requires Lacking(l, ideal, pending) && PromptRefunds(l, ops, Run(l, m, ops).1, pending)
    ensures RefundsFit(l, m, ideal, ops)
    decreases |ops|
  {
    hide Limits.Full, Limits.AllowStep, Limits.IdealAllow, Limits.Evicted, Limits.RefundStep, Agrees, Sound, Lacking, Soon;
    if ops != [] {
      var op := ops[0];
      var next, idealNext := LimiterNext(l, m, op), IdealNext(l, ideal, op);
      AgreesLater(l, m, ideal, t, op.now);
      SoundLater(l, ideal, t, op.now);
      match op {
        case Allow(key, now) =>
          StepAgrees(l, m, ideal, op, t);
          AdmittedLacks(l, ideal, key, now, pending);
          var answer := l.AllowStep(m, key, now).1;
          assert Run(l, m, ops).1[1..] == Run(l, next, ops[1..]).1;
          PromptRefundsFit(l, next, idealNext, ops[1..], now, if answer.allowed then pending[key := now] else pending - {key});
        case Refund(key, now) =>
          LackingIsKept(l, m, ideal, key, now, pending);
          StepAgrees(l, m, ideal, op, t);
          RefundLacks(l, ideal, key, now, pending);
          PromptRefundsFit(l, next, idealNext, ops[1..], now, pending - {key});
        case Evict(_) =>
          StepAgrees(l, m, ideal, op, t);
          PromptRefundsFit(l, next, idealNext, ops[1..], op.now, pending);
      }
    }
  }

  lemma RefundLacks(l: Limits, ideal: Buckets, key: string, now: int, pending: map<string, int>)
    requires Lacking(l, ideal, pending)
    ensures Lacking(l, l.RefundStep(ideal, key, now), pending - {key})
  {
  }

  /** From an empty limiter: prompt refunds, and runs without refunds in particular, leave no trace of the
      sweeps. */
  lemma PromptRefundsUnobservable(l: Limits, ops: seq<Op>)
    requires l.Valid() && Timed(ops, 0) && PromptRefunds(l, ops, Run(l, map[], ops).1, map[])
    ensures Run(l, map[], ops).1 == RunIdeal(l, map[], ops).1
  {
    hide RefundsFit, Run, RunIdeal, PromptRefunds;
    PromptRefundsFit(l, map[], map[], ops, 0, map[]);
    EvictionUnobservable(l, map[], map[], ops, 0);
  }

  lemma {:induction false} NoRefundIsPrompt(l: Limits, m: Buckets, ops: seq<Op>, pending: map<string, int>)
    requires l.Valid() && forall i :: 0 <= i < |ops| ==> !ops[i].Refund?
    ensures PromptRefunds(l, ops, Run(l, m, ops).1, pending)
    decreases |ops|
  {
    hide Limits.AllowStep, Limits.Evicted;
    if ops != [] {
      match ops[0] {
        case Allow(key, now) =>
          var (next, answer) := l.AllowStep(m, key, now);
          assert Run(l, m, ops).1[1..] == Run(l, next, ops[1..]).1;
          NoRefundIsPrompt(l, next, ops[1..], if answer.allowed then pending[key := now] else pending - {key});
        case Evict(now) => NoRefundIsPrompt(l, l.Evicted(m, now), ops[1..], pending);
      }
    }
  }

  /** Without refunds no condition is left. */
  lemma EvictionUnobservableWithoutRefunds(l: Limits, ops: seq<Op>)
    requires l.Valid() && Timed(ops, 0) && forall i :: 0 <= i < |ops| ==> !ops[i].Refund?
    ensures Run(l, map[], ops).1 == RunIdeal(l, map[], ops).1
  {
    hide Run, RunIdeal, PromptRefunds;
    NoRefundIsPrompt(l, map[], ops, map[]);
    PromptRefundsUnobservable(l, ops);
  }

  /** A late refund does uncover a sweep, because it restarts the refill clock without crediting the elapsed
      time: with two tokens, one a second, both are spent at 1 s; a sweep and a refund at 3 s leave two
      tokens where the sweep forgot the bucket, and one where it was kept. */
  lemma RefundUncoversEviction(key: string)
    ensures var l, s, t := Limits(2.0, 1.0), 1_000_000_000, 3_000_000_000;
            var ops := [Allow(key, s), Allow(key, s), Evict(t), Refund(key, t), Allow(key, t), Allow(key, t)];
            l.Valid() && Timed(ops, 0) && Run(l, map[], ops).1 != RunIdeal(l, map[], ops).1
  {
    hide Timed, Run, RunIdeal;
    var l, s, t := Limits(2.0, 1.0), 1_000_000_000, 3_000_000_000;
    var late := [Evict(t), Refund(key, t), Allow(key, t), Allow(key, t)];
    var ops := [Allow(key, s), Allow(key, s), Evict(t), Refund(key, t), Allow(key, t), Allow(key, t)];
    assert ops == [Allow(key, s), Allow(key, s)] + late;
    assert Bucket(2.0 - 1.0, s) == Bucket(1.0, s) && l.Spend(Bucket(1.0, s)).0 == Bucket(0.0, s);
    TwoCalls(l, map[], key, s, 2.0, late);
    LateRefund(key);
    Behind(Answer(true, 0), l.Spend(Bucket(1.0, s)).1, Run(l, map[key := Bucket(0.0, s)], late).1,
           RunIdeal(l, map[key := Bucket(0.0, s)], late).1);
    LateTimes(key);
  }

  lemma Behind(a: Answer, b: Answer, x: seq<Answer>, y: seq<Answer>)
    requires x != y
    ensures [a] + ([b] + x) != [a] + ([b] + y)
  {
    assert ([a] + ([b] + x))[2..] == x && ([a] + ([b] + y))[2..] == y;
  }

  lemma LateRefund(key: string)
    ensures var l, t := Limits(2.0, 1.0), 3_000_000_000;
            var late, spent := [Evict(t), Refund(key, t), Allow(key, t), Allow(key, t)], map[key := Bucket(0.0, 1_000_000_000)];
            Run(l, spent, late).1 != RunIdeal(l, spent, late).1
  {
    var l, t := Limits(2.0, 1.0), 3_000_000_000;
    var spent, one := map[key := Bucket(0.0, 1_000_000_000)], map[key := Bucket(1.0, t)];
    var two := [Allow(key, t), Allow(key, t)];
    var late := [Evict(t), Refund(key, t), Allow(key, t), Allow(key, t)];
    assert late[1..] == [Refund(key, t)] + two && late[1..][1..] == two;
    assert l.Full(spent[key], t) by { assert Seconds(2_000_000_000) == 2.0; }
    assert l.Evicted(spent, t) == map[] && l.RefundStep(map[], key, t) == map[];
    assert l.RefundStep(spent, key, t) == one;
    hide Limits.Full, Limits.Evicted, Limits.RefundStep;
    TwoCalls(l, map[], key, t, 2.0, []);
    TwoCalls(l, one, key, t, 1.0, []);
    assert two == [Allow(key, t), Allow(key, t)] + [];
    assert Run(l, map[], two).1[1].allowed && !RunIdeal(l, one, two).1[1].allowed;
  }

  lemma LateTimes(key: string)
    ensures var s, t := 1_000_000_000, 3_000_000_000;
            Timed([Allow(key, s), Allow(key, s), Evict(t), Refund(key, t), Allow(key, t), Allow(key, t)], 0)
  {
    var s, t := 1_000_000_000, 3_000_000_000;
    var one := [Allow(key, t)];
    var two := [Allow(key, t)] + one;
    var three := [Refund(key, t)] + two;
    var four := [Evict(t)] + three;
    var five := [Allow(key, s)] + four;
    var six := [Allow(key, s)] + five;
    assert one[1..] == [] && two[1..] == one && three[1..] == two && four[1..] == three && five[1..] == four && six[1..] == five;
    assert Timed(one, t) && Timed(two, t) && Timed(three, t) && Timed(four, s) && Timed(five, s) && Timed(six, 0);
    assert six == [Allow(key, s), Allow(key, s), Evict(t), Refund(key, t), Allow(key, t), Allow(key, t)];
  }

  /** Two calls of one key in the same instant, and what follows them. */
  lemma TwoCalls(l: Limits, m: Buckets, key: string, t: int, tokens: real, rest: seq<Op>)
    requires l.Valid() && |m| <= 1 && l.Refilled(l.Lookup(m, key), t) == Bucket(tokens, t) && 1.0 <= tokens <= 2.0 && t > 0
    ensures var ops := [Allow(key, t), Allow(key, t)] + rest;
            var first, second := Answer(true, 0), l.Spend(Bucket(tokens - 1.0, t)).1;
            var end := m[key := l.Spend(Bucket(tokens - 1.0, t)).0];
            && Run(l, m, ops).1 == [first] + ([second] + Run(l, end, rest).1)
            && RunIdeal(l, m, ops).1 == [first] + ([second] + RunIdeal(l, end, rest).1)
            && (second.allowed <==> tokens >= 2.0)
  {
    hide Limits.Accrued, Limits.Full, Limits.Evicted, Ceil;
    var last := [Allow(key, t)] + rest;
    var ops := [Allow(key, t), Allow(key, t)] + rest;
    assert ops[0] == Allow(key, t) && ops[1..] == last && last[0] == Allow(key, t) && last[1..] == rest;
    var next := m[key := Bucket(tokens - 1.0, t)];
    assert l.AllowStep(m, key, t) == l.IdealAllow(m, key, t) == (next, Answer(true, 0));
    assert |next| <= |m| + 1;
    var end := m[key := l.Spend(Bucket(tokens - 1.0, t)).0];
    assert next[key := l.Spend(Bucket(tokens - 1.0, t)).0] == end;
    assert l.AllowStep(next, key, t) == l.IdealAllow(next, key, t) == (end, l.Spend(Bucket(tokens - 1.0, t)).1);
  }

  // ---- The bound over a window ----

  /** What key could spend at time t; a key without a bucket could spend a whole burst. */
  function Level(l: Limits, m: Buckets, key: string, t: int): real {
    if key in m then l.Accrued(m[key], t) else l.burst
  }

  lemma LevelBounds(l: Limits, m: Buckets, key: string, t: int)
    requires l.Valid() && Sound(l, m, t)
    ensures 0.0 <= Level(l, m, key, t) <= l.burst
  {
    if key in m {
      RefillMonotone(l, 0, t - m[key].last);
      assert Seconds(0) * l.refill == 0.0;
    }
  }

  /** What is refilled in the given time. */
  function Gain(l: Limits, nanos: int): real {
    l.refill * Seconds(nanos)
  }

  lemma LevelGrows(l: Limits, m: Buckets, key: string, t: int, now: int)
    requires l.Valid() && t <= now
    ensures Level(l, m, key, now) <= Level(l, m, key, t) + Gain(l, now - t)
  {
    RefillMonotone(l, 0, now - t);
    assert Seconds(0) * l.refill == 0.0;
    if key in m {
      SecondsAdd(t - m[key].last, now - t);
      assert Seconds(now - m[key].last) * l.refill == Seconds(t - m[key].last) * l.refill + Seconds(now - t) * l.refill;
    }
  }

  /** A sweep changes nobody's level. */
  lemma EvictKeepsLevel(l: Limits, m: Buckets, key: string, now: int)
    ensures Level(l, l.Evicted(m, now), key, now) == Level(l, m, key, now)
  {
  }

  lemma EvictedSound(l: Limits, m: Buckets, t: int, now: int)
    requires Sound(l, m, t)
    ensures Sound(l, l.Evicted(m, now), t)
  {
  }

  lemma AccruedNow(l: Limits, tokens: real, now: int)
    ensures l.Accrued(Bucket(tokens, now), now) == Min(l.burst, tokens)
  {
    assert Seconds(0) * l.refill == 0.0;
  }

  /** An admission costs the caller exactly one token, a denial nothing. */
  lemma AllowCosts(l: Limits, m: Buckets, key: string, now: int, watched: string)
    requires l.Valid() && 0 < now && Sound(l, m, now)
    ensures var (next, answer) := l.IdealAllow(m, key, now);
            && Sound(l, next, now)
            && Level(l, next, watched, now)
               == Level(l, m, watched, now) - (if watched == key && answer.allowed then 1.0 else 0.0)
  {
    hide Limits.Accrued, Limits.Refilled, Ceil;
    var b := l.Lookup(m, key);
    RefilledSound(l, b, now);
    FreshRefills(l, now);
    AccruedNow(l, l.Refilled(b, now).tokens - 1.0, now);
    AccruedNow(l, l.Refilled(b, now).tokens, now);
  }

  /** A refund gives at most one token back. */
  lemma RefundGives(l: Limits, m: Buckets, key: string, now: int, watched: string)
    requires l.Valid() && 0 < now && Sound(l, m, now)
    ensures var next := l.RefundStep(m, key, now);
            && Sound(l, next, now)
            && Level(l, next, watched, now)
               <= Level(l, m, watched, now) + (if watched == key && key in m then 1.0 else 0.0)
  {
    if key in m {
      RefillMonotone(l, 0, now - m[key].last);
      assert Seconds(0) * l.refill == 0.0;
      AccruedNow(l, Min(l.burst, m[key].tokens + 1.0), now);
    }
  }

  /** Admissions of key minus the refunds credited to it. */
  function Charged(l: Limits, m: Buckets, ops: seq<Op>, watched: string): int
    requires l.Valid()
    decreases |ops|
  {
    if ops == [] then 0
    else
      match ops[0]
      case Allow(key, now) =>
        var (next, answer) := l.AllowStep(m, key, now);
        (if key == watched && answer.allowed then 1 else 0) + Charged(l, next, ops[1..], watched)
      case Refund(key, now) =>
        (if key == watched && key in m then -1 else 0) + Charged(l, l.RefundStep(m, key, now), ops[1..], watched)
      case Evict(now) => Charged(l, l.Evicted(m, now), ops[1..], watched)
  }

  lemma RunUnfolds(l: Limits, m: Buckets, ops: seq<Op>)
    requires l.Valid()
    ensures Run(l, m, ops).0 == if ops == [] then m else Run(l, LimiterNext(l, m, ops[0]), ops[1..]).0
  {
  }

  /** What a run charges is paid from the level it starts with and what is refilled meanwhile. */
  lemma {:induction false} ChargesArePaid(l: Limits, m: Buckets, ops: seq<Op>, t: int, watched: string)
    requires l.Valid() && Timed(ops, t) && Sound(l, m, t)
    ensures Charged(l, m, ops, watched) as real <= Level(l, m, watched, t) + Gain(l, EndTime(ops, t) - t)
    ensures Sound(l, Run(l, m, ops).0, EndTime(ops, t)) && t <= EndTime(ops, t)
    decreases |ops|
  {
    hide Level, Sound, Run, Gain, Limits.Spend, Limits.Accrued, Limits.Refilled, Limits.IdealAllow, Limits.Evicted, Limits.RefundStep, Seconds;
    RunUnfolds(l, m, ops);
    if ops == [] {
      LevelBounds(l, m, watched, t);
      NoTime(l, t);
    } else {
      var now, end := ops[0].now, EndTime(ops, t);
      SoundLater(l, m, t, now);
      LevelGrows(l, m, watched, t, now);
      match ops[0] {
        case Allow(key, _) =>
          var swept := if |m| > EVICT_THRESHOLD then l.Evicted(m, now) else m;
          EvictedSound(l, m, now, now);
          EvictKeepsLevel(l, m, watched, now);
          AllowCosts(l, swept, key, now, watched);
          ChargesArePaid(l, l.IdealAllow(swept, key, now).0, ops[1..], now, watched);
        case Refund(key, _) =>
          RefundGives(l, m, key, now, watched);
          ChargesArePaid(l, l.RefundStep(m, key, now), ops[1..], now, watched);
        case Evict(_) =>
          EvictedSound(l, m, now, now);
          EvictKeepsLevel(l, m, watched, now);
          ChargesArePaid(l, l.Evicted(m, now), ops[1..], now, watched);
      }
      TimeAdds(l, t, now, end);
    }
  }

  lemma NoTime(l: Limits, t: int)
    ensures Gain(l, t - t) == 0.0
  {
  }

  lemma TimeAdds(l: Limits, t: int, now: int, end: int)
    ensures Gain(l, end - t) == Gain(l, now - t) + Gain(l, end - now)
  {
    SecondsAdd(now - t, end - now);
  }

  /** How many of key's calls were admitted, by the answers given. */
  function Admissions(ops: seq<Op>, answers: seq<Answer>, key: string): nat
    decreases |ops|
  {
    if ops == [] || answers == [] then 0
    else
      match ops[0]
      case Allow(k, _) => (if k == key && answers[0].allowed then 1 else 0) + Admissions(ops[1..], answers[1..], key)
      case _ => Admissions(ops[1..], answers, key)
  }

  /** How often key was refunded. */
  function Refunds(ops: seq<Op>, key: string): nat {
    if ops == [] then 0 else (if ops[0] == Refund(key, ops[0].now) then 1 else 0) + Refunds(ops[1..], key)
  }

  /** A key is charged its admissions, less at most one for each refund, whatever other keys and sweeps do. */
  lemma {:induction false} ChargedForAdmissions(l: Limits, m: Buckets, ops: seq<Op>, key: string)
    requires l.Valid()
    ensures Admissions(ops, Run(l, m, ops).1, key) - Refunds(ops, key) <= Charged(l, m, ops, key)
    ensures Charged(l, m, ops, key) <= Admissions(ops, Run(l, m, ops).1, key)
    decreases |ops|
  {
    hide Limits.AllowStep, Limits.Evicted, Limits.RefundStep;
    if ops != [] {
      match ops[0] {
        case Allow(k, now) =>
          var (next, answer) := l.AllowStep(m, k, now);
          assert Run(l, m, ops).1[1..] == Run(l, next, ops[1..]).1;
          ChargedForAdmissions(l, next, ops[1..], key);
        case Refund(k, now) => ChargedForAdmissions(l, l.RefundStep(m, k, now), ops[1..], key);
        case Evict(now) => ChargedForAdmissions(l, l.Evicted(m, now), ops[1..], key);
      }
    }
  }

  lemma {:induction false} NeverRefunded(ops: seq<Op>, key: string)
    requires forall i :: 0 <= i < |ops| && ops[i].Refund? ==> ops[i].key != key
    ensures Refunds(ops, key) == 0
  {
    if ops != [] {
      NeverRefunded(ops[1..], key);
    }
  }

  /** In every span of every run, admissions less refunds of a key are at most a burst and what the span
      refills, and no bucket ever leaves 0..burst. */
  lemma WindowBound(l: Limits, m: Buckets, ops: seq<Op>, t: int, key: string)
    requires l.Valid() && Timed(ops, t) && Sound(l, m, t)
    ensures (Admissions(ops, Run(l, m, ops).1, key) - Refunds(ops, key)) as real
            <= l.burst + l.refill * ((EndTime(ops, t) - t) as real / 1_000_000_000.0)
    ensures forall k :: k in Run(l, m, ops).0 ==> 0.0 <= Run(l, m, ops).0[k].tokens <= l.burst
  {
    hide Level, Sound, Timed, Seconds, Gain, Run, Charged, Admissions, Refunds;
    var end := EndTime(ops, t);
    ChargesArePaid(l, m, ops, t, key);
    LevelBounds(l, m, key, t);
    ChargedForAdmissions(l, m, ops, key);
    GainIs(l, end - t);
    SoundBuckets(l, Run(l, m, ops).0, end);
  }

  lemma GainIs(l: Limits, nanos: int)
    ensures Gain(l, nanos) == l.refill * (nanos as real / 1_000_000_000.0)
  {
  }

  lemma SoundBuckets(l: Limits, m: Buckets, t: int)
    requires Sound(l, m, t)
    ensures forall k :: k in m ==> 0.0 <= m[k].tokens <= l.burst
  {
  }

  /** The settings of the auth routes, `attempts` per `window` seconds, for all callers together: no key that
      is not refunded gets more than twice the attempts in any window. */
  lemma TwiceTheAttempts(attempts: nat, window: nat, m: Buckets, ops: seq<Op>, t: int, key: string)
    requires attempts > 0 && window > 0
    requires forall i :: 0 <= i < |ops| && ops[i].Refund? ==> ops[i].key != key
    requires var l := Limits(attempts as real, attempts as real / window as real); Timed(ops, t) && Sound(l, m, t)
    requires EndTime(ops, t) - t <= window * 1_000_000_000
    ensures var l := Limits(attempts as real, attempts as real / window as real);
            l.Valid() && Admissions(ops, Run(l, m, ops).1, key) <= 2 * attempts
  {
    hide Sound, Timed, Run, Admissions, Refunds, EndTime;
    var l := Limits(attempts as real, attempts as real / window as real);
    var span := EndTime(ops, t) - t;
    PositiveRate(attempts, window);
    WindowBound(l, m, ops, t, key);
    NeverRefunded(ops, key);
    WindowRefill(attempts, window, span);
    TwiceAsReal(Admissions(ops, Run(l, m, ops).1, key), attempts);
  }

  /** A window refills the attempts at most. */
  lemma WindowRefill(attempts: nat, window: nat, span: int)
    requires attempts > 0 && window > 0 && span <= window * 1_000_000_000
    ensures attempts as real / window as real * (span as real / 1_000_000_000.0) <= attempts as real
  {
    var rate, x := attempts as real / window as real, span as real / 1_000_000_000.0;
    PositiveRate(attempts, window);
    assert x <= window as real;
    ProductSign(rate, window as real - x);
    assert rate * (window as real - x) == rate * window as real - rate * x;
  }

  lemma TwiceAsReal(n: int, attempts: nat)
    ensures n as real <= attempts as real + attempts as real ==> n <= 2 * attempts
  {
    assert (2 * attempts) as real == attempts as real + attempts as real;
  }

  lemma PositiveRate(attempts: nat, window: nat)
    requires attempts > 0 && window > 0
    ensures attempts as real / window as real > 0.0
    ensures attempts as real / window as real * window as real == attempts as real
  {
  }

  // ---- The retry estimate is exact ----

  lemma CeilIs(x: real, n: int)
    ensures n >= Ceil(x) <==> n as real >= x
  {
  }

  /** Waiting d milliseconds refills one missing token exactly when d reaches the estimate. */
  lemma WaitRefills(l: Limits, tokens: real, d: nat)
    requires l.Valid()
    ensures tokens + Seconds(d * NANOS_PER_MS) * l.refill >= 1.0 <==> d >= Ceil((1.0 - tokens) / l.refill * 1000.0)
  {
    var need, x := 1.0 - tokens, (1.0 - tokens) / l.refill * 1000.0;
    CeilIs(x, d);
    assert Seconds(d * NANOS_PER_MS) == d as real / 1000.0;
    DivideBy(d as real / 1000.0, need, l.refill);
    assert d as real >= x <==> d as real / 1000.0 >= need / l.refill;
  }

  lemma DivideBy(a: real, need: real, r: real)
    requires r > 0.0
    ensures a * r >= need <==> a >= need / r
  {
    var q := need / r;
    assert q * r == need;
    if a >= q {
      ProductSign(a - q, r);
      assert (a - q) * r == a * r - need;
    } else {
      ProductPositive(q - a, r);
      assert (q - a) * r == need - a * r;
    }
  }

  lemma ProductPositive(a: real, b: real)
    requires a > 0.0 && b > 0.0
    ensures a * b > 0.0
  {
  }

  /** Only a sweep touches the bucket of a key that is not called, and only when it is full. */
  lemma {:induction false} UncalledBucket(l: Limits, m: Buckets, ops: seq<Op>, t: int, key: string)
    requires l.Valid() && Timed(ops, t)
    requires forall i :: 0 <= i < |ops| && !ops[i].Evict? ==> ops[i].key != key
    ensures var later := Run(l, m, ops).0;
            && (key in later ==> key in m && later[key] == m[key])
            && (key in m && key !in later ==> l.Full(m[key], EndTime(ops, t)))
            && t <= EndTime(ops, t)
    decreases |ops|
  {
    hide Limits.Full, Limits.Spend, Limits.Refilled;
    if ops != [] {
      var now := ops[0].now;
      var next := LimiterNext(l, m, ops[0]);
      assert key in next ==> key in m && next[key] == m[key];
      assert key in m && key !in next ==> l.Full(m[key], now);
      assert Run(l, m, ops).0 == Run(l, next, ops[1..]).0;
      UncalledBucket(l, next, ops[1..], now, key);
      if key in m && key !in next {
        FullStays(l, m[key], now, EndTime(ops, t));
      }
    }
  }

  /** A denied caller whose next call comes d milliseconds later is admitted exactly when d is at least
      the estimate, provided a full burst holds a whole token; what other keys do meanwhile, and sweeps, do
      not matter. */
  lemma RetryIsExact(l: Limits, m: Buckets, key: string, now: int, between: seq<Op>, d: nat)
    requires l.Valid() && 0 < now && Sound(l, m, now) && !l.AllowStep(m, key, now).1.allowed
    requires Timed(between, now) && EndTime(between, now) <= now + d * NANOS_PER_MS
    requires forall i :: 0 <= i < |between| && !between[i].Evict? ==> between[i].key != key
    ensures var (next, answer) := l.AllowStep(m, key, now);
            && answer.retryMs >= 1
            && (l.AllowStep(Run(l, next, between).0, key, now + d * NANOS_PER_MS).1.allowed
                <==> l.burst >= 1.0 && d >= answer.retryMs)
  {
    hide Limits.Full, Limits.AllowStep, Run, Sound, Timed, Limits.Valid;
    var next := l.AllowStep(m, key, now).0;
    UncalledBucket(l, next, between, now, key);
    DeniedBucket(l, m, key, now);
    var later := Run(l, next, between).0;
    if key !in later {
      FullStays(l, next[key], EndTime(between, now), now + d * NANOS_PER_MS);
    }
    RetryAfter(l, m, key, now, later, d);
  }

  lemma DeniedBucket(l: Limits, m: Buckets, key: string, now: int)
    requires l.Valid()
    ensures key in l.AllowStep(m, key, now).0
  {
  }

  lemma RetryAfter(l: Limits, m: Buckets, key: string, now: int, later: Buckets, d: nat)
    requires l.Valid() && 0 < now && Sound(l, m, now)
    requires var (next, answer) := l.AllowStep(m, key, now);
             && !answer.allowed
             && if key in later then later[key] == next[key] else l.Full(next[key], now + d * NANOS_PER_MS)
    ensures var retry := l.AllowStep(m, key, now).1.retryMs;
            && retry >= 1
            && (l.AllowStep(later, key, now + d * NANOS_PER_MS).1.allowed <==> l.burst >= 1.0 && d >= retry)
  {
    hide Limits.Full, Limits.Accrued, Limits.Evicted, Ceil, Seconds;
    var swept := if |m| > EVICT_THRESHOLD then l.Evicted(m, now) else m;
    SweptSound(l, m, now);
    RefilledSound(l, l.Lookup(swept, key), now);
    var b, then_ := l.Refilled(l.Lookup(swept, key), now), now + d * NANOS_PER_MS;
    WaitRefills(l, b.tokens, 0);
    ZeroWait(l);
    WaitRefills(l, b.tokens, d);
    AccruedAfter(l, b, then_);
    DeniedLookup(l, later, key, b, then_);
    if b.last == then_ {
      AccruedNow(l, b.tokens, now);
    }
  }

  lemma ZeroWait(l: Limits)
    ensures Seconds(0 * NANOS_PER_MS) * l.refill == 0.0
  {
  }

  lemma SweptSound(l: Limits, m: Buckets, now: int)
    requires Sound(l, m, now)
    ensures Sound(l, if |m| > EVICT_THRESHOLD then l.Evicted(m, now) else m, now)
  {
  }

  lemma AccruedAfter(l: Limits, b: Bucket, now: int)
    ensures l.Accrued(b, now) == Min(l.burst, b.tokens + Seconds(now - b.last) * l.refill)
  {
  }

  /** The bucket the next call finds is the denied one, or a fresh one that equals it. */
  lemma DeniedLookup(l: Limits, later: Buckets, key: string, b: Bucket, t: int)
    requires l.Valid() && 0 < b.last <= t && 0.0 <= b.tokens <= l.burst
    requires if key in later then later[key] == b else l.Full(b, t)
    ensures var swept := if |later| > EVICT_THRESHOLD then l.Evicted(later, t) else later;
            l.Refilled(l.Lookup(swept, key), t) == Bucket(l.Accrued(b, t), t)
  {
    hide Limits.Accrued, Seconds;
    RefilledSound(l, b, t);
    FreshRefills(l, t);
    if l.Full(b, t) {
      FullIsFresh(l, b, t);
    }
  }
}
