/** The token bucket that limits the upload and the download of a client. */
module TokenBucket {
  import opened Arith
  import opened Timers

  /** A bucket with its one timer. `refill` is what an alarm puts back, computed from the period elsewhere. */
  datatype Bucket = Bucket(bucketSize: nat, tokens: nat, timer: nat, period: nat, refill: nat)

  datatype Event =
    | Request(tokensRequested: nat)
    | Elapse(diffTime: nat)

  ghost predicate Inv(b: Bucket) {
    && b.tokens <= b.bucketSize < 0x1_0000_0000
    && b.refill < 0x1_0000_0000
    && b.timer <= b.period && (b.period > 0 ==> b.timer > 0)
  }

  /** Tokens are kept in 32 bits: the sum wraps before it is capped. */
  function Replenished(tokens: nat, refill: nat, bucketSize: nat): nat {
    var sum := (tokens + refill) % 0x1_0000_0000;
    if sum > bucketSize then bucketSize else sum
  }

  function Step(b: Bucket, e: Event): Bucket {
    match e
    case Request(n) => if b.tokens >= n then b.(tokens := b.tokens - n) else b
    case Elapse(d) =>
      if b.timer <= d then b.(timer := b.period, tokens := Replenished(b.tokens, b.refill, b.bucketSize))
      else b.(timer := b.timer - d)
  }

  function Run(b: Bucket, es: seq<Event>): Bucket
    decreases es
  {
    if es == [] then b else Run(Step(b, es[0]), es[1..])
  }

  function Granted(b: Bucket, es: seq<Event>): nat
    decreases es
  {
    if es == [] then 0
    else (if es[0].Request? && b.tokens >= es[0].tokensRequested then es[0].tokensRequested else 0)
         + Granted(Step(b, es[0]), es[1..])
  }

  function Alarms(b: Bucket, es: seq<Event>): nat
    decreases es
  {
    if es == [] then 0
    else (if es[0].Elapse? && b.timer <= es[0].diffTime then 1 else 0) + Alarms(Step(b, es[0]), es[1..])
  }

  function Diffs(es: seq<Event>): seq<nat> {
    if es == [] then []
    else (if es[0].Elapse? then [es[0].diffTime] else []) + Diffs(es[1..])
  }

  /** A refill is a saturating addition exactly when the 32-bit sum does not wrap. */
  lemma RefillSaturates(b: Bucket)
    requires Inv(b)
    ensures Replenished(b.tokens, b.refill, b.bucketSize) == Min(b.tokens + b.refill, b.bucketSize)
            <==> b.tokens + b.refill < 0x1_0000_0000
    ensures Replenished(b.tokens, b.refill, b.bucketSize) <= Min(b.tokens + b.refill, b.bucketSize)
  {
    if b.tokens + b.refill < 0x1_0000_0000 {
    } else {
      ModShift(b.tokens + b.refill - 0x1_0000_0000, 1, 0x1_0000_0000);
    }
  }

  function Min(a: int, b: int): int {
    if a <= b then a else b
  }

  lemma StepKeepsInv(b: Bucket, e: Event)
    requires Inv(b)
    ensures Inv(Step(b, e))
    ensures Step(b, e).bucketSize == b.bucketSize && Step(b, e).refill == b.refill && Step(b, e).period == b.period
  {}

  /** In every run the tokens never exceed the bucket. */
  lemma {:induction false} RunKeepsInv(b: Bucket, es: seq<Event>)
    requires Inv(b)
    ensures Inv(Run(b, es))
    ensures Run(b, es).bucketSize == b.bucketSize && Run(b, es).refill == b.refill && Run(b, es).period == b.period
    decreases es
  {
    if es != [] {
      StepKeepsInv(b, es[0]);
      RunKeepsInv(Step(b, es[0]), es[1..]);
    }
  }

  lemma {:induction false} RunAppend(b: Bucket, a: seq<Event>, c: seq<Event>)
    ensures Run(b, a + c) == Run(Run(b, a), c)
    ensures Granted(b, a + c) == Granted(b, a) + Granted(Run(b, a), c)
    ensures Alarms(b, a + c) == Alarms(b, a) + Alarms(Run(b, a), c)
    decreases a
  {
    if a == [] {
      assert a + c == c;
    } else {
      assert (a + c)[0] == a[0] && (a + c)[1..] == a[1..] + c;
      RunAppend(Step(b, a[0]), a[1..], c);
    }
  }

  /** Tokens are not made: what is granted and what is left came from the start and from the refills. */
  lemma {:induction false} TokensComeFromRefills(b: Bucket, es: seq<Event>)
    requires Inv(b)
    ensures Granted(b, es) + Run(b, es).tokens <= b.tokens + Laps(Alarms(b, es), b.refill)
    decreases es
  {
    if es != [] {
      StepKeepsInv(b, es[0]);
      RefillSaturates(b);
      hide Replenished;
      TokensComeFromRefills(Step(b, es[0]), es[1..]);
    }
  }

  /** The timer of the bucket sees exactly the elapsed times of the run. */
  lemma {:induction false} TimerSeesElapsed(b: Bucket, es: seq<Event>)
    ensures Ticks(b.timer, b.period, Diffs(es)) == (Run(b, es).timer, Alarms(b, es))
    decreases es
  {
    if es != [] {
      hide Replenished;
      TimerSeesElapsed(Step(b, es[0]), es[1..]);
      if es[0].Elapse? {
        assert Diffs(es)[0] == es[0].diffTime && Diffs(es)[1..] == Diffs(es[1..]);
      } else {
        assert Diffs(es) == Diffs(es[1..]);
      }
    }
  }

  /** The rate bound for every window of every run: what is granted in the window is at most the bucket and
    * the refills of its alarms, and its alarms take their period each out of the time that elapses in it,
    * but for what the timer had counted before. */
  lemma WindowRateBound(b: Bucket, before: seq<Event>, window: seq<Event>)
    requires Inv(b)
    ensures var start := Run(b, before);
            && Granted(b, before + window) - Granted(b, before) == Granted(start, window)
            && Granted(start, window) <= b.bucketSize + Laps(Alarms(start, window), b.refill)
            && (b.period > 0 ==> Laps(Alarms(start, window), b.period) <= Elapsed(Diffs(window)) + b.period - 1)
  {
    var start := Run(b, before);
    RunAppend(b, before, window);
    RunKeepsInv(b, before);
    TokensComeFromRefills(start, window);
    TimerSeesElapsed(start, window);
    AlarmsTakeTheirPeriod(start.timer, start.period, Diffs(window));
  }

  lemma LapsWithin(laps: nat, x: nat, size: nat)
    requires size > 0 && Laps(laps, size) <= x
    ensures laps <= x / size
  {
    LapsOf(x, size);
    if x / size < laps {
      LapsGrow(x / size, laps, size);
    }
  }

  /** The bound as a number: at most the bucket and one refill for each started period. */
  lemma WindowRateBoundInPeriods(b: Bucket, before: seq<Event>, window: seq<Event>)
    requires Inv(b) && b.period > 0
    ensures Granted(Run(b, before), window)
            <= b.bucketSize + (Elapsed(Diffs(window)) + b.period - 1) / b.period * b.refill
  {
    WindowRateBound(b, before, window);
    var alarms := Alarms(Run(b, before), window);
    var periods := (Elapsed(Diffs(window)) + b.period - 1) / b.period;
    LapsWithin(alarms, Elapsed(Diffs(window)) + b.period - 1, b.period);
    hide *;
    LapsIsProduct(alarms, b.refill);
    MulMono(alarms, periods, b.refill);
  }

  /** A fresh bucket driven by even ticks: the alarms of the run, and with them the bound, are exact. */
  lemma EvenRateBound(b: Bucket, es: seq<Event>, d: nat, k: nat)
    requires Inv(b) && b.period > 0 && b.timer == b.period && d > 0 && Diffs(es) == Even(d, k)
    ensures TicksPerAlarm(b.period, d) > 0
    ensures Alarms(b, es) == k / TicksPerAlarm(b.period, d)
    ensures Granted(b, es) <= b.tokens + Laps(k / TicksPerAlarm(b.period, d), b.refill)
  {
    TimerSeesElapsed(b, es);
    EvenTicksRaiseExactly(b.period, d, k);
    TokensComeFromRefills(b, es);
  }

  /** Left alone and with sums that fit, a bucket is filled by its alarms up to its size. */
  lemma {:induction false} IdleBucketFills(b: Bucket, es: seq<Event>)
    requires Inv(b) && b.bucketSize + b.refill < 0x1_0000_0000
    requires forall e :: e in es ==> e.Elapse?
    ensures Run(b, es).tokens == Min(b.tokens + Laps(Alarms(b, es), b.refill), b.bucketSize)
    decreases es
  {
    if es != [] {
      StepKeepsInv(b, es[0]);
      RefillSaturates(b);
      hide Replenished;
      assert es[0] in es;
      IdleBucketFills(Step(b, es[0]), es[1..]);
    }
  }

  /** What the refills of a run put in, less what it took out. */
  function Net(b: Bucket, es: seq<Event>): int {
    Laps(Alarms(b, es), b.refill) - Granted(b, es)
  }

  /** The event refills the bucket to the brim. */
  predicate Fills(b: Bucket, e: Event) {
    e.Elapse? && b.timer <= e.diffTime && b.bucketSize <= b.tokens + b.refill
  }

  lemma StepIsExact(b: Bucket, e: Event)
    requires Inv(b) && b.bucketSize + b.refill < 0x1_0000_0000
    ensures Step(b, e).tokens == if Fills(b, e) then b.bucketSize else b.tokens + Net(b, [e])
  {
    RefillSaturates(b);
    hide Replenished;
    assert [e][1..] == [] && Alarms(Step(b, e), []) == 0 && Granted(Step(b, e), []) == 0;
    assert Laps(0, b.refill) == 0 && Laps(1, b.refill) == b.refill;
    assert Alarms(b, [e]) == if e.Elapse? && b.timer <= e.diffTime then 1 else 0;
    assert Granted(b, [e]) == if e.Request? && b.tokens >= e.tokensRequested then e.tokensRequested else 0;
  }

  lemma {:induction false} NetFirst(b: Bucket, es: seq<Event>)
    requires es != []
    ensures Net(b, es) == Net(b, [es[0]]) + Net(Step(b, es[0]), es[1..])
  {
    assert [es[0]] + es[1..] == es && [es[0]][1..] == [];
    RunAppend(b, [es[0]], es[1..]);
    assert Run(b, [es[0]]) == Step(b, es[0]);
    LapsAdd(Alarms(b, [es[0]]), Alarms(Step(b, es[0]), es[1..]), b.refill);
  }

  /** The tokens left, exactly. They are never more than what the start, or a full bucket at any earlier point,
    * would leave; and they are one of these. So a refusal takes nothing, and every token refilled is there to be
    * granted unless the bucket was full. */
  lemma {:induction false} TokensAreExact(b: Bucket, es: seq<Event>) returns (k: nat)
    requires Inv(b) && b.bucketSize + b.refill < 0x1_0000_0000
    ensures k <= |es|
    ensures Run(b, es).tokens <= b.tokens + Net(b, es)
    ensures forall j :: 0 <= j <= |es| ==> Run(b, es).tokens <= b.bucketSize + Net(Run(b, es[..j]), es[j..])
    ensures || Run(b, es).tokens == b.tokens + Net(b, es)
            || Run(b, es).tokens == b.bucketSize + Net(Run(b, es[..k]), es[k..])
  {
    TokensComeFromRefills(b, es);
    forall j | 0 <= j <= |es|
      ensures Run(b, es).tokens <= b.bucketSize + Net(Run(b, es[..j]), es[j..])
    {
      assert es[..j] + es[j..] == es;
      RunAppend(b, es[..j], es[j..]);
      RunKeepsInv(b, es[..j]);
      TokensComeFromRefills(Run(b, es[..j]), es[j..]);
    }
    k := LastFull(b, es);
  }

  /** The last point at which the bucket was filled to the brim, or the start. */
  lemma {:induction false} LastFull(b: Bucket, es: seq<Event>) returns (k: nat)
    requires Inv(b) && b.bucketSize + b.refill < 0x1_0000_0000
    ensures k <= |es|
    ensures || Run(b, es).tokens == b.tokens + Net(b, es)
            || Run(b, es).tokens == b.bucketSize + Net(Run(b, es[..k]), es[k..])
    decreases es
  {
    k := 0;
    if es != [] {
      var b1 := Step(b, es[0]);
      StepKeepsInv(b, es[0]);
      StepIsExact(b, es[0]);
      NetFirst(b, es);
      k := LastFull(b1, es[1..]);
      assert es[..k + 1][1..] == es[1..][..k] && es[k + 1..] == es[1..][k..] && es[..k + 1][0] == es[0];
      assert Run(b, es[..k + 1]) == Run(b1, es[1..][..k]);
      if Run(b1, es[1..]).tokens != b1.bucketSize + Net(Run(b1, es[1..][..k]), es[1..][k..]) {
        assert es[..1] == [es[0]] && [es[0]][1..] == [] && Run(b, es[..1]) == b1;
        k := 0;
        hide Step, Net, Fills;
      }
      k := k + 1;
    }
  }

  class LeakyBucket {
    const bucketSize: nat
    const refill: nat
    var tokens: nat
    const timers: Temporizable

    ghost predicate Valid()
      reads this, timers
    {
      && timers.Valid() && |timers.period| == 1 && timers.timerName == []
      && Inv(View1())
    }

    ghost function View1(): Bucket
      reads this, timers
      requires |timers.timer| == |timers.period| == 1
    {
      Bucket(bucketSize, tokens, timers.timer[0], timers.period[0], refill)
    }

    ghost function View(): Bucket
      reads this, timers
      requires Valid()
    {
      View1()
    }

    constructor (bucketSize: nat, timerPeriod: nat, refill: nat)
      requires bucketSize < 0x1_0000_0000 && refill < 0x1_0000_0000
      ensures Valid() && fresh(timers)
      ensures View() == Bucket(bucketSize, bucketSize, timerPeriod, timerPeriod, refill)
    {
      this.bucketSize := bucketSize;
      this.refill := refill;
      this.tokens := bucketSize;
      this.timers := new Temporizable(timerPeriod);
    }

    method IncToken(tokensReplaced: nat)
      modifies this`tokens
      ensures tokens == Replenished(old(tokens), tokensReplaced, bucketSize)
    {
      tokens := (tokens + tokensReplaced) % 0x1_0000_0000;
      if tokens > bucketSize {
        tokens := bucketSize;
      }
    }

    /** Grants the tokens or refuses; nothing is taken by a refusal. */
    method DecToken(tokensRequested: nat) returns (granted: bool)
      requires Valid()
      modifies this`tokens
      ensures Valid() && View() == Step(old(View()), Request(tokensRequested))
      ensures granted <==> tokensRequested <= old(tokens)
      ensures granted ==> Granted(old(View()), [Request(tokensRequested)]) == tokensRequested
    {
      granted := false;
      if tokens >= tokensRequested {
        tokens := tokens - tokensRequested;
        granted := true;
      }
    }

    method UpdateTimer(diffTime: nat)
      requires Valid()
      modifies this`tokens, timers`timer
      ensures Valid() && View() == Step(old(View()), Elapse(diffTime))
    {
      StepKeepsInv(View(), Elapse(diffTime));
      var alarms, _ := timers.UpdateTimer(diffTime);
      for i := 0 to |alarms|
        invariant tokens == if i == 0 then old(tokens) else Replenished(old(tokens), refill, bucketSize)
        invariant timers.timer == [Step(old(View()), Elapse(diffTime)).timer]
        invariant |alarms| == if old(View()).timer <= diffTime then 1 else 0
      {
        IncToken(refill);
      }
    }
  }
}
