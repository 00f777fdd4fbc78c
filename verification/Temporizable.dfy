/** Periodic timers that are counted down by elapsed time. */
module Timers {
  import opened Arith

  datatype Alarm = Alarm(period: nat, name: string)

  /** `ok` is false when the name of a timer is missing, which ends the update at that timer. */
  datatype Outcome = Outcome(timer: seq<nat>, alarms: seq<Alarm>, ok: bool)

  // ---------- One timer ----------

  function Counted(timer: nat, period: nat, diffTime: nat): (r: nat) {
    if timer <= diffTime then period else timer - diffTime
  }

  /** The timer after a run of updates, and how often it went off. */
  function Ticks(timer: nat, period: nat, diffs: seq<nat>): (r: (nat, nat))
    decreases diffs
  {
    if diffs == [] then (timer, 0)
    else
      var d := diffs[0];
      var (t, alarms) := Ticks(Counted(timer, period, d), period, diffs[1..]);
      (t, if timer <= d then alarms + 1 else alarms)
  }

  function Elapsed(diffs: seq<nat>): nat {
    if diffs == [] then 0 else diffs[0] + Elapsed(diffs[1..])
  }

  lemma {:induction false} TicksAppend(timer: nat, period: nat, a: seq<nat>, b: seq<nat>)
    ensures var (t, n) := Ticks(timer, period, a);
            var (t', n') := Ticks(t, period, b);
            Ticks(timer, period, a + b) == (t', n + n')
    decreases a
  {
    if a == [] {
      assert a + b == b;
    } else {
      assert (a + b)[0] == a[0] && (a + b)[1..] == a[1..] + b;
      TicksAppend(Counted(timer, period, a[0]), period, a[1..], b);
    }
  }

  /** No run of updates, however uneven, makes a timer go off faster than its period: the alarms take
    * their period each out of the elapsed time and what the timer had already counted. */
  lemma {:induction false} AlarmsTakeTheirPeriod(timer: nat, period: nat, diffs: seq<nat>)
    requires timer <= period
    ensures var (t, alarms) := Ticks(timer, period, diffs);
            && t <= period
            && Laps(alarms, period) + (period - t) <= Elapsed(diffs) + (period - timer)
    decreases diffs
  {
    if diffs != [] {
      AlarmsTakeTheirPeriod(Counted(timer, period, diffs[0]), period, diffs[1..]);
    }
  }

  /** However uneven the updates, the first alarm goes off with the update that completes the time left, and not
    * before. */
  lemma {:induction false} FirstAlarmIsOnTime(timer: nat, period: nat, diffs: seq<nat>)
    requires timer > 0
    ensures Ticks(timer, period, diffs).1 == 0 <==> Elapsed(diffs) < timer
    ensures Elapsed(diffs) < timer ==> Ticks(timer, period, diffs).0 == timer - Elapsed(diffs)
    decreases diffs
  {
    if diffs != [] && diffs[0] < timer {
      FirstAlarmIsOnTime(timer - diffs[0], period, diffs[1..]);
    }
  }

  /** And the alarm starts the whole period anew. */
  lemma AlarmRestartsPeriod(timer: nat, period: nat, d: nat)
    requires timer <= d
    ensures Ticks(timer, period, [d]) == (period, 1)
  {
    assert [d][1..] == [];
  }

  function Even(d: nat, k: nat): (r: seq<nat>)
    ensures |r| == k
  {
    if k == 0 then [] else Even(d, k - 1) + [d]
  }

  lemma {:induction false} TickOnce(timer: nat, period: nat, d: nat, k: nat)
    ensures var (t, alarms) := Ticks(timer, period, Even(d, k));
            Ticks(timer, period, Even(d, k + 1)) == (Counted(t, period, d), if t <= d then alarms + 1 else alarms)
  {
    TicksAppend(timer, period, Even(d, k), [d]);
    var t := Ticks(timer, period, Even(d, k)).0;
    assert Ticks(t, period, [d]) == (Counted(t, period, d), if t <= d then 1 else 0) by {
      assert [d][1..] == [];
    }
  }

  /** The ticks of the length `d` that cover the period. */
  function TicksPerAlarm(period: nat, d: nat): nat
    requires d > 0
  {
    (period + d - 1) / d
  }

  lemma TicksPerAlarmCovers(period: nat, d: nat)
    requires period > 0 && d > 0
    ensures var m := TicksPerAlarm(period, d);
            m > 0 && Laps(m - 1, d) < period <= Laps(m, d)
  {
    LapsOf(period + d - 1, d);
    var m := TicksPerAlarm(period, d);
    assert (period + d - 1) % d < d;
  }

  /** After `k` ticks a fresh timer has gone off `laps` times and counted `rest` ticks since. */
  ghost predicate AfterTicks(period: nat, d: nat, k: nat, laps: nat, rest: nat) {
    Laps(rest, d) < period && Ticks(period, period, Even(d, k)) == (period - Laps(rest, d), laps)
  }

  /** After `laps` whole rounds and `rest` ticks more. */
  lemma {:induction false} EvenTicks(period: nat, d: nat, laps: nat, rest: nat)
    requires period > 0 && d > 0 && rest < TicksPerAlarm(period, d)
    ensures AfterTicks(period, d, Laps(laps, TicksPerAlarm(period, d)) + rest, laps, rest)
    decreases laps, rest
  {
    var m := TicksPerAlarm(period, d);
    hide AfterTicks, Laps, TicksPerAlarm;
    if rest > 0 {
      EvenTicks(period, d, laps, rest - 1);
      OneMoreTick(period, d, Laps(laps, m) + rest - 1, laps, rest);
    } else if laps > 0 {
      EvenTicks(period, d, laps - 1, m - 1);
      OneMoreLap(period, d, laps - 1);
    } else {
      NoTicks(period, d, m);
    }
  }

  lemma NoTicks(period: nat, d: nat, m: nat)
    requires period > 0
    ensures AfterTicks(period, d, Laps(0, m) + 0, 0, 0)
  {}

  /** A tick within a round. */
  lemma OneMoreTick(period: nat, d: nat, k: nat, laps: nat, rest: nat)
    requires period > 0 && d > 0 && 0 < rest < TicksPerAlarm(period, d)
    requires AfterTicks(period, d, k, laps, rest - 1)
    ensures AfterTicks(period, d, k + 1, laps, rest)
  {
    TicksPerAlarmCovers(period, d);
    if rest < TicksPerAlarm(period, d) - 1 {
      LapsGrow(rest, TicksPerAlarm(period, d) - 1, d);
    }
    hide TicksPerAlarm, Ticks, Even;
    TickOnce(period, period, d, k);
  }

  /** The tick that completes a round. */
  lemma OneMoreLap(period: nat, d: nat, laps: nat)
    requires period > 0 && d > 0 && TicksPerAlarm(period, d) > 0
    requires var m := TicksPerAlarm(period, d); AfterTicks(period, d, Laps(laps, m) + (m - 1), laps, m - 1)
    ensures AfterTicks(period, d, Laps(laps + 1, TicksPerAlarm(period, d)) + 0, laps + 1, 0)
  {
    TicksPerAlarmCovers(period, d);
    hide TicksPerAlarm, Ticks, Even;
    TickOnce(period, period, d, Laps(laps, TicksPerAlarm(period, d)) + (TicksPerAlarm(period, d) - 1));
  }

  /** With an even positive tick, a fresh timer goes off exactly once in every ceil(period / d) ticks. */
  lemma EvenTicksRaiseExactly(period: nat, d: nat, k: nat)
    requires period > 0 && d > 0
    ensures TicksPerAlarm(period, d) > 0
    ensures Ticks(period, period, Even(d, k)).1 == k / TicksPerAlarm(period, d)
  {
    TicksPerAlarmCovers(period, d);
    var m := TicksPerAlarm(period, d);
    LapsOf(k, m);
    EvenTicks(period, d, k / m, k % m);
  }

  // ---------- All timers of an object ----------

  predicate Named(names: seq<string>, i: nat) {
    names == [] || i < |names|
  }

  function NameOf(names: seq<string>, i: nat): string
    requires Named(names, i)
  {
    if names == [] then "" else names[i]
  }

  /** One update of the timers from the position `i` on. */
  function Updated(names: seq<string>, timer: seq<nat>, period: seq<nat>, diffTime: nat, i: nat): (r: Outcome)
    requires |timer| == |period| && i <= |period|
    ensures |r.timer| == |timer|
    decreases |period| - i
  {
    if i == |period| then Outcome(timer, [], true)
    else if timer[i] > diffTime then Updated(names, timer[i := timer[i] - diffTime], period, diffTime, i + 1)
    else if !Named(names, i) then Outcome(timer, [], false)
    else
      var rest := Updated(names, timer[i := period[i]], period, diffTime, i + 1);
      Outcome(rest.timer, [Alarm(period[i], NameOf(names, i))] + rest.alarms, rest.ok)
  }

  /** Each timer is counted down on its own, and the update completes exactly when no timer goes off that
    * the names do not reach. */
  lemma {:induction false} TimersAreIndependent(names: seq<string>, timer: seq<nat>, period: seq<nat>, diffTime: nat,
                                                i: nat)
    requires |timer| == |period| && i <= |period|
    ensures var r := Updated(names, timer, period, diffTime, i);
            && (r.ok <==> forall k :: i <= k < |period| && timer[k] <= diffTime ==> Named(names, k))
            && (r.ok ==> forall k :: i <= k < |period| ==> r.timer[k] == Counted(timer[k], period[k], diffTime))
            && (forall k :: 0 <= k < i ==> r.timer[k] == timer[k])
    decreases |period| - i
  {
    if i < |period| {
      if timer[i] > diffTime {
        TimersAreIndependent(names, timer[i := timer[i] - diffTime], period, diffTime, i + 1);
      } else if Named(names, i) {
        TimersAreIndependent(names, timer[i := period[i]], period, diffTime, i + 1);
      }
    }
  }

  class Temporizable {
    const timerName: seq<string>
    const period: seq<nat>
    var timer: seq<nat>

    ghost predicate Valid()
      reads this
    {
      |timer| == |period|
    }

    constructor Several(timerName: seq<string>, period: seq<nat>)
      ensures Valid() && timer == period && this.period == period && this.timerName == timerName
    {
      this.timerName := timerName;
      this.period := period;
      this.timer := period;
    }

    constructor (period: nat)
      ensures Valid() && timer == [period] && this.period == [period] && timerName == []
    {
      this.timerName := [];
      this.period := [period];
      this.timer := [period];
    }

    /** The alarms are returned in the order in which the object is told of them. */
    method UpdateTimer(diffTime: nat) returns (alarms: seq<Alarm>, ok: bool)
      requires Valid()
      modifies this`timer
      ensures Valid() && Outcome(timer, alarms, ok) == Updated(timerName, old(timer), period, diffTime, 0)
    {
      alarms := [];
      for i := 0 to |period|
        invariant Valid()
        invariant var rest := Updated(timerName, timer, period, diffTime, i);
                  Outcome(rest.timer, alarms + rest.alarms, rest.ok)
                  == Updated(timerName, old(timer), period, diffTime, 0)
      {
        if timer[i] <= diffTime {
          if !Named(timerName, i) {
            ok := false;
            return;
          }
          alarms := alarms + [Alarm(period[i], NameOf(timerName, i))];
          timer := timer[i := period[i]];
        } else {
          timer := timer[i := timer[i] - diffTime];
        }
      }
      ok := true;
    }
  }
}
