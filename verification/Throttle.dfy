/** Whether a throttled worker keeps the requested rate. The delay between commands is rounded down to
    microseconds, so the worker may gain on the rate, a little with every command. */
module Throttle {
  import opened Commands
  import opened Arithmetic
  import opened Clock
  import opened LbaGenerator
  import opened Worker

  /** The microseconds between commands. */
  function Delay(iops: nat): nat {
    if iops == 0 then 0 else US_PER_S / iops
  }

  /** No command leaves earlier than the requested rate allows: k+1 of them take longer than k+1 times
      1/iops seconds. */
  ghost predicate WithinRate(v: IoWorker, iops: nat)
    reads v.pool
  {
    forall k :: 0 <= k < |v.pool.dispatched| && v.pool.dispatched[k].Tidy() ==>
      iops * (v.pool.dispatched[k].Us() - v.a.start.Us()) > (k + 1) * US_PER_S
  }

  /** What the worker gains on the rate with every command, in units of 1/iops microseconds, stays below the
      one microsecond that a command is late at least. */
  predicate RateHolds(iops: nat, commands: nat)
    requires iops >= 1
  {
    commands * (US_PER_S % iops) < iops
  }

  lemma Rounded(iops: nat, n: nat)
    requires iops >= 1
    ensures iops * (n * Delay(iops) + 1) == n * US_PER_S - n * (US_PER_S % iops) + iops
  {
    var delay, rest := Delay(iops), US_PER_S % iops;
    assert US_PER_S == iops * delay + rest;
    hide Delay;
    assert n * US_PER_S == n * (iops * delay) + n * rest;
    assert iops * (n * delay + 1) == n * (iops * delay) + iops;
  }

  lemma Scaled(t: int, bound: int, iops: nat)
    requires t > bound
    ensures iops * t >= iops * (bound + 1)
  {
  }

  /** Every run of a worker keeps the rate for as many commands as the rounding allows; for any number of
      them if the rate divides a million. */
  ghost predicate KeepsRate(v: IoWorker, iops: nat)
    reads v.pool
  {
    1 <= iops <= US_PER_S && v.a.trace == [] && RateHolds(iops, |v.pool.dispatched|) ==> WithinRate(v, iops)
  }

  lemma RateKept(v: IoWorker, iops: nat)
    requires v.a.delay == Delay(iops) && KeepsPace(v)
    ensures KeepsRate(v, iops)
  {
    if 1 <= iops <= US_PER_S && v.a.trace == [] && RateHolds(iops, |v.pool.dispatched|) {
      DelayPositive(iops);
      forall k | 0 <= k < |v.pool.dispatched| && v.pool.dispatched[k].Tidy()
        ensures iops * (v.pool.dispatched[k].Us() - v.a.start.Us()) > (k + 1) * US_PER_S
      {
        hide Delay, RateHolds;
        Rounded(iops, k + 1);
        Scaled(v.pool.dispatched[k].Us() - v.a.start.Us(), (k + 1) * v.a.delay, iops);
        FewerHold(iops, k + 1, |v.pool.dispatched|);
      }
    }
  }

  lemma DelayPositive(iops: nat)
    requires 1 <= iops <= US_PER_S
    ensures Delay(iops) >= 1
  {
  }

  lemma FewerHold(iops: nat, k: nat, n: nat)
    requires iops >= 1 && k <= n && RateHolds(iops, n)
    ensures RateHolds(iops, k) && k * (US_PER_S % iops) < iops
  {
    Ordered(k, n, US_PER_S % iops);
  }

  // ---------- a worker that is as early as it can be ----------

  /** The first moment at which the throttle lets command `k` (from 0) go. */
  function Earliest(a: Args, k: nat): (t: Timeval)
    requires a.start.Tidy()
    ensures t.Tidy() && t.Us() == a.start.Us() + (k + 1) * a.delay + 1
  {
    AddUseconds(a.start, (k + 1) * a.delay + 1)
  }

  /** A turn at that moment, at which the queue pair takes the command and completes it at once. */
  function EagerTurn(a: Args, k: nat): Turn
    requires a.start.Tidy()
  {
    var now := Earliest(a, k);
    Turn(now, PlainDraw(0), true, a.start, false, seq(a.qdepth, c requires 0 <= c < a.qdepth => Completion(c, 0, now, now)))
  }

  function EagerTurns(a: Args, n: nat): (turns: seq<Turn>)
    requires a.start.Tidy()
    ensures |turns| == n && forall k :: 0 <= k < n ==> turns[k] == EagerTurn(a, k)
  {
    seq(n, k requires 0 <= k < n => EagerTurn(a, k))
  }

  /** The throttle keeps the requested rate over `n` commands of a worker as early as the throttle lets it be
      if and only if the rounding allows: for any worker arguments and any rate this is a run. */
  method ThrottleExact(a: Args, weights: seq<nat>, iops: nat, n: nat) returns (v: IoWorker, outcome: Outcome)
    requires ArgsOk(a) && |weights| == |a.w.ops| && a.trace == [] && iops >= 1 && a.delay == Delay(iops)
    requires n <= a.ioCount && n * a.delay + 1 <= a.seconds * US_PER_S
    ensures v.a == a && |v.pool.dispatched| == n
    ensures WithinRate(v, iops) <==> RateHolds(iops, n)
  {
    var turns := EagerTurns(a, n);
    var readings := seq(a.qdepth, _ => a.start);
    v, outcome := WorkerEntry(a, weights, 0, false, false, readings, turns);
    EagerIsPrompt(v, n, readings, turns);
    EagerRate(v, iops, n);
  }

  lemma EagerIsPrompt(v: IoWorker, n: nat, readings: seq<Timeval>, turns: seq<Turn>)
    requires v.a.start.Tidy() && v.a.trace == [] && n * v.a.delay + 1 <= v.a.seconds * US_PER_S
    requires |turns| == n && forall k :: 0 <= k < n ==> turns[k] == EagerTurn(v.a, k)
    requires forall k :: 0 <= k < |readings| ==> readings[k] == v.a.start
    ensures v.Prompt(turns, v.Readings(readings))
  {
    forall k | 0 <= k < n
      ensures v.PromptTurn(turns[k])
      ensures v.Ripe(turns[k].now, k, v.Readings(readings) + v.SentAts(turns[..k]))
    {
      Ordered(k + 1, n, v.a.delay);
      EagerTurnIsPrompt(v, k);
      EagerTurnIsRipe(v, k, v.Readings(readings) + v.SentAts(turns[..k]));
    }
  }

  lemma EagerTurnIsPrompt(v: IoWorker, k: nat)
    requires v.a.start.Tidy() && (k + 1) * v.a.delay + 1 <= v.a.seconds * US_PER_S
    ensures v.PromptTurn(EagerTurn(v.a, k))
  {
    var t := EagerTurn(v.a, k);
    v.DueMeans(t.now);
    forall c | 0 <= c < v.a.qdepth
      ensures v.Answers(t.completions, c)
    {
      assert t.completions[c].ctx == c;
    }
  }

  lemma EagerTurnIsRipe(v: IoWorker, k: nat, times: set<Timeval>)
    requires v.a.start.Tidy() && v.a.trace == [] && forall t :: t in times ==> t == v.a.start
    ensures v.Ripe(EagerTurn(v.a, k).now, k, times)
  {
    var now := EagerTurn(v.a, k).now;
    LaterIsGreater(now, v.a.start);
  }

  /** Command `k` at its first moment is within the rate exactly if the rounding allows `k + 1` commands. */
  lemma EagerAt(a: Args, iops: nat, k: nat)
    requires a.start.Tidy() && iops >= 1 && a.delay == Delay(iops)
    ensures iops * (Earliest(a, k).Us() - a.start.Us()) > (k + 1) * US_PER_S <==> RateHolds(iops, k + 1)
  {
    var lead := Earliest(a, k).Us() - a.start.Us();
    assert lead == (k + 1) * Delay(iops) + 1;
    hide Earliest, Delay;
    Rounded(iops, k + 1);
  }

  lemma EagerRate(v: IoWorker, iops: nat, n: nat)
    requires v.a.start.Tidy() && iops >= 1 && v.a.delay == Delay(iops)
    requires |v.pool.dispatched| == n && forall k :: 0 <= k < n ==> v.pool.dispatched[k] == Earliest(v.a, k)
    ensures WithinRate(v, iops) <==> RateHolds(iops, n)
  {
    hide Delay;
    if RateHolds(iops, n) {
      forall k | 0 <= k < n
        ensures iops * (v.pool.dispatched[k].Us() - v.a.start.Us()) > (k + 1) * US_PER_S
      {
        FewerHold(iops, k + 1, n);
        EagerAt(v.a, iops, k);
      }
    } else {
      if n == 0 {
        NoneHold(iops);
      }
      EagerAt(v.a, iops, n - 1);
      assert v.pool.dispatched[n - 1].Tidy();
    }
  }

  lemma NoneHold(iops: nat)
    requires iops >= 1
    ensures RateHolds(iops, 0)
  {
  }

  /** Over a whole second the rounding allows the rate exactly when it divides a million. */
  lemma SecondHolds(iops: nat)
    requires iops >= 1
    ensures RateHolds(iops, iops) <==> US_PER_S % iops == 0
    ensures US_PER_S % iops == 0 <==> forall n: nat :: RateHolds(iops, n)
  {
    var rest := US_PER_S % iops;
    if rest > 0 {
      AtLeast(rest, iops);
      assert !RateHolds(iops, iops);
    }
  }
}
