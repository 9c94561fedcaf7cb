/** The I/O worker: it keeps a pool of contexts busy until a count, time, trace or error limit stops
    it, and returns when every command it sent has completed. Clock readings, random numbers, the
    answers of the queue pair and the completions are inputs. */
module Worker {
  import opened Commands
  import opened Arithmetic
  import opened Clock
  import opened LbaGenerator
  import opened RegionFill
  import opened ContextPool
  import opened Statistics
  import opened CompletionRing
  import opened Counting

  /** An entry of a recorded trace; the time stamp is in microseconds from the start. */
  datatype TraceEntry = TraceEntry(slba: nat, timestamp: nat, op: nat, nlba: nat)

  datatype Args = Args(
    w: Workload,
    lbaStart: nat,
    ioCount: nat,
    seconds: nat,
    qdepth: nat,
    delay: nat,              // microseconds between commands, 0: as fast as possible
    trace: seq<TraceEntry>,  // empty: generate commands
    start: Timeval,
    traceStart: Timeval)

  /** The limits of a run as the caller gives them. */
  datatype Limits = Limits(regionStart: nat, regionEnd: nat, lbaStart: nat, ioCount: nat, seconds: nat, qdepth: nat)

  const MAX_SECONDS: nat := 1000 * 3600

  /** The limits the worker uses: no count means the largest one, the region is aligned at its start and
      clipped at the end of the namespace, and one slot of the queue stays free. */
  function Revised(l: Limits, alignMax: nat, nsze: nat): Limits
    requires alignMax >= 1 && l.qdepth >= 1
  {
    var count := if l.ioCount == 0 then TWO64 - 1 else l.ioCount;
    var seconds := if l.seconds == 0 || l.seconds > MAX_SECONDS then MAX_SECONDS else l.seconds;
    var start := AlignUp(l.regionStart, alignMax);
    var end := if nsze < l.regionEnd then nsze else l.regionEnd;
    Limits(start, end, if l.lbaStart < start then start else l.lbaStart, count, seconds,
           (if count < l.qdepth then count + 1 else l.qdepth) - 1)
  }

  /** After revision the region starts at the first multiple of the alignment and ends with the namespace or
      before, the worker starts in it or after it, and the pool is the smaller of the count and the queue less
      one slot: never more contexts than commands, nor none. */
  lemma RevisedFits(l: Limits, alignMax: nat, nsze: nat)
    requires alignMax >= 1 && l.qdepth >= 2
    ensures var r := Revised(l, alignMax, nsze);
      && r.regionStart % alignMax == 0 && l.regionStart <= r.regionStart < l.regionStart + alignMax
      && r.regionEnd <= nsze && r.regionEnd <= l.regionEnd && r.regionEnd in {nsze, l.regionEnd}
      && r.lbaStart >= l.lbaStart && r.lbaStart >= r.regionStart && r.lbaStart in {l.lbaStart, r.regionStart}
      && (l.ioCount > 0 ==> r.ioCount == l.ioCount) && (l.ioCount == 0 ==> r.ioCount == 0xffff_ffff_ffff_ffff)
      && (1 <= l.seconds <= 3_600_000 ==> r.seconds == l.seconds)
      && (l.seconds == 0 || l.seconds > 3_600_000 ==> r.seconds == 3_600_000)
      && 1 <= r.qdepth <= r.ioCount && r.qdepth < l.qdepth && (r.qdepth == r.ioCount || r.qdepth + 1 == l.qdepth)
  {
    Multiple(l.regionStart, alignMax);
  }

  predicate ArgsOk(a: Args) {
    && Ready(a.w) && a.ioCount >= 1 && 1 <= a.qdepth <= a.ioCount
    && a.delay < US_PER_S && a.start.Tidy()
    && |a.w.ops| > 0
  }

  /** Why a worker stops sending. */
  datatype Cause = Running | TraceEnd | CountLimit | TimeLimit | CompletionError | SendError

  /** What a context remembers of its command until it completes. */
  datatype CtxCommand = CtxCommand(opcode: nat, opIndex: nat, io: Io)

  /** A completion: which context, its error code (0: none), and two clock readings. */
  datatype Completion = Completion(ctx: nat, error: nat, now: Timeval, later: Timeval)

  /** One turn of the main loop. */
  datatype Turn = Turn(
    now: Timeval,
    draw: Draw,
    accepted: bool,
    sentAt: Timeval,
    terminate: bool,
    completions: seq<Completion>)

  datatype Outcome = StillRunning | Returned(code: int)

  /** The commands with the given numbers. */
  ghost function Picked(ios: seq<Io>, numbers: seq<nat>): (r: seq<Io>)
    requires Below(numbers, |ios|)
    ensures |r| == |numbers|
  {
    seq(|numbers|, k requires 0 <= k < |numbers| => ios[numbers[k]])
  }

  ghost function Opcodes(ios: seq<Io>): (r: seq<nat>)
    ensures |r| == |ios|
  {
    seq(|ios|, k requires 0 <= k < |ios| => ios[k].opcode)
  }

  lemma PickedMore(ios: seq<Io>, io: Io, numbers: seq<nat>)
    requires Below(numbers, |ios|)
    ensures Picked(ios + [io], numbers) == Picked(ios, numbers)
  {
  }

  lemma PickedSnoc(ios: seq<Io>, numbers: seq<nat>, n: nat)
    requires Below(numbers, |ios|) && n < |ios|
    ensures Picked(ios, numbers + [n]) == Picked(ios, numbers) + [ios[n]]
    ensures Opcodes(Picked(ios, numbers + [n])) == Opcodes(Picked(ios, numbers)) + [ios[n].opcode]
  {
  }

  class IoWorker {
    const a: Args
    const pool: Pool
    const gen: Generator
    const stats: Counters
    const ring: Ring
    var finish: bool
    var traceNext: nat
    var ioDue: Timeval
    var ctx: seq<CtxCommand>
    ghost var cause: Cause
    /** The draws consumed and the commands handed to the queue pair, in dispatch order. */
    ghost var draws: seq<Draw>
    ghost var ios: seq<Io>
    /** Which of these commands each context holds, and which have completed, in completion order. */
    ghost var handed: seq<nat>
    ghost var done: seq<nat>

    /** The stop flag records a cause; the count limit stops at exactly the requested number, and only a
        refused command is a send error. */
    ghost predicate StopsRight()
      reads this`finish, this`cause, pool`sent, pool`failed
    {
      && (finish <==> cause != Running)
      && pool.sent <= a.ioCount
      && (pool.failed > 0 ==> finish)
      && (cause == CountLimit ==> pool.sent == a.ioCount)
      && (cause == SendError ==> pool.failed > 0)
      && (cause == TraceEnd ==> a.trace != [])
    }

    /** The number of trace entries a worker sends when the end of the trace stops it: all of a trace
        that fits the first batch, all but the last of a longer one. */
    function TraceSent(): nat {
      if |a.trace| <= a.qdepth then |a.trace| else |a.trace| - 1
    }

    /** When a trace entry is due. */
    function TraceDue(k: nat): Timeval
      requires k < |a.trace|
    {
      AddUseconds(a.traceStart, a.trace[k].timestamp)
    }

    /** The insertions so far are the trace entries in order, each due at its time. */
    ghost predicate TraceQueued()
      reads pool`inserted, pool`sent
    {
      && |pool.inserted| == pool.sent
      && forall k :: 0 <= k < |pool.inserted| ==>
           k < |a.trace| && pool.inserted[k].traceIndex == k && pool.inserted[k].due == TraceDue(k)
    }

    /** Trace entries are taken in order without gap or repeat. */
    ghost predicate TraceInOrder()
      reads this`finish, this`cause, this`traceNext, pool`inserted, pool`sent
    {
      a.trace != [] ==>
        && TraceQueued() && pool.sent <= TraceSent()
        && (!finish ==> traceNext == pool.sent
                        && (traceNext == |a.trace| <==> |a.trace| <= a.qdepth))
        && (cause == TraceEnd ==> pool.sent == TraceSent())
    }

    /** With a delay, the k-th insertion is due k+1 delays after the start. */
    ghost predicate Throttled()
      reads this`finish, this`ioDue, pool`inserted, pool`sent
    {
      a.trace == [] && a.delay != 0 ==>
        && (forall k :: 0 <= k < |pool.inserted| ==>
              pool.inserted[k].due.Us() == a.start.Us() + Times(k + 1, a.delay)
              && 0 <= pool.inserted[k].due.usec < US_PER_S)
        && |pool.inserted| == pool.sent
        && (!finish ==> ioDue.Us() == a.start.Us() + Times(pool.sent, a.delay) && ioDue.Tidy())
    }

    /** The commands are those of the generator, or the trace in order. */
    ghost predicate Generated()
      reads this`draws, this`ios, gen, pool`dispatched
    {
      GeneratedSo(|pool.dispatched|)
    }

    ghost predicate GeneratedSo(n: nat)
      reads this`draws, this`ios, gen
    {
      && Ready(a.w) && gen.w == a.w && gen.sequentialLba == SeqLba(a.w, a.lbaStart, draws)
      && |draws| == |ios| == n
      && (a.trace == [] ==> ios == Ios(a.w, a.lbaStart, draws))
      && (a.trace != [] ==> |ios| <= |a.trace| && forall k :: 0 <= k < |ios| ==> ios[k] == Replayed(a.trace[k]))
    }

    /** The command that replays a trace entry: its tail is cut at the end of the region. */
    function Replayed(e: TraceEntry): Io {
      var room := (a.w.regionEnd - e.slba) % TWO64;
      Io(e.slba, if e.nlba < room then e.nlba else room, e.op)
    }

    /** Commands in flight come from the opcode table. */
    ghost predicate CtxOk()
      reads this`ctx, pool`inflight
    {
      |ctx| == a.qdepth && forall c :: c in pool.inflight ==> c < |ctx| && FromOps(ctx[c])
    }

    /** The statistics are about the completions, which come from the opcode table too. */
    ghost predicate StatsOk()
      reads pool`completed, stats, stats.ops, stats.latencies
    {
      && stats.Valid() && |stats.ops.start| == |a.w.ops| && |stats.opcodes| == pool.completed
      && (a.trace == [] ==> FromTable(a.w.ops, stats.opcodes, stats.ops.indexes))
      && (a.trace != [] ==> forall k :: 0 <= k < |stats.ops.indexes| ==> stats.ops.indexes[k] == 0)
    }

    ghost predicate LogOk()
      reads pool`completed, ring, ring.list
    {
      ring.Valid() && (ring.list.Length > 0 ==> |ring.history| == pool.completed)
    }

    ghost predicate Counted()
      reads this`ctx, pool`inflight, pool`completed, stats, stats.ops, stats.latencies, ring, ring.list
    {
      CtxOk() && StatsOk() && LogOk()
    }

    /** Context `c` holds the command it was handed, which has not completed yet. */
    ghost predicate Holds(c: nat)
      reads this`ctx, this`ios, this`handed, this`done
    {
      && c < |ctx| == |handed| && handed[c] < |ios|
      && ctx[c].io == ios[handed[c]] && ctx[c].opcode == ctx[c].io.opcode
      && handed[c] !in done
    }

    /** Contexts in flight hold different commands. */
    ghost predicate FlightOk()
      reads this`ctx, this`ios, this`handed, this`done, pool`inflight
    {
      && |handed| == |ctx| == a.qdepth
      && (forall c :: c in pool.inflight ==> Holds(c))
      && (forall c, d :: c in pool.inflight && d in pool.inflight && c != d ==> handed[c] != handed[d])
    }

    /** No command completes twice; statistics and log are about the completed commands, in order. */
    ghost predicate DoneOk()
      reads this`ios, this`done, stats`opcodes, ring`history, ring`list
    {
      && Distinct(done) && Below(done, |ios|)
      && stats.opcodes == Opcodes(Picked(ios, done))
      && (ring.list.Length > 0 ==> ring.history == Picked(ios, done))
    }

    predicate FromOps(s: CtxCommand) {
      s.opIndex < |a.w.ops| && if a.trace == [] then s.opcode == a.w.ops[s.opIndex] else s.opIndex == 0
    }

    ghost predicate Valid()
      reads this, pool, gen, stats, stats.ops, stats.latencies, ring, ring.list
    {
      && ArgsOk(a) && pool.size == a.qdepth && pool.Valid()
      && StopsRight() && TraceInOrder() && Throttled() && Generated() && Counted() && FlightOk() && DoneOk()
    }

    constructor (a: Args, weights: seq<nat>, logLength: nat, collectLatency: bool, collectSeconds: bool)
      requires ArgsOk(a) && |weights| == |a.w.ops|
      ensures this.a == a && Counted() && Generated() && Unused() && FlightOk() && DoneOk()
      ensures ring.list.Length == logLength && stats.ops.start == weights && stats.collectLatency == collectLatency
      ensures stats.error == 0
      ensures fresh(pool) && fresh(gen) && fresh(stats) && fresh(stats.ops) && fresh(stats.latencies)
      ensures fresh(ring) && fresh(ring.list)
    {
      this.a := a;
      pool := new Pool(a.qdepth);
      gen := new Generator(a.w, a.lbaStart);
      stats := new Counters(weights, collectLatency, collectSeconds, a.start);
      ring := new Ring(logLength);
      finish, cause, traceNext, ioDue := false, Running, 0, a.start;
      ctx := seq(a.qdepth, _ => CtxCommand(0, 0, BLANK));
      draws, ios, handed, done := [], [], seq(a.qdepth, _ => 0), [];
    }

    /** Nothing has been sent yet. */
    ghost predicate Unused()
      reads this`finish, this`cause, this`traceNext, this`ioDue, pool
    {
      && !finish && cause == Running && traceNext == 0 && ioDue == a.start
      && pool.Valid() && pool.size == a.qdepth && pool.sent == pool.completed == pool.failed == 0
      && pool.pending == [] && pool.inflight == {} && pool.inserted == [] && pool.dispatched == []
    }

    /** Gives an idle context its first command, unless the trace is used up. */
    method Prepare(i: nat, reading: Timeval)
      requires pool.Valid() && pool.Idle(i) && a.delay < US_PER_S
      requires Throttled() && !finish && TraceTaken()
      modifies this`traceNext, this`ioDue
      modifies pool`timeSent, pool`traceIndex, pool`pending, pool`sent, pool`inserted
      ensures pool.Valid() && Throttled() && TraceTaken()
      ensures if a.trace != [] && old(traceNext) >= |a.trace|
              then pool.pending == old(pool.pending) && pool.sent == old(pool.sent)
              else pool.pending == old(pool.pending) + [i] && pool.sent == old(pool.sent) + 1
      ensures a.trace == [] && a.delay == 0 ==>
        && |pool.inserted| == |old(pool.inserted)| + 1 && pool.inserted[..|old(pool.inserted)|] == old(pool.inserted)
        && pool.inserted[|old(pool.inserted)|].due == reading
    {
      hide Pool.OnePlaceEach;
      if a.trace != [] {
        if traceNext >= |a.trace| {
          return;
        }
        pool.Schedule(i, TraceDue(traceNext), traceNext);
        traceNext := traceNext + 1;
      } else if a.delay != 0 {
        ioDue := TimerAdd(ioDue, Timeval(0, a.delay));
        pool.Schedule(i, ioDue, 0);
      } else {
        pool.Schedule(i, reading, 0);
      }
      pool.Insert(i);
    }

    /** In a trace, the entries taken so far are those inserted, in order. */
    ghost predicate TraceTaken()
      reads this`traceNext, pool`inserted, pool`sent
    {
      a.trace != [] ==>
        traceNext == pool.sent && TraceQueued()
    }

    /** The first batch: one command per context, fewer if the trace is shorter. */
    method FillPool(readings: seq<Timeval>)
      requires a.qdepth == |readings| && a.delay < US_PER_S
      requires a.start.Tidy() && Unused()
      modifies this`traceNext, this`ioDue
      modifies pool`timeSent, pool`traceIndex, pool`pending, pool`sent, pool`inserted
      ensures pool.Valid() && Throttled() && TraceTaken()
      ensures pool.sent == if a.trace != [] && |a.trace| < a.qdepth then |a.trace| else a.qdepth
      ensures a.trace == [] && a.delay == 0 ==> DueAt(readings)
    {
      hide Pool.InOrder, Pool.OnePlaceEach, Pool.Conserved;
      assert Throttled() && TraceTaken();
      for i := 0 to a.qdepth
        invariant pool.Valid() && Throttled() && TraceTaken()
        invariant forall j :: 0 <= j < |pool.pending| ==> pool.pending[j] < i
        invariant pool.sent == if a.trace != [] && |a.trace| < i then |a.trace| else i
        invariant a.trace == [] && a.delay == 0 ==> DueAt(readings[..i])
      {
        Prepare(i, readings[i]);
      }
      assert readings[..a.qdepth] == readings;
    }

    /** The insertions are due at the given times. */
    ghost predicate DueAt(times: seq<Timeval>)
      reads pool`inserted
    {
      |pool.inserted| == |times| && forall k :: 0 <= k < |times| ==> pool.inserted[k].due == times[k]
    }

    method FirstBatch(readings: seq<Timeval>)
      requires ArgsOk(a) && Counted() && Generated() && Unused() && FlightOk() && DoneOk() && a.qdepth == |readings|
      modifies this`traceNext, this`ioDue
      modifies pool`timeSent, pool`traceIndex, pool`pending, pool`sent, pool`inserted
      ensures Valid() && !finish
      ensures pool.sent == if a.trace != [] && |a.trace| < a.qdepth then |a.trace| else a.qdepth
      ensures a.trace == [] && a.delay == 0 ==> DueAt(readings)
    {
      hide Pool.InOrder, Pool.OnePlaceEach, Throttled, DueAt;
      FillPool(readings);
    }

    /** The limit that stops a worker now, if any. */
    function Verdict(now: Timeval): Cause
      reads this`traceNext, pool`sent
    {
      if a.trace != [] && traceNext >= |a.trace| then TraceEnd
      else if pool.sent == a.ioCount then CountLimit
      else if Later(now, DueTime()) then TimeLimit
      else Running
    }

    /** Whether the worker stops sending; its assertion on the count holds. In terms of time, it stops
        when the trace is used up, the count is reached or more than `seconds` seconds have passed. */
    method SendOneIsFinish(now: Timeval) returns (stop: bool)
      requires pool.sent <= a.ioCount
      ensures stop <==> Verdict(now) != Running
      ensures now.Tidy() && a.start.Tidy() ==>
        (stop <==> (a.trace != [] && traceNext >= |a.trace|) || pool.sent == a.ioCount
                   || now.Us() > a.start.Us() + a.seconds * US_PER_S)
    {
      if now.Tidy() && a.start.Tidy() {
        DueMeans(now);
      }
      if a.trace != [] && traceNext >= |a.trace| {
        return true;
      }
      if pool.sent == a.ioCount {
        return true;
      }
      assert pool.sent < a.ioCount;
      return Later(now, DueTime());
    }

    lemma DueMeans(now: Timeval)
      requires now.Tidy() && a.start.Tidy()
      ensures Later(now, DueTime()) <==> now.Us() > a.start.Us() + a.seconds * US_PER_S
    {
      var useconds := a.seconds * US_PER_S;
      assert useconds / US_PER_S == a.seconds && useconds % US_PER_S == 0;
      LaterIsGreater(now, DueTime());
    }

    function DueTime(): Timeval {
      AddUseconds(a.start, a.seconds * US_PER_S)
    }

    /** Counting a completion, and logging its command. */
    method Tally(cpl: Completion)
      requires pool.Valid() && pool.size == a.qdepth && Counted() && cpl.ctx in pool.inflight
      modifies pool`inflight, pool`completed, stats, stats.ops, stats.latencies
      modifies ring`current, ring`history, ring.list
      ensures pool.Valid() && Counted() && pool.Idle(cpl.ctx)
      ensures pool.inflight == old(pool.inflight) - {cpl.ctx} && pool.completed == old(pool.completed) + 1
      ensures stats.opcodes == old(stats.opcodes) + [ctx[cpl.ctx].opcode]
      ensures ring.list == old(ring.list)
      ensures stats.error == if old(stats.error) == 0 then cpl.error else old(stats.error)
      ensures cpl.ctx < |pool.timeSent|
      ensures stats.totalLatency == old(stats.totalLatency) + (cpl.now.Us() - pool.timeSent[cpl.ctx].Us()) % 0x1_0000_0000
      ensures ring.list.Length > 0 ==> ring.history == old(ring.history) + [ctx[cpl.ctx].io]
    {
      hide Pool.Valid, Counters.Valid, Ring.Valid;
      pool.InRange(cpl.ctx);
      var c := cpl.ctx;
      var s := ctx[c];
      var latency := (cpl.now.Us() - pool.timeSent[c].Us()) % TWO32;
      pool.Reap(c);
      stats.Record(s.opcode, s.opIndex, latency, cpl.now, cpl.error);
      ring.Record(s.io);
    }

    /** The command of the context completes. */
    method Account(cpl: Completion)
      requires pool.Valid() && pool.size == a.qdepth && Counted() && FlightOk() && DoneOk() && cpl.ctx in pool.inflight
      modifies this`done, pool`inflight, pool`completed, stats, stats.ops, stats.latencies
      modifies ring`current, ring`history, ring.list
      ensures pool.Valid() && Counted() && FlightOk() && DoneOk() && pool.Idle(cpl.ctx)
      ensures pool.inflight == old(pool.inflight) - {cpl.ctx} && pool.completed == old(pool.completed) + 1
      ensures done == old(done) + [handed[cpl.ctx]] && ctx[cpl.ctx].io == ios[handed[cpl.ctx]]
      ensures ring.list == old(ring.list)
      ensures stats.error == if old(stats.error) == 0 then cpl.error else old(stats.error)
      ensures cpl.ctx < |pool.timeSent|
      ensures stats.totalLatency == old(stats.totalLatency) + (cpl.now.Us() - pool.timeSent[cpl.ctx].Us()) % 0x1_0000_0000
      ensures ring.list.Length > 0 ==> ring.history == old(ring.history) + [ctx[cpl.ctx].io]
    {
      assert Holds(cpl.ctx);
      hide Pool.Valid, StatsOk, LogOk, Picked, Opcodes;
      Tally(cpl);
      PickedSnoc(ios, done, handed[cpl.ctx]);
      done := done + [handed[cpl.ctx]];
    }

    /** The time, and in a trace the entry, of a context's next command. */
    method NextTime(c: nat)
      requires pool.Valid() && pool.Idle(c)
      modifies this`traceNext, this`ioDue, pool`timeSent, pool`traceIndex
      ensures pool.Valid() && pool.Idle(c)
      ensures if a.trace != [] && old(traceNext) < |a.trace|
              then traceNext == old(traceNext) + 1 && pool.traceIndex[c] == old(traceNext)
                   && pool.timeSent[c] == AddUseconds(a.traceStart, a.trace[old(traceNext)].timestamp)
              else traceNext == old(traceNext)
      ensures if a.trace == [] && a.delay != 0
              then ioDue == TimerAdd(old(ioDue), Timeval(0, a.delay)) && pool.timeSent[c] == ioDue
              else ioDue == old(ioDue)
      ensures a.trace == [] && a.delay == 0 ==> pool.timeSent == old(pool.timeSent)
    {
      if a.trace != [] {
        if traceNext < |a.trace| {
          pool.Schedule(c, TraceDue(traceNext), traceNext);
          traceNext := traceNext + 1;
        }
      } else if a.delay != 0 {
        ioDue := TimerAdd(ioDue, Timeval(0, a.delay));
        pool.Schedule(c, ioDue, pool.traceIndex[c]);
      }
    }

    /** The stop flag after a completion; once set it stays set. */
    method Decide(error: nat, later: Timeval)
      requires (finish <==> cause != Running) && pool.sent <= a.ioCount
      modifies this`finish, this`cause
      ensures finish <==> cause != Running
      ensures cause == if old(finish) then old(cause) else if error != 0 then CompletionError else Verdict(later)
    {
      if error != 0 {
        cause := if finish then cause else CompletionError;
        finish := true;
      }
      if !finish {
        cause := Verdict(later);
        finish := SendOneIsFinish(later);
      }
    }

    /** A completion without error, and before the time limit. */
    predicate Quiet(cpl: Completion) {
      cpl.error == 0 && !Later(cpl.later, DueTime())
    }

    predicate QuietAll(cpls: seq<Completion>) {
      forall i :: 0 <= i < |cpls| ==> Quiet(cpls[i])
    }

    predicate QuietTurn(t: Turn) {
      QuietAll(t.completions)
    }

    predicate QuietTurns(turns: seq<Turn>) {
      forall k :: 0 <= k < |turns| ==> QuietTurn(turns[k])
    }

    /** Neither an error nor the time has stopped the worker. */
    ghost predicate Calm()
      reads this`cause
    {
      cause != CompletionError && cause != TimeLimit
    }

    /** The number of commands a worker sends when nothing else stops it. */
    function Quota(): nat {
      if a.trace == [] || a.ioCount < TraceSent() then a.ioCount else TraceSent()
    }

    /** The next insertion, of context `c`, is for the next trace entry. */
    ghost predicate TraceFits(c: nat)
      reads this`traceNext, pool`inserted, pool`sent, pool`traceIndex, pool`timeSent
    {
      a.trace != [] ==>
        && TraceQueued() && c < |pool.traceIndex| == |pool.timeSent|
        && a.qdepth < |a.trace| && traceNext == pool.sent + 1 < |a.trace|
        && pool.traceIndex[c] == pool.sent && pool.timeSent[c] == TraceDue(pool.sent)
    }

    /** The next insertion, of context `c`, is due one delay after the last. */
    ghost predicate PaceFits(c: nat)
      reads this`ioDue, pool`inserted, pool`sent, pool`timeSent
    {
      a.trace == [] && a.delay != 0 ==>
        && (forall k :: 0 <= k < |pool.inserted| ==>
              pool.inserted[k].due.Us() == a.start.Us() + Times(k + 1, a.delay)
              && 0 <= pool.inserted[k].due.usec < US_PER_S)
        && |pool.inserted| == pool.sent && c < |pool.timeSent| && pool.timeSent[c] == ioDue
        && ioDue.Us() == a.start.Us() + Times(pool.sent + 1, a.delay) && 0 <= ioDue.usec < US_PER_S
    }

    /** The next time of a completed context, and whether it is sent again. */
    method Settle(cpl: Completion)
      requires pool.Valid() && pool.Idle(cpl.ctx) && a.delay < US_PER_S
      requires StopsRight() && TraceInOrder() && Throttled()
      modifies this`finish, this`cause, this`traceNext, this`ioDue, pool`timeSent, pool`traceIndex
      ensures pool.Valid() && StopsRight() && pool.Idle(cpl.ctx)
      ensures if finish then TraceInOrder() && Throttled()
              else pool.sent < a.ioCount && TraceFits(cpl.ctx) && PaceFits(cpl.ctx)
      ensures old(finish) || cpl.error != 0 ==> finish
      ensures old(Calm()) && Quiet(cpl) ==> Calm()
      ensures a.trace == [] && a.delay == 0 ==> pool.timeSent == old(pool.timeSent)
    {
      hide Pool.Valid;
      NextTime(cpl.ctx);
      pool.Sized();
      Decide(cpl.error, cpl.later);
    }

    /** Puts a completed context back in the FIFO. */
    method Enqueue(c: nat)
      requires pool.Valid() && pool.Idle(c) && !finish && StopsRight() && pool.sent < a.ioCount
      requires TraceFits(c) && PaceFits(c)
      modifies pool`pending, pool`sent, pool`inserted
      ensures pool.Valid() && StopsRight() && TraceInOrder() && Throttled()
      ensures pool.pending == old(pool.pending) + [c] && c < |pool.timeSent| == |pool.traceIndex|
      ensures pool.inserted == old(pool.inserted) + [Insertion(c, pool.timeSent[c], pool.traceIndex[c])]
    {
      hide Pool.Valid;
      pool.Sized();
      pool.Insert(c);
    }

    /** Sends a completed context round again, unless the worker is to stop. */
    method Reschedule(cpl: Completion)
      requires pool.Valid() && pool.Idle(cpl.ctx) && a.delay < US_PER_S
      requires StopsRight() && TraceInOrder() && Throttled()
      modifies this`finish, this`cause, this`traceNext, this`ioDue
      modifies pool`timeSent, pool`traceIndex, pool`pending, pool`sent, pool`inserted
      ensures pool.Valid() && StopsRight() && TraceInOrder() && Throttled()
      ensures old(finish) || cpl.error != 0 ==> finish
      ensures old(Calm()) && Quiet(cpl) ==> Calm()
      ensures Requeued(cpl.ctx, old(pool.pending), old(pool.timeSent), old(pool.inserted))
    {
      hide Pool.Valid, StopsRight, TraceInOrder, Throttled, TraceFits, PaceFits, Quiet;
      Settle(cpl);
      pool.Sized();
      if !finish {
        Enqueue(cpl.ctx);
      }
    }

    /** Unless the worker is to stop, the context is back in the FIFO; without a throttle it is due at the
        time it had. */
    ghost predicate Requeued(c: nat, pending: seq<nat>, times: seq<Timeval>, inserted: seq<Insertion>)
      reads this`finish, pool`pending, pool`timeSent, pool`traceIndex, pool`inserted
    {
      && c < |pool.timeSent| == |pool.traceIndex|
      && (a.trace == [] && a.delay == 0 ==> pool.timeSent == times)
      && pool.pending == (if finish then pending else pending + [c])
      && pool.inserted == if finish then inserted
                          else inserted + [Insertion(c, pool.timeSent[c], pool.traceIndex[c])]
    }

    lemma Stored()
      requires Valid()
      ensures StatsOk() && DoneOk() && StopsRight() && |done| == pool.completed
      ensures Below(done, |ios|) && (ring.list.Length > 0 ==> ring.history == Picked(ios, done))
    {
    }

    /** The final report: the log of the last completions is put in order. */
    method Report()
      requires Valid()
      modifies ring.list
      ensures ring.list[..] == LastOf(ring.history, ring.list.Length)
    {
      ring.Unroll();
    }

    /** The completion callback. */
    method OneCb(cpl: Completion)
      requires Valid() && cpl.ctx in pool.inflight
      modifies this`finish, this`cause, this`traceNext, this`ioDue, this`done
      modifies pool`inflight, pool`completed, pool`timeSent, pool`traceIndex, pool`pending, pool`sent, pool`inserted
      modifies stats, stats.ops, stats.latencies, ring`current, ring`history, ring.list
      ensures Valid() && ring.list == old(ring.list)
      ensures pool.completed == old(pool.completed) + 1 && pool.inflight == old(pool.inflight) - {cpl.ctx}
      ensures done == old(done) + [handed[cpl.ctx]] && ctx[cpl.ctx].io == ios[handed[cpl.ctx]]
      ensures ring.list.Length > 0 ==> ring.history == old(ring.history) + [ctx[cpl.ctx].io]
      ensures stats.error == if old(stats.error) == 0 then cpl.error else old(stats.error)
      ensures cpl.ctx < |old(pool.timeSent)|
      ensures stats.totalLatency ==
        old(stats.totalLatency) + (cpl.now.Us() - old(pool.timeSent)[cpl.ctx].Us()) % 0x1_0000_0000
      ensures old(finish) || cpl.error != 0 ==> finish
      ensures old(Calm()) && Quiet(cpl) ==> Calm()
      ensures Requeued(cpl.ctx, old(pool.pending), old(pool.timeSent), old(pool.inserted))
    {
      hide TraceInOrder, Throttled, Generated, StopsRight, Pool.OnePlaceEach, Pool.InOrder, Pool.Conserved;
      hide DoneOk, Calm, Quiet, Requeued;
      Account(cpl);
      Reschedule(cpl);
    }

    /** The command a turn sends: from the trace if there is one, else from the generator. */
    method Choose(head: nat, d: Draw) returns (s: CtxCommand)
      requires ArgsOk(a) && Generated() && head < |pool.traceIndex|
      requires a.trace != [] ==> pool.traceIndex[head] < |a.trace|
      modifies gen
      ensures gen.sequentialLba == NextSeq(a.w, old(gen.sequentialLba), d)
      ensures FromOps(s) && s.opcode == s.io.opcode && (a.trace == [] ==> s.io == IoOf(a.w, old(gen.sequentialLba), d))
      ensures a.trace != [] ==>
        var e := a.trace[pool.traceIndex[head]];
        s.opIndex == 0 && s.io == Replayed(e)
    {
      var io := gen.SendOne(d);
      if a.trace == [] {
        s := CtxCommand(io.opcode, OpIndex(a.w, d), io);
      } else {
        var e := a.trace[pool.traceIndex[head]];
        var room := (a.w.regionEnd - e.slba) % TWO64;
        s := CtxCommand(e.op, 0, Io(e.slba, if e.nlba < room then e.nlba else room, e.op));
      }
    }

    /** A pending context knows which trace entry it is for. */
    lemma HeadInTrace()
      requires pool.Valid() && TraceInOrder() && pool.pending != []
      ensures pool.pending[0] < pool.size == |pool.traceIndex| == |pool.timeSent|
      ensures a.trace != [] ==> pool.traceIndex[pool.pending[0]] == |pool.dispatched| < |a.trace|
    {
      assert pool.inserted[|pool.dispatched|].traceIndex == pool.traceIndex[pool.pending[0]];
    }

    /** Gives the head of the FIFO its command. */
    method Load(c: nat, s: CtxCommand)
      requires CtxOk() && FlightOk() && DoneOk() && c < a.qdepth && c !in pool.inflight
      requires FromOps(s) && s.opcode == s.io.opcode
      modifies this`ctx, this`ios, this`handed
      ensures DoneOk() && |handed| == |ctx| == a.qdepth && FromHeld(pool.inflight + {c})
      ensures ios == old(ios) + [s.io] && LoadedWith(c, |old(ios)|)
    {
      PickedMore(ios, s.io, done);
      ctx := ctx[c := s];
      handed := handed[c := |ios|];
      ios := ios + [s.io];
    }

    /** Hands the head of the FIFO to the queue pair; a refused command ends the run. */
    method Hand(t: Turn)
      requires pool.Valid() && pool.pending != [] && Later(t.now, pool.timeSent[pool.pending[0]])
      requires StopsRight() && TraceInOrder() && Throttled()
      modifies this`finish, this`cause
      modifies pool`pending, pool`inflight, pool`failed, pool`dispatched, pool`timeSent
      ensures pool.Valid() && StopsRight() && TraceInOrder() && Throttled()
      ensures pool.pending == old(pool.pending)[1..] && pool.dispatched == old(pool.dispatched) + [t.now]
      ensures finish <==> old(finish) || !t.accepted
      ensures Taken(t, old(pool.pending)[0], old(pool.inflight), old(pool.timeSent), old(pool.failed))
      ensures if t.accepted then cause == old(cause) else old(Calm()) ==> Calm()
    {
      hide Pool.InOrder;
      pool.Sized();
      if !t.accepted {
        cause := if finish then cause else SendError;
        finish := true;
      }
      var c := pool.Dispatch(t.now, t.accepted, t.sentAt);
    }

    /** Context `c` is with the queue pair if the turn says so, and nothing else is new there. */
    ghost predicate Taken(t: Turn, c: nat, inflight: set<nat>, times: seq<Timeval>, failed: nat)
      reads pool`inflight, pool`timeSent, pool`failed
    {
      && |times| == pool.size && c < pool.size
      && if t.accepted
         then pool.inflight == inflight + {c} && pool.timeSent == times[c := t.sentAt] && pool.failed == failed
         else pool.inflight == inflight && pool.timeSent == times && pool.failed == failed + 1
    }

    lemma HeadIsIdle()
      requires pool.Valid() && pool.pending != []
      ensures pool.pending[0] < pool.size && pool.pending[0] !in pool.inflight
    {
    }

    /** A context that holds its own command may go in flight. */
    lemma FlightGrows(t: Turn, c: nat, inflight: set<nat>, times: seq<Timeval>, failed: nat)
      requires Taken(t, c, inflight, times, failed) && |handed| == |ctx| == a.qdepth && FromHeld(inflight + {c})
      ensures CtxOk() && FlightOk()
    {
    }

    /** The contexts of a set hold different commands from the opcode table. */
    ghost predicate FromHeld(held: set<nat>)
      reads this`ctx, this`ios, this`handed, this`done
    {
      && (forall c :: c in held ==> Holds(c) && FromOps(ctx[c]))
      && (forall c, d :: c in held && d in held && c != d ==> handed[c] != handed[d])
    }

    /** Draws the next command and gives it to the head of the FIFO. */
    method Fetch(c: nat, d: Draw)
      requires ArgsOk(a) && Generated() && CtxOk() && FlightOk() && DoneOk()
      requires c < |pool.traceIndex| && c < a.qdepth && c !in pool.inflight
      requires a.trace != [] ==> pool.traceIndex[c] == |pool.dispatched| < |a.trace|
      modifies this`ctx, this`draws, this`ios, this`handed, gen
      ensures GeneratedSo(|pool.dispatched| + 1) && DoneOk()
      ensures |handed| == |ctx| == a.qdepth && FromHeld(pool.inflight + {c})
      ensures draws == old(draws) + [d] && |ios| == |old(ios)| + 1 && old(ios) <= ios
      ensures LoadedWith(c, |old(ios)|)
    {
      hide DoneOk, CtxOk, FlightOk, FromHeld, FromOps, LoadedWith, Ready, NextSeq, IoOf, SeqLba, Ios, Replayed;
      var s := Choose(c, d);
      Load(c, s);
      RunSnoc(a.w, a.lbaStart, draws, d);
      draws := draws + [d];
    }

    /** Sends the head of the FIFO, whose time has come. */
    method SendHead(t: Turn)
      requires Valid() && pool.pending != [] && Later(t.now, pool.timeSent[pool.pending[0]])
      modifies this`finish, this`cause, this`ctx, this`draws, this`ios, this`handed, gen
      modifies pool`pending, pool`inflight, pool`failed, pool`dispatched, pool`timeSent
      ensures Valid()
      ensures pool.pending == old(pool.pending)[1..] && pool.dispatched == old(pool.dispatched) + [t.now]
      ensures finish <==> old(finish) || !t.accepted
      ensures draws == old(draws) + [t.draw] && |ios| == |old(ios)| + 1 && old(ios) <= ios
      ensures LoadedWith(old(pool.pending)[0], |old(ios)|)
      ensures Taken(t, old(pool.pending)[0], old(pool.inflight), old(pool.timeSent), old(pool.failed))
      ensures if t.accepted then cause == old(cause) else old(Calm()) ==> Calm()
    {
      hide StopsRight, TraceInOrder, Throttled, StatsOk, LogOk, DoneOk, CtxOk, FlightOk, FromHeld, Taken;
      hide Pool.Valid, ArgsOk, GeneratedSo, Calm, LoadedWith, Later;
      HeadInTrace();
      HeadIsIdle();
      Fetch(pool.pending[0], t.draw);
      Hand(t);
      FlightGrows(t, old(pool.pending)[0], old(pool.inflight), old(pool.timeSent), old(pool.failed));
    }

    /** Context `c` holds command number `n`, opcode included. */
    ghost predicate LoadedWith(c: nat, n: nat)
      reads this`ctx, this`ios, this`handed
    {
      && c < |ctx| == |handed| && n < |ios| && handed[c] == n
      && ctx[c].io == ios[n] && ctx[c].opcode == ios[n].opcode
    }

    // ---------- one turn of the loop ----------

    /** Milliseconds since the start, rounded. */
    function Duration(now: Timeval): int {
      var d := now.Us() - a.start.Us();
      d / US_PER_S * 1000 + (d % US_PER_S + 500) / 1000
    }

    /** More than thirty seconds over time, to the millisecond. */
    predicate Overdue(now: Timeval) {
      now.Us() - a.start.Us() >= (a.seconds + 30) * 1_000_000 + 500
    }

    lemma OverdueByDuration(now: Timeval)
      ensures Overdue(now) <==> Duration(now) > (a.seconds + 30) * 1000
    {
      var d := now.Us() - a.start.Us();
      assert d == d / US_PER_S * US_PER_S + d % US_PER_S;
    }

    /** What makes the worker leave its loop at a turn. */
    predicate Disturbs(t: Turn) {
      Overdue(t.now) || t.terminate
    }

    predicate Undisturbed(turns: seq<Turn>) {
      forall k :: 0 <= k < |turns| ==> !Disturbs(turns[k])
    }

    /** Neither an error nor the time has stopped the worker, and there is no error to report. */
    ghost predicate Clean()
      reads this`cause, stats`error
    {
      Calm() && stats.error == 0
    }

    /** Without trace and throttle, every insertion is due at one of the given times. */
    ghost predicate DuesIn(times: set<Timeval>)
      reads pool`inserted
    {
      a.trace == [] && a.delay == 0 ==> forall k :: 0 <= k < |pool.inserted| ==> pool.inserted[k].due in times
    }

    /** Everything sent has completed, and unless the worker is to stop something is pending. */
    ghost predicate InStep(times: set<Timeval>)
      reads this`cause, this`finish, stats`error
      reads pool`pending, pool`inflight, pool`failed, pool`dispatched, pool`completed, pool`inserted
    {
      && Clean() && DuesIn(times) && pool.inflight == {} && pool.failed == 0
      && |pool.dispatched| == pool.completed && (!finish ==> pool.pending != [])
    }

    /** Everything sent has completed but the command of context `c`. */
    ghost predicate Awaits(c: nat, times: set<Timeval>)
      reads this`cause, stats`error
      reads pool`inflight, pool`failed, pool`dispatched, pool`completed, pool`inserted, pool`timeSent
    {
      && Clean() && DuesIn(times) && pool.inflight == {c} && pool.failed == 0
      && |pool.dispatched| == pool.completed + 1 && c < |pool.timeSent| && pool.timeSent[c] in times
    }

    /** Runs the callback of every completion that the queue pair reports. */
    method Collect(cpls: seq<Completion>, ghost c: nat, ghost times: set<Timeval>)
      requires Valid()
      modifies this`finish, this`cause, this`traceNext, this`ioDue, this`done
      modifies pool`inflight, pool`completed, pool`timeSent, pool`traceIndex, pool`pending, pool`sent, pool`inserted
      modifies stats, stats.ops, stats.latencies, ring`current, ring`history, ring.list
      ensures Valid() && ring.list == old(ring.list)
      ensures old(Clean()) && QuietAll(cpls) ==> Clean()
      ensures old(Awaits(c, times)) && QuietAll(cpls) && Answers(cpls, c) ==> InStep(times)
    {
      hide Valid, Quiet, Clean, Requeued;
      for i := 0 to |cpls|
        invariant Valid() && ring.list == old(ring.list)
        invariant old(Clean()) && QuietAll(cpls) ==> Clean()
        invariant old(Awaits(c, times)) && QuietAll(cpls) ==>
          if Answers(cpls[..i], c) then InStep(times) else Awaits(c, times)
      {
        AnswersSnoc(cpls, i, c);
        if cpls[i].ctx in pool.inflight {
          Callback(cpls[i], c, times);
        }
      }
      assert cpls[..|cpls|] == cpls;
    }

    method Callback(cpl: Completion, ghost c: nat, ghost times: set<Timeval>)
      requires Valid() && cpl.ctx in pool.inflight
      modifies this`finish, this`cause, this`traceNext, this`ioDue, this`done
      modifies pool`inflight, pool`completed, pool`timeSent, pool`traceIndex, pool`pending, pool`sent, pool`inserted
      modifies stats, stats.ops, stats.latencies, ring`current, ring`history, ring.list
      ensures Valid() && ring.list == old(ring.list)
      ensures old(Clean()) && Quiet(cpl) ==> Clean()
      ensures old(Awaits(c, times)) && Quiet(cpl) ==> cpl.ctx == c && InStep(times)
    {
      hide Valid, Calm;
      OneCb(cpl);
    }

    /** One of the completions is for context `c`. */
    predicate Answers(cpls: seq<Completion>, c: nat) {
      exists i :: 0 <= i < |cpls| && cpls[i].ctx == c
    }

    lemma AnswersSnoc(cpls: seq<Completion>, i: nat, c: nat)
      requires i < |cpls|
      ensures Answers(cpls[..i + 1], c) <==> Answers(cpls[..i], c) || cpls[i].ctx == c
    {
      if Answers(cpls[..i], c) {
        var k :| 0 <= k < i && cpls[..i][k].ctx == c;
        assert cpls[..i + 1][k].ctx == c;
      }
      if Answers(cpls[..i + 1], c) {
        var k :| 0 <= k < i + 1 && cpls[..i + 1][k].ctx == c;
        assert k < i ==> cpls[..i][k].ctx == c;
      }
      assert cpls[..i + 1][i] == cpls[i];
    }

    /** A turn at which the queue pair takes a command and reports every completion, without error and in
        time. */
    predicate PromptTurn(t: Turn) {
      && t.accepted && !Disturbs(t) && QuietTurn(t)
      && forall c :: 0 <= c < a.qdepth ==> Answers(t.completions, c)
    }

    /** The time of command `k` has come: that of its trace entry, `k` delays and one after the start, or
        without either a time after all those at which a context was prepared. */
    predicate Ripe(now: Timeval, k: nat, times: set<Timeval>) {
      if a.trace != [] then k < |a.trace| ==> Later(now, TraceDue(k))
      else if a.delay != 0 then now.Tidy() && now.Us() > a.start.Us() + (k + 1) * a.delay
      else forall t :: t in times ==> Later(now, t)
    }

    lemma HeadIsDue(now: Timeval, times: set<Timeval>)
      requires Valid() && InStep(times) && pool.pending != [] && Ripe(now, |pool.dispatched|, times)
      ensures pool.pending[0] < |pool.timeSent| == a.qdepth && Later(now, pool.timeSent[pool.pending[0]])
    {
      hide Counted, Generated, FlightOk, DoneOk, StopsRight;
      var k := |pool.dispatched|;
      assert pool.inserted[k].due == pool.timeSent[pool.pending[0]];
      if a.trace == [] && a.delay != 0 {
        TimesIsProduct(k + 1, a.delay);
        LaterIsGreater(now, pool.inserted[k].due);
      }
    }

    /** Sends the head; if all else has completed, it is the one command awaited. */
    method SendNow(t: Turn, ghost times: set<Timeval>)
      requires Valid() && pool.pending != [] && Later(t.now, pool.timeSent[pool.pending[0]])
      modifies this`finish, this`cause, this`ctx, this`draws, this`ios, this`handed, gen
      modifies pool`pending, pool`inflight, pool`failed, pool`dispatched, pool`timeSent
      ensures Valid() && (old(Clean()) ==> Clean()) && pool.dispatched == old(pool.dispatched) + [t.now]
      ensures old(InStep(times)) && t.accepted ==> Awaits(old(pool.pending)[0], times + {t.sentAt})
    {
      hide Valid, Later, LoadedWith, DuesIn;
      SendHead(t);
      MoreTimes(times, t.sentAt);
    }

    lemma MoreTimes(times: set<Timeval>, t: Timeval)
      ensures DuesIn(times) ==> DuesIn(times + {t})
    {
    }

    lemma HeadSized()
      requires Valid() && pool.pending != []
      ensures pool.pending[0] < |pool.timeSent| == a.qdepth
    {
      hide StopsRight, TraceInOrder, Throttled, Generated, Counted, FlightOk, DoneOk;
    }

    /** Sends the head of the FIFO if there is one and its time has come. */
    method SendIfDue(t: Turn, ghost times: set<Timeval>)
      requires Valid()
      modifies this`finish, this`cause, this`ctx, this`draws, this`ios, this`handed, gen
      modifies pool`pending, pool`inflight, pool`failed, pool`dispatched, pool`timeSent
      ensures Valid() && (old(Clean()) ==> Clean())
      ensures old(InStep(times) && pool.pending != [] && Ripe(t.now, |pool.dispatched|, times)) && t.accepted ==>
        && pool.dispatched == old(pool.dispatched) + [t.now]
        && old(pool.pending)[0] < a.qdepth && Awaits(old(pool.pending)[0], times + {t.sentAt})
    {
      hide Valid, InStep, Ripe, Clean, Awaits, Later;
      if pool.pending != [] {
        HeadSized();
        if InStep(times) && Ripe(t.now, |pool.dispatched|, times) {
          HeadIsDue(t.now, times);
        }
        if Later(t.now, pool.timeSent[pool.pending[0]]) {
          SendNow(t, times);
        }
      }
    }

    /** One turn of the main loop. At a prompt turn that finds the next command due, this command is sent and
        completes, and nothing else. */
    method OneTurn(t: Turn, ghost times: set<Timeval>) returns (code: int)
      requires Valid()
      modifies this, pool, gen, stats, stats.ops, stats.latencies, ring`current, ring`history, ring.list
      ensures Valid() && ring.list == old(ring.list)
      ensures code == if Overdue(t.now) then -4 else if t.terminate then -7 else 0
      ensures old(Clean()) && QuietTurn(t) ==> Clean()
      ensures old(InStep(times) && pool.pending != [] && Ripe(t.now, |pool.dispatched|, times)) && PromptTurn(t) ==>
        InStep(times + {t.sentAt}) && pool.dispatched == old(pool.dispatched) + [t.now]
    {
      hide Valid, Ripe, Clean, InStep, Awaits, Quiet, Answers;
      ghost var c := if pool.pending != [] then pool.pending[0] else 0;
      SendIfDue(t, times);
      OverdueByDuration(t.now);
      if Duration(t.now) > (a.seconds + 30) * 1000 {
        return -4;
      }
      if t.terminate {
        return -7;
      }
      Collect(t.completions, c, times + {t.sentAt});
      return 0;
    }

    // ---------- the loop ----------

    function SentAts(turns: seq<Turn>): set<Timeval> {
      set k | 0 <= k < |turns| :: turns[k].sentAt
    }

    /** Every turn is prompt and finds the next command due. */
    predicate Prompt(turns: seq<Turn>, times: set<Timeval>) {
      forall k :: 0 <= k < |turns| ==> PromptTurn(turns[k]) && Ripe(turns[k].now, k, times + SentAts(turns[..k]))
    }

    lemma SentAtsSnoc(turns: seq<Turn>, k: nat)
      requires k < |turns|
      ensures SentAts(turns[..k + 1]) == SentAts(turns[..k]) + {turns[k].sentAt}
    {
      var longer, shorter := SentAts(turns[..k + 1]), SentAts(turns[..k]);
      forall t | t in shorter + {turns[k].sentAt}
        ensures t in longer
      {
        if t in shorter {
          var j :| 0 <= j < k && turns[..k][j].sentAt == t;
          assert turns[..k + 1][j].sentAt == t;
        } else {
          assert turns[..k + 1][k].sentAt == t;
        }
      }
      forall t | t in longer
        ensures t in shorter + {turns[k].sentAt}
      {
        var j :| 0 <= j < k + 1 && turns[..k + 1][j].sentAt == t;
        assert j < k ==> turns[..k][j].sentAt == t;
      }
    }

    /** The commands so far left at the times of the turns. */
    ghost predicate AtTurns(turns: seq<Turn>, n: nat)
      reads pool`dispatched
    {
      |pool.dispatched| == n <= |turns| && forall k :: 0 <= k < n ==> pool.dispatched[k] == turns[k].now
    }

    /** Turn `k` is the first to make the worker leave its loop, with the given code. */
    predicate LeavesAt(turns: seq<Turn>, k: nat, code: int)
      requires k < |turns|
    {
      && Undisturbed(turns[..k])
      && if Overdue(turns[k].now) then code == -4 else turns[k].terminate && code == -7
    }

    /** The loop is left early at a turn that says so, and not else. */
    ghost predicate LeavesRight(turns: seq<Turn>, outcome: Outcome) {
      match outcome
      case StillRunning => Undisturbed(turns)
      case Returned(code) => code == 0 || exists k :: 0 <= k < |turns| && LeavesAt(turns, k, code)
    }

    /** One command per turn up to the quota, and a return of 0 once it is reached. */
    ghost predicate RunsPromptly(turns: seq<Turn>, outcome: Outcome)
      reads pool`dispatched
    {
      if |turns| < Quota() then AtTurns(turns, |turns|) && outcome == StillRunning
      else AtTurns(turns, Quota()) && outcome == Returned(0)
    }

    ghost predicate Ended()
      reads this`finish, pool`sent, pool`completed, pool`pending
    {
      pool.sent == pool.completed && finish && pool.pending == []
    }

    /** In step, the loop has not ended exactly as long as something is pending, below the quota. */
    lemma InStepCounts(times: set<Timeval>)
      requires Valid() && InStep(times)
      ensures Ended() <==> pool.pending == []
      ensures if Ended() then |pool.dispatched| == Quota() else |pool.dispatched| < Quota()
    {
      hide Throttled, Generated, Counted, FlightOk, DoneOk, Pool.InOrder, Pool.OnePlaceEach, DuesIn;
    }

    lemma NothingLeft()
      requires Valid() && Ended()
      ensures pool.inflight == {} && pool.failed == 0
    {
      hide StopsRight, TraceInOrder, Throttled, Generated, Counted, FlightOk, DoneOk;
    }

    lemma PromptAt(turns: seq<Turn>, times: set<Timeval>, k: nat)
      requires Prompt(turns, times) && k < |turns|
      ensures PromptTurn(turns[k]) && !Disturbs(turns[k]) && Ripe(turns[k].now, k, times + SentAts(turns[..k]))
      ensures times + SentAts(turns[..k + 1]) == times + SentAts(turns[..k]) + {turns[k].sentAt}
    {
      SentAtsSnoc(turns, k);
    }

    lemma UndisturbedSnoc(turns: seq<Turn>, k: nat)
      requires k < |turns| && Undisturbed(turns[..k])
      ensures Disturbs(turns[k]) || Undisturbed(turns[..k + 1])
    {
    }

    /** The main loop. It returns 0 only when every command it counted has completed; it returns -4 at a turn
        more than thirty seconds over time and -7 at one with a request to terminate, and only then. With
        prompt turns it sends one command a turn until its quota, and then returns 0. */
    method MainLoop(turns: seq<Turn>, ghost times: set<Timeval>) returns (outcome: Outcome)
      requires Valid()
      modifies this, pool, gen, stats, stats.ops, stats.latencies, ring`current, ring`history, ring.list
      ensures Valid() && ring.list == old(ring.list)
      ensures old(Clean()) && QuietTurns(turns) ==> Clean()
      ensures outcome == Returned(0) ==> Ended() && pool.inflight == {} && pool.failed == 0
      ensures LeavesRight(turns, outcome)
      ensures old(InStep(times) && pool.dispatched == []) && Prompt(turns, times) ==> RunsPromptly(turns, outcome)
    {
      hide Valid, Clean, InStep, Ripe, PromptTurn, Prompt, QuietTurn, Undisturbed, SentAts;
      ghost var prompt := InStep(times) && pool.dispatched == [] && Prompt(turns, times);
      NoTurns(turns, times);
      var k := 0;
      while !(pool.sent == pool.completed && finish && pool.pending == []) && k < |turns|
        invariant Valid() && ring.list == old(ring.list) && k <= |turns| && Undisturbed(turns[..k])
        invariant old(Clean()) && QuietTurns(turns) ==> Clean()
        invariant prompt ==> InStep(times + SentAts(turns[..k])) && AtTurns(turns, k)
        decreases |turns| - k
      {
        if prompt {
          InStepCounts(times + SentAts(turns[..k]));
          PromptAt(turns, times, k);
        }
        UndisturbedSnoc(turns, k);
        var code := OneTurn(turns[k], times + SentAts(turns[..k]));
        if code != 0 {
          assert LeavesAt(turns, k, code);
          return Returned(code);
        }
        k := k + 1;
      }
      if prompt {
        InStepCounts(times + SentAts(turns[..k]));
      }
      if pool.sent == pool.completed && finish && pool.pending == [] {
        NothingLeft();
        return Returned(0);
      }
      assert turns[..k] == turns;
      return StillRunning;
    }

    lemma NoTurns(turns: seq<Turn>, times: set<Timeval>)
      ensures Undisturbed(turns[..0]) && times + SentAts(turns[..0]) == times
    {
    }

    /** From the first batch to the end of the loop. Returning 0 without error and in time, the worker has
        sent exactly its quota; with prompt turns it gets there with one command a turn. */
    method Work(readings: seq<Timeval>, turns: seq<Turn>) returns (outcome: Outcome)
      requires ArgsOk(a) && Counted() && Generated() && Unused() && FlightOk() && DoneOk() && a.qdepth == |readings|
      requires stats.error == 0
      modifies this, pool, gen, stats, stats.ops, stats.latencies, ring`current, ring`history, ring.list
      ensures Valid() && ring.list == old(ring.list)
      ensures outcome == Returned(0) ==>
        finish && pool.completed == pool.sent == |ios| && pool.inflight == {} && pool.failed == 0
      ensures outcome == Returned(0) && QuietTurns(turns) ==> |ios| == Quota()
      ensures QuietTurns(turns) ==> stats.error == 0
      ensures LeavesRight(turns, outcome)
      ensures Prompt(turns, Readings(readings)) ==> RunsPromptly(turns, outcome)
    {
      assert Clean();
      FirstBatch(readings);
      FirstInStep(readings);
      hide Counted, FlightOk, DoneOk, InStep, LeavesRight, RunsPromptly, Prompt, QuietTurns;
      outcome := MainLoop(turns, Readings(readings));
      Finished();
    }

    function Readings(readings: seq<Timeval>): set<Timeval> {
      set k | 0 <= k < |readings| :: readings[k]
    }

    lemma FirstInStep(readings: seq<Timeval>)
      requires Valid() && Clean() && !finish && pool.inflight == {} && pool.failed == 0 && pool.sent >= 1
      requires pool.completed == 0 && pool.dispatched == [] && (a.trace == [] && a.delay == 0 ==> DueAt(readings))
      ensures InStep(Readings(readings))
    {
    }

    /** What has ended without error has sent its quota. */
    lemma Finished()
      requires Valid()
      ensures |ios| == pool.sent - |pool.pending|
      ensures finish && Calm() && pool.failed == 0 ==> pool.sent == Quota()
    {
    }
  }

  // ---------- what holds at every step of every run ----------
  // Each lemma asks for the part of `Valid()` it needs.

  /** Throttle bound: the k-th command dispatched (from 0) leaves strictly after k+1 delays, so at most
      `(t - start) / delay` commands leave by time `t`. */
  lemma ThrottleBound(v: IoWorker, k: nat, t: int)
    requires v.pool.InOrder() && v.Throttled() && v.a.trace == [] && v.a.delay != 0
    requires k < |v.pool.dispatched| && v.pool.dispatched[k].Tidy()
    ensures v.pool.dispatched[k].Us() > v.a.start.Us() + (k + 1) * v.a.delay
    ensures v.pool.dispatched[k].Us() <= t ==> k + 1 <= (t - v.a.start.Us()) / v.a.delay
  {
    LaterIsGreater(v.pool.dispatched[k], v.pool.inserted[k].due);
    TimesIsProduct(k + 1, v.a.delay);
    if v.pool.dispatched[k].Us() <= t {
      QuotientAtLeast(k + 1, t - v.a.start.Us(), v.a.delay);
    }
  }

  /** LBA safety of every command a worker has sent. */
  lemma SentInRegion(v: IoWorker, k: nat)
    requires v.Generated() && v.a.trace == [] && k < |v.ios|
    requires AlignOk(v.a.w) && StepSafe(v.a.w)
    requires v.a.w.regionStart <= v.a.lbaStart && SkipsOk(v.a.w, v.a.lbaStart, v.draws)
    ensures InRegion(v.a.w, v.ios[k], v.a.w.aligns[SizeIndex(v.a.w, v.draws[k])])
    ensures v.ios[k].count <= v.a.w.sizes[SizeIndex(v.a.w, v.draws[k])]
  {
    hide AlignOk, StepSafe, SkipsOk, Ready, InRegion, SizeIndex, Ios, SeqLba;
    AllInRegion(v.a.w, v.a.lbaStart, v.draws, k);
  }

  /** A sequential worker has covered its region exactly once if and only if it sent as many commands as a
      pass takes, from a start that fits; one stopped by its count has sent that count. */
  lemma FilledOnce(v: IoWorker, size: nat)
    requires v.Generated() && v.StopsRight() && v.pool.Conserved() && v.a.trace == []
    requires OnePass(v.a.w, size, v.draws) && v.a.w.regionStart <= v.a.lbaStart
    ensures CoversOnce(v.a.w, v.ios) <==>
      |v.ios| == PassLength(v.a.w, size) && StartFits(v.a.w, v.a.lbaStart, size)
    ensures v.cause == CountLimit && v.pool.pending == [] ==> |v.ios| == v.a.ioCount
  {
    hide StartFits, CoversOnce, PassLength, Ready, SeqLba, Ios;
    FillFrom(v.a.w, size, v.a.lbaStart, v.draws);
  }

  // ---------- a whole run ----------

  /** Scheduling: every command counted as sent is completed, pending, in flight or refused; the count
      and the pool are not exceeded; what has left the FIFO is what the worker handed over. */
  ghost predicate NothingLost(v: IoWorker)
    reads v, v.pool
  {
    && v.pool.sent == v.pool.completed + |v.pool.pending| + |v.pool.inflight| + v.pool.failed
    && v.pool.sent <= v.a.ioCount && |v.pool.pending| + |v.pool.inflight| <= v.a.qdepth
    && |v.draws| == |v.ios| == |v.pool.dispatched| == v.pool.sent - |v.pool.pending|
  }

  /** Generated commands lie in the region and on their alignment, under the exact conditions. */
  ghost predicate InsideRegion(v: IoWorker)
    reads v
  {
    Ready(v.a.w) && v.a.trace == [] && AlignOk(v.a.w) && StepSafe(v.a.w)
    && v.a.w.regionStart <= v.a.lbaStart && SkipsOk(v.a.w, v.a.lbaStart, v.draws) ==>
      |v.draws| == |v.ios| && forall k :: 0 <= k < |v.ios| ==>
        InRegion(v.a.w, v.ios[k], v.a.w.aligns[SizeIndex(v.a.w, v.draws[k])])
  }

  /** A sequential workload of one size covers the region exactly once if and only if the number of
      commands is that of one pass and the start fits. */
  ghost predicate FillsByCount(v: IoWorker)
    reads v
  {
    forall size: nat {:trigger OnePass(v.a.w, size, v.draws)} ::
      v.a.trace == [] && OnePass(v.a.w, size, v.draws) && v.a.w.regionStart <= v.a.lbaStart ==>
        (CoversOnce(v.a.w, v.ios) <==> |v.ios| == PassLength(v.a.w, size) && StartFits(v.a.w, v.a.lbaStart, size))
  }

  /** A trace is replayed in order without gap or repeat; if its end stops the worker, all of it was
      sent, or all but the last entry when it did not fit the first batch. */
  ghost predicate FollowsTrace(v: IoWorker)
    reads v, v.pool
  {
    v.a.trace != [] ==>
      && |v.ios| <= |v.a.trace|
      && (forall k :: 0 <= k < |v.ios| ==> ReplaysEntry(v.a, v.ios[k], v.a.trace[k]))
      && (forall k :: 0 <= k < |v.pool.dispatched| ==>
           k < |v.a.trace| && Later(v.pool.dispatched[k], AddUseconds(v.a.traceStart, v.a.trace[k].timestamp)))
      && (v.cause == TraceEnd && v.pool.pending == [] ==>
            |v.ios| == if |v.a.trace| <= v.a.qdepth then |v.a.trace| else |v.a.trace| - 1)
  }

  /** Same LBA and opcode, and the count but for what lies beyond the region. */
  ghost predicate ReplaysEntry(a: Args, io: Io, e: TraceEntry) {
    && io.lba == e.slba && io.opcode == e.op && io.count <= e.nlba
    && (e.slba <= a.w.regionEnd ==>
          io.count == if e.slba + e.nlba <= a.w.regionEnd then e.nlba else a.w.regionEnd - e.slba)
  }

  lemma ReplayKept(v: IoWorker, e: TraceEntry)
    requires v.a.w.regionEnd < LBA_LIMIT
    ensures ReplaysEntry(v.a, v.Replayed(e), e)
  {
    if e.slba <= v.a.w.regionEnd {
      assert (v.a.w.regionEnd - e.slba) % TWO64 == v.a.w.regionEnd - e.slba;
    }
  }

  lemma ReplaysKept(v: IoWorker)
    requires v.Generated() && v.a.trace != []
    ensures |v.ios| <= |v.a.trace|
    ensures forall k :: 0 <= k < |v.ios| ==> ReplaysEntry(v.a, v.ios[k], v.a.trace[k])
  {
    hide IoWorker.Replayed, ReplaysEntry, SeqLba, Ios;
    forall k | 0 <= k < |v.ios|
      ensures ReplaysEntry(v.a, v.ios[k], v.a.trace[k])
    {
      ReplayKept(v, v.a.trace[k]);
    }
  }

  /** With a delay, the k-th command (from 0) leaves strictly later than k+1 delays after the start. */
  ghost predicate KeepsPace(v: IoWorker)
    reads v.pool
  {
    v.a.trace == [] && v.a.delay != 0 ==>
      forall k :: 0 <= k < |v.pool.dispatched| && v.pool.dispatched[k].Tidy() ==>
        v.pool.dispatched[k].Us() > v.a.start.Us() + (k + 1) * v.a.delay
  }

  /** The reported counters account for every completed command. */
  ghost predicate CountsAll(v: IoWorker)
    reads v.pool, v.stats, v.stats.ops, v.stats.latencies
  {
    && v.stats.countRead + v.stats.countNonread == v.pool.completed
    && Sum(v.stats.ops.values) == Sum(v.stats.ops.start) + v.pool.completed
    && (v.stats.collectLatency ==> Sum(v.stats.latencies.values) == v.pool.completed)
    && Sum(v.stats.perSecond) == v.stats.tillLastSec <= v.pool.completed
  }

  lemma CountersAccount(v: IoWorker)
    requires v.StatsOk()
    ensures CountsAll(v)
  {
    Conservation(v.stats);
  }

  lemma SchedulingKept(v: IoWorker)
    requires v.Valid()
    ensures NothingLost(v)
  {
    hide IoWorker.TraceInOrder, IoWorker.Throttled, IoWorker.Counted, Pool.InOrder;
    v.pool.Bounded();
  }

  lemma RegionKept(v: IoWorker)
    requires v.Generated()
    ensures InsideRegion(v)
  {
    hide AlignOk, StepSafe, SkipsOk, InRegion, SizeIndex, Ios, SeqLba;
    if v.a.trace == [] && AlignOk(v.a.w) && StepSafe(v.a.w)
      && v.a.w.regionStart <= v.a.lbaStart && SkipsOk(v.a.w, v.a.lbaStart, v.draws) {
      forall k | 0 <= k < |v.ios|
        ensures InRegion(v.a.w, v.ios[k], v.a.w.aligns[SizeIndex(v.a.w, v.draws[k])])
      {
        SentInRegion(v, k);
      }
    }
  }

  lemma FillKept(v: IoWorker)
    requires v.Generated() && v.StopsRight() && v.pool.Conserved()
    ensures FillsByCount(v)
  {
    hide IoWorker.Generated, IoWorker.StopsRight, CoversOnce, PassLength, StartFits;
    forall size: nat | v.a.trace == [] && OnePass(v.a.w, size, v.draws) && v.a.w.regionStart <= v.a.lbaStart
      ensures CoversOnce(v.a.w, v.ios) <==>
        |v.ios| == PassLength(v.a.w, size) && StartFits(v.a.w, v.a.lbaStart, size)
    {
      FilledOnce(v, size);
    }
  }

  lemma PaceKept(v: IoWorker)
    requires v.pool.InOrder() && v.Throttled()
    ensures KeepsPace(v)
  {
    hide Pool.InOrder, IoWorker.Throttled;
    if v.a.trace == [] && v.a.delay != 0 {
      forall k | 0 <= k < |v.pool.dispatched| && v.pool.dispatched[k].Tidy()
        ensures v.pool.dispatched[k].Us() > v.a.start.Us() + (k + 1) * v.a.delay
      {
        ThrottleBound(v, k, 0);
      }
    }
  }

  lemma TraceTimesKept(v: IoWorker)
    requires v.pool.InOrder() && v.TraceInOrder() && v.a.trace != []
    ensures forall k :: 0 <= k < |v.pool.dispatched| ==>
      k < |v.a.trace| && Later(v.pool.dispatched[k], AddUseconds(v.a.traceStart, v.a.trace[k].timestamp))
  {
    hide AddUseconds;
    forall k | 0 <= k < |v.pool.dispatched|
      ensures k < |v.a.trace| && Later(v.pool.dispatched[k], AddUseconds(v.a.traceStart, v.a.trace[k].timestamp))
    {
      assert v.pool.inserted[k].due == v.TraceDue(k);
    }
  }

  /** All of it, of any worker whose methods have kept its invariant. */
  lemma RunKept(v: IoWorker)
    requires v.Valid()
    ensures NothingLost(v) && InsideRegion(v) && FillsByCount(v) && FollowsTrace(v) && KeepsPace(v) && CountsAll(v)
  {
    hide NothingLost, InsideRegion, FillsByCount, KeepsPace, CountsAll, ReplaysEntry, IoWorker.Replayed;
    hide Ready, IoWorker.Throttled, IoWorker.StatsOk, IoWorker.LogOk, IoWorker.CtxOk, Pool.InOrder, Pool.OnePlaceEach;
    if v.a.trace != [] {
      ReplaysKept(v);
      TraceTimesKept(v);
    }
    SchedulingKept(v);
    RegionKept(v);
    FillKept(v);
    PaceKept(v);
    CountersAccount(v);
  }

  method Begin(a: Args, weights: seq<nat>, logLength: nat, collectLatency: bool, collectSeconds: bool,
               readings: seq<Timeval>, turns: seq<Turn>) returns (v: IoWorker, outcome: Outcome)
    requires ArgsOk(a) && |weights| == |a.w.ops| && |readings| == a.qdepth
    ensures v.Valid() && fresh(v.ring.list) && v.ring.list.Length == logLength
    ensures v.a == a && v.LeavesRight(turns, outcome)
    ensures outcome == Returned(0) ==>
      v.finish && v.pool.completed == v.pool.sent == |v.ios| && v.pool.inflight == {} && v.pool.failed == 0
    ensures outcome == Returned(0) && v.QuietTurns(turns) ==> |v.ios| == v.Quota()
    ensures v.QuietTurns(turns) ==> v.stats.error == 0
    ensures v.Prompt(turns, v.Readings(readings)) ==> v.RunsPromptly(turns, outcome)
    ensures v.stats.ops.start == weights && v.stats.collectLatency == collectLatency
  {
    v := new IoWorker(a, weights, logLength, collectLatency, collectSeconds);
    hide IoWorker.Counted, IoWorker.Unused, IoWorker.Generated, IoWorker.FlightOk, IoWorker.DoneOk, ArgsOk;
    hide IoWorker.QuietTurns, IoWorker.Valid, IoWorker.LeavesRight, IoWorker.Prompt, IoWorker.RunsPromptly;
    outcome := v.Work(readings, turns);
  }

  /** A worker from its start to its report, for all arguments, clock readings, draws, queue pair answers
      and completions. `StillRunning` is a run that the given turns do not bring to its end. */
  method WorkerEntry(a: Args, weights: seq<nat>, logLength: nat, collectLatency: bool, collectSeconds: bool,
                     readings: seq<Timeval>, turns: seq<Turn>) returns (v: IoWorker, outcome: Outcome)
    requires ArgsOk(a) && |weights| == |a.w.ops| && |readings| == a.qdepth
    ensures v.a == a && v.LeavesRight(turns, outcome)
    ensures NothingLost(v) && InsideRegion(v) && FillsByCount(v) && FollowsTrace(v) && KeepsPace(v) && CountsAll(v)
    ensures outcome == Returned(0) ==>
      v.finish && v.pool.completed == v.pool.sent == |v.ios| && v.pool.inflight == {} && v.pool.failed == 0
    ensures outcome == Returned(0) && v.QuietTurns(turns) ==> |v.ios| == v.Quota()
    ensures v.QuietTurns(turns) ==> v.stats.error == 0
    ensures v.Prompt(turns, v.Readings(readings)) ==> v.RunsPromptly(turns, outcome)
    ensures v.StatsOk() && v.stats.ops.start == weights && v.stats.collectLatency == collectLatency
    ensures v.DoneOk() && Below(v.done, |v.ios|) && |v.done| == v.pool.completed && v.StopsRight()
    ensures v.ring.list.Length == logLength
    ensures outcome.Returned? && logLength > 0 ==> v.ring.list[..] == LastOf(Picked(v.ios, v.done), logLength)
  {
    hide NothingLost, InsideRegion, FillsByCount, FollowsTrace, KeepsPace, CountsAll, IoWorker.StatsOk, IoWorker.Valid;
    hide Picked, Opcodes, Distinct, Below, IoWorker.QuietTurns, IoWorker.StopsRight, IoWorker.DoneOk, ArgsOk, LastOf;
    hide IoWorker.LeavesRight, IoWorker.Prompt, IoWorker.RunsPromptly;
    v, outcome := Begin(a, weights, logLength, collectLatency, collectSeconds, readings, turns);
    RunKept(v);
    v.Stored();
    if outcome.Returned? {
      v.Report();
    }
  }
}
