/** From the parameters of a script to a running worker: the checks of the script side, the lookup tables
    and the revised limits. */
module Setup {
  import opened Commands
  import opened Arithmetic
  import opened Counting
  import opened Clock
  import opened LbaGenerator
  import opened RegionFill
  import opened WeightedTables
  import opened Statistics
  import opened Worker
  import opened Throttle

  const SIZE_ENTRIES: nat := 10000
  const OP_ENTRIES: nat := 100

  /** A workload as the script describes it, sizes and opcodes with their weights. */
  datatype Job = Job(
    limits: Limits,
    sizes: seq<nat>,
    ratios: seq<nat>,
    aligns: seq<nat>,
    lbaRandom: nat,
    stepValid: bool,
    step: int,
    ops: seq<nat>,
    percentages: seq<nat>,
    distribution: seq<nat>,    // empty: none
    iops: nat,                 // 0: as fast as possible
    trace: seq<TraceEntry>)

  /** What the script side makes sure of before it starts a worker: its assertions, and that there is a
      size at all. A dictionary's opcodes are distinct. */
  ghost predicate Accepted(q: Job) {
    && 2 <= q.limits.qdepth <= 1024 && q.limits.regionStart < q.limits.regionEnd < TWO64
    && 1 <= |q.sizes| == |q.ratios| == |q.aligns| && Sum(q.ratios) <= SIZE_ENTRIES
    && (forall k :: 0 <= k < |q.sizes| ==> 1 <= q.sizes[k] < TWO16)
    && (forall k :: 0 <= k < |q.aligns| ==> 1 <= q.aligns[k] < TWO16)
    && q.lbaRandom <= 100 && -0x8000 < q.step < 0x8000
    && |q.ops| == |q.percentages| && Sum(q.percentages) == OP_ENTRIES && Distinct(q.ops)
    && (q.iops == 0 || q.iops >= q.limits.qdepth) && (q.trace != [] ==> q.iops == 0)
    && (q.distribution != [] ==> DistributionOk(q))
  }

  ghost predicate DistributionOk(q: Job) {
    && q.limits.regionStart == 0 && q.limits.regionEnd == TWO64 - 1 && q.lbaRandom == 100
    && |q.distribution| == SECTIONS && Sum(q.distribution) == SECTION_ENTRIES
  }

  const SECTION_ENTRIES: nat := 10000

  function MaxOf(s: seq<nat>): (m: nat)
    requires s != []
    ensures m in s && forall k :: 0 <= k < |s| ==> s[k] <= m
  {
    var last := s[|s| - 1];
    if |s| == 1 then last
    else
      var m := MaxOf(s[..|s| - 1]);
      assert forall k :: 0 <= k < |s| - 1 ==> s[..|s| - 1][k] == s[k];
      if m < last then last else m
  }

  lemma WeightsNotEmpty(q: Job)
    requires Accepted(q)
    ensures q.aligns != [] && q.ops != [] && MaxOf(q.aligns) >= 1
  {
    assert Sum([]) == 0;
  }

  /** The limits that the worker runs with. */
  function LimitsOf(q: Job, nsze: nat): Limits
    requires Accepted(q)
  {
    WeightsNotEmpty(q);
    Revised(q.limits, MaxOf(q.aligns), nsze)
  }

  /** Some size can be drawn, which nobody checks: with ratios of zero only, the worker divides by zero. */
  ghost predicate SizesLeft(q: Job) {
    Sum(q.ratios) >= 1
  }

  /** The region is not empty once it is aligned and clipped to the namespace, which nobody checks. */
  ghost predicate RegionLeft(q: Job, nsze: nat)
    requires Accepted(q)
  {
    LimitsOf(q, nsze).regionStart < LimitsOf(q, nsze).regionEnd
  }

  /** The workload of a job: every weighted table is the expansion of its weights. */
  ghost predicate Realizes(w: Workload, q: Job, nsze: nat)
    requires Accepted(q)
  {
    && w.regionStart == LimitsOf(q, nsze).regionStart && w.regionEnd == LimitsOf(q, nsze).regionEnd
    && w.lbaRandom == q.lbaRandom && w.stepValid == q.stepValid && w.step == q.step
    && w.sizes == q.sizes && w.aligns == q.aligns && w.ops == q.ops
    && w.sizeTable == Expand(q.ratios) && w.opTable == Expand(q.percentages)
    && |w.sections| == Sum(q.distribution)
    && (q.distribution != [] ==> forall k :: 0 <= k < |w.sections| ==>
          w.sections[k] == SectionOf(nsze, w.regionEnd, Expand(q.distribution)[k]))
  }

  /** The tables are what the generator asks for, so that no random index can lead out of one and no
      section out of the region, exactly when there is a size to draw and a region to draw from. */
  lemma RealizedIsReady(w: Workload, q: Job, nsze: nat)
    requires Accepted(q) && nsze < LBA_LIMIT && Realizes(w, q, nsze)
    ensures Ready(w) <==> SizesLeft(q) && RegionLeft(q, nsze)
  {
    ExpandInRange(q.ratios);
    ExpandInRange(q.percentages);
    if RegionLeft(q, nsze) {
      forall k | 0 <= k < |w.sections|
        ensures w.regionStart <= w.sections[k].lbaStart <= w.sections[k].lbaEnd <= w.regionEnd
        ensures w.sections[k].lbaStart < w.regionEnd
      {
        FullRegion(q, nsze);
        ExpandInRange(q.distribution);
        SectionsUsable(nsze, Expand(q.distribution)[k]);
      }
    }
  }

  /** A distribution is over the whole namespace. */
  lemma FullRegion(q: Job, nsze: nat)
    requires Accepted(q) && q.distribution != [] && nsze < LBA_LIMIT
    ensures LimitsOf(q, nsze).regionStart == 0 && LimitsOf(q, nsze).regionEnd == nsze
  {
    assert 0 % MaxOf(q.aligns) == 0;
  }

  /** Builds the lookup tables. */
  method Build(q: Job, nsze: nat) returns (w: Workload)
    requires Accepted(q)
    ensures Realizes(w, q, nsze)
  {
    hide LimitsOf;
    var l := LimitsOf(q, nsze);
    var dl := new Section[SECTION_ENTRIES](_ => Section(0, 0));
    var sl := new nat[SIZE_ENTRIES](_ => 0);
    var op := new nat[OP_ENTRIES](_ => 0);
    var dlCount := 0;
    if q.distribution != [] {
      dlCount := DistributionInit(nsze, l.regionEnd, q.distribution, dl);
    }
    var slCount := FillTable(q.ratios, sl);
    var opCount := FillTable(q.percentages, op);
    w := Workload(l.regionStart, l.regionEnd, q.lbaRandom, q.stepValid, q.step, q.sizes, q.aligns,
                  sl[..slCount], q.ops, op[..opCount], dl[..dlCount]);
  }

  /** The arguments of the worker: revised limits and lookup tables. */
  method MakeArgs(q: Job, nsze: nat, start: Timeval, traceStart: Timeval) returns (a: Args)
    requires Accepted(q) && nsze < LBA_LIMIT && start.Tidy()
    ensures ArgsOk(a) <==> SizesLeft(q) && RegionLeft(q, nsze)
    ensures Realizes(a.w, q, nsze) && a.w.regionStart <= a.lbaStart && a.qdepth < q.limits.qdepth
    ensures a.trace == q.trace && a.start == start
    ensures a.ioCount == LimitsOf(q, nsze).ioCount && a.lbaStart == LimitsOf(q, nsze).lbaStart
    ensures a.delay == Delay(q.iops) && a.traceStart == traceStart
    ensures a.seconds == if 1 <= q.limits.seconds <= 3_600_000 then q.limits.seconds else 3_600_000
    ensures a.qdepth <= a.ioCount && (a.qdepth == a.ioCount || a.qdepth + 1 == q.limits.qdepth)
  {
    hide Ready, Expand, Sum, SizesLeft, RegionLeft;
    WeightsNotEmpty(q);
    RevisedFits(q.limits, MaxOf(q.aligns), nsze);
    var l := LimitsOf(q, nsze);
    var w := Build(q, nsze);
    RealizedIsReady(w, q, nsze);
    a := Args(w, l.lbaStart, l.ioCount, l.seconds, l.qdepth, Delay(q.iops), q.trace, start, traceStart);
  }

  // ---------- the mix ----------

  /** Over the hundred draws of an opcode, each opcode comes up as often as its percentage says. */
  lemma {:induction false} OpcodesDrawn(w: Workload, q: Job, nsze: nat, d: Draw, drawn: seq<nat>, i: nat)
    requires Accepted(q) && Realizes(w, q, nsze) && Ready(w) && i < |q.ops|
    requires |drawn| == 100 && forall k :: 0 <= k < 100 ==> drawn[k] == OpIndex(w, d.(op := k))
    ensures Count(drawn, i) == q.percentages[i]
  {
    assert i < |q.percentages| && Sum(q.percentages) == 100;
    hide Ready, Accepted, Count, Expand;
    OpTableDrawn(w, d, drawn);
    assert drawn == Expand(q.percentages);
    ExpandWeights(q.percentages, i);
  }

  lemma OpTableDrawn(w: Workload, d: Draw, drawn: seq<nat>)
    requires Ready(w) && |drawn| == |w.opTable|
    requires forall k :: 0 <= k < |drawn| ==> drawn[k] == OpIndex(w, d.(op := k))
    ensures drawn == w.opTable
  {
    forall k | 0 <= k < |drawn|
      ensures drawn[k] == w.opTable[k]
    {
      SmallMod(k, |w.opTable|);
    }
  }

  /** Over as many draws of a size as the ratios add up to, each size comes up as often as its ratio says. */
  lemma {:induction false} SizesDrawn(w: Workload, q: Job, nsze: nat, d: Draw, drawn: seq<nat>, i: nat)
    requires Accepted(q) && Realizes(w, q, nsze) && Ready(w) && i < |q.sizes|
    requires |drawn| == Sum(q.ratios) && forall k :: 0 <= k < |drawn| ==> drawn[k] == SizeIndex(w, d.(size := k))
    ensures Count(drawn, i) == q.ratios[i]
  {
    assert i < |q.ratios|;
    hide Ready, Accepted, Count, Expand;
    SizeTableDrawn(w, d, drawn);
    assert drawn == Expand(q.ratios);
    ExpandWeights(q.ratios, i);
  }

  lemma SizeTableDrawn(w: Workload, d: Draw, drawn: seq<nat>)
    requires Ready(w) && |drawn| == |w.sizeTable|
    requires forall k :: 0 <= k < |drawn| ==> drawn[k] == SizeIndex(w, d.(size := k))
    ensures drawn == w.sizeTable
  {
    forall k | 0 <= k < |drawn|
      ensures drawn[k] == w.sizeTable[k]
    {
      SmallMod(k, |w.sizeTable|);
    }
  }

  /** Draw `k` of the ten thousand leads to the section whose number the distribution puts there: section `i`
      as often as it says, each a hundredth of the namespace. */
  lemma {:induction false} SectionsDrawn(w: Workload, q: Job, nsze: nat, d: Draw, k: nat, i: nat)
    requires Accepted(q) && Realizes(w, q, nsze) && Ready(w) && q.distribution != [] && nsze < LBA_LIMIT
    requires k < 10000 && i < 100
    ensures |Expand(q.distribution)| == 10000 && Count(Expand(q.distribution), i) == q.distribution[i]
    ensures SectionDrawn(w, d.(section := k)).lbaStart == nsze / 100 * Expand(q.distribution)[k]
    ensures Expand(q.distribution)[k] < 99 ==>
      SectionDrawn(w, d.(section := k)).lbaEnd == nsze / 100 * (Expand(q.distribution)[k] + 1)
    ensures Expand(q.distribution)[k] == 99 ==> SectionDrawn(w, d.(section := k)).lbaEnd == nsze
  {
    hide Ready, Count, Expand, Sum;
    FullRegion(q, nsze);
    ExpandWeights(q.distribution, i);
    SmallMod(k, 10000);
    var n := Expand(q.distribution)[k];
    assert SectionDrawn(w, d.(section := k)) == w.sections[k] == SectionOf(nsze, nsze, n);
    Distribute(n + 1, n, nsze / 100);
  }

  /** Over the hundred draws, `lba_random` give a random command. */
  lemma RandomDrawn(w: Workload, q: Job, nsze: nat, d: Draw, drawn: seq<bool>)
    requires Accepted(q) && Realizes(w, q, nsze)
    requires |drawn| == 100 && forall k :: 0 <= k < 100 ==> drawn[k] == IsRandom(w, d.(percent := k))
    ensures Count(drawn, true) == q.lbaRandom
  {
    CountFirst(drawn, q.lbaRandom);
  }

  // ---------- alignments ----------

  /** Every alignment divides the largest one, as a single one does. */
  predicate AlignsNest(q: Job)
    requires q.aligns != [] && forall k :: 0 <= k < |q.aligns| ==> q.aligns[k] >= 1
  {
    forall k :: 0 <= k < |q.aligns| ==> MaxOf(q.aligns) % q.aligns[k] == 0
  }

  /** The region starts at a multiple of the largest alignment, hence of all of them. */
  lemma NestedAlignsOk(w: Workload, q: Job, nsze: nat)
    requires Accepted(q) && Realizes(w, q, nsze) && Ready(w) && q.aligns != [] && AlignsNest(q)
    ensures AlignOk(w)
  {
    var m := MaxOf(q.aligns);
    Multiple(q.limits.regionStart, m);
    forall k | 0 <= k < |w.sizeTable|
      ensures AlignUp(w.regionStart, AlignAt(w, k)) < w.regionEnd
    {
      Transitive(w.regionStart, m, AlignAt(w, k));
    }
  }

  // ---------- one pass ----------

  /** The script asks for one sequential pass: it computes the count and passes the clipped size on. */
  predicate AsksOnePass(q: Job, ioSize: nat)
    requires q.limits.regionStart < q.limits.regionEnd
  {
    && ioSize >= 1 && q.trace == [] && q.lbaRandom == 0 && !q.stepValid && q.aligns == [1]
    && q.sizes == [ScriptSize(q.limits.regionStart, q.limits.regionEnd, ioSize)]
    && q.limits.ioCount == ScriptCount(q.limits.regionStart, q.limits.regionEnd, ioSize)
  }

  /** The commands cover the region exactly once if and only if the last one counted still starts inside the
      namespace, and the first one a whole number of sizes from the start of the region. */
  ghost predicate FillsNamespace(v: IoWorker, q: Job, nsze: nat, ioSize: nat)
    requires q.limits.regionStart < q.limits.regionEnd && AsksOnePass(q, ioSize)
    reads v
  {
    CoversOnce(v.a.w, v.ios) <==>
      && q.limits.regionStart + (q.limits.ioCount - 1) * ioSize < nsze
      && (q.limits.lbaStart <= q.limits.regionStart || q.limits.lbaStart >= v.a.w.regionEnd
          || (q.limits.lbaStart - q.limits.regionStart) % ScriptSize(q.limits.regionStart, q.limits.regionEnd, ioSize) == 0)
  }

  lemma PassKept(v: IoWorker, q: Job, nsze: nat, ioSize: nat)
    requires Accepted(q) && RegionLeft(q, nsze) && Ready(v.a.w) && Realizes(v.a.w, q, nsze)
    requires v.a.trace == q.trace && v.a.lbaStart == LimitsOf(q, nsze).lbaStart && FillsByCount(v)
    requires AsksOnePass(q, ioSize) && |v.ios| == |v.draws| == q.limits.ioCount && NoSkips(v.draws)
    ensures FillsNamespace(v, q, nsze, ioSize)
  {
    hide Ready, CoversOnce, PassLength, ScriptCount;
    assert MaxOf(q.aligns) == 1;
    assert AlignUp(q.limits.regionStart, 1) == q.limits.regionStart;
    assert OnePass(v.a.w, q.sizes[0], v.draws);
    ScriptCountIsOnePass(v.a.w, q.limits.regionEnd, nsze, ioSize);
  }

  // ---------- from job to report ----------

  /** The report has one number per opcode. */
  ghost predicate Reports(ops: seq<nat>, opcodes: seq<nat>, report: map<nat, int>) {
    && report.Keys == (set i | 0 <= i < |ops| :: ops[i])
    && forall i :: 0 <= i < |ops| ==> report[ops[i]] == Count(opcodes, ops[i])
  }

  /** The script's dictionary of opcodes. */
  function Dictionary(ops: seq<nat>, percentages: seq<nat>): (m: map<nat, int>)
    requires Distinct(ops) && |ops| == |percentages|
    ensures m.Keys == set i | 0 <= i < |ops| :: ops[i]
    ensures forall i :: 0 <= i < |ops| ==> m[ops[i]] == percentages[i]
  {
    map i | 0 <= i < |ops| :: ops[i] := percentages[i]
  }

  /** A replay books everything under the first opcode. */
  ghost predicate ReportsReplay(ops: seq<nat>, completed: nat, report: map<nat, int>) {
    && report.Keys == (set i | 0 <= i < |ops| :: ops[i])
    && forall i :: 0 <= i < |ops| ==> report[ops[i]] == if i == 0 then completed else 0
  }

  method ReportCounters(v: IoWorker, q: Job) returns (report: map<nat, int>)
    requires Distinct(q.ops) && |q.ops| == |q.percentages| && v.StatsOk() && v.a.w.ops == q.ops
    requires v.stats.ops.start == q.percentages
    ensures if v.a.trace == [] then Reports(q.ops, v.stats.opcodes, report)
            else ReportsReplay(q.ops, v.pool.completed, report)
  {
    assert |v.stats.ops.values| == |q.ops|;
    hide Counters.Valid, Count, FromTable, Dictionary, Distinct;
    var percentage := Dictionary(q.ops, q.percentages);
    report := Close(q.ops, v.stats.ops.values, percentage);
    forall i | 0 <= i < |q.ops|
      ensures report[q.ops[i]] == if v.a.trace == [] then Count(v.stats.opcodes, q.ops[i])
                                  else if i == 0 then v.pool.completed else 0
    {
      if v.a.trace == [] {
        ReportIsCompletions(v.stats, q.ops, percentage, report, i);
      } else {
        ReplayCounts(v, i);
      }
    }
  }

  lemma ReplayCounts(v: IoWorker, i: nat)
    requires v.StatsOk() && v.a.trace != [] && i < |v.stats.ops.start|
    ensures i < |v.stats.ops.values|
    ensures v.stats.ops.values[i] == v.stats.ops.start[i] + if i == 0 then v.pool.completed else 0
  {
    GrownCounts(v.stats.ops.start, v.stats.ops.indexes, i);
    CountRepeat<nat>(v.stats.ops.indexes, 0, i);
  }

  /** When everything sent has completed, the report counts the commands sent. */
  lemma ReportsSent(v: IoWorker, ops: seq<nat>, report: map<nat, int>)
    requires v.DoneOk() && |v.done| == |v.ios| && Reports(ops, v.stats.opcodes, report)
    ensures Reports(ops, Opcodes(v.ios), report)
  {
    forall i | 0 <= i < |ops|
      ensures Count(v.stats.opcodes, ops[i]) == Count(Opcodes(v.ios), ops[i])
    {
      hide Count, Distinct;
      CountPermuted(Opcodes(v.ios), v.done, v.stats.opcodes, ops[i]);
    }
  }

  /** A script's worker from its job to its report. The report counts the completed commands per opcode,
      and those sent if the worker returns 0. If moreover no completion had an error or came after the time
      limit, the worker has sent all it was asked for, and has filled the region if asked for one pass. */
  method Launch(q: Job, nsze: nat, start: Timeval, traceStart: Timeval, logLength: nat, collectLatency: bool,
                collectSeconds: bool, readings: seq<Timeval>, turns: seq<Turn>, ghost ioSize: nat)
    returns (v: IoWorker, outcome: Outcome, report: map<nat, int>)
    requires Accepted(q) && SizesLeft(q) && RegionLeft(q, nsze) && nsze < LBA_LIMIT && start.Tidy()
    requires |readings| >= q.limits.qdepth
    ensures ArgsOk(v.a) && Realizes(v.a.w, q, nsze) && v.a.w.regionStart <= v.a.lbaStart
    ensures NothingLost(v) && InsideRegion(v) && FollowsTrace(v) && KeepsPace(v) && CountsAll(v)
    ensures AlignsNest(q) ==> AlignOk(v.a.w)
    ensures KeepsRate(v, q.iops)
    ensures outcome == Returned(0) ==>
      v.pool.completed == v.pool.sent == |v.ios| && v.pool.inflight == {} && v.pool.failed == 0
    ensures outcome == Returned(0) && v.QuietTurns(turns) ==> |v.ios| == v.Quota()
    ensures v.QuietTurns(turns) ==> v.stats.error == 0
    ensures v.LeavesRight(turns, outcome)
    ensures v.a.seconds == if 1 <= q.limits.seconds <= 3_600_000 then q.limits.seconds else 3_600_000
    ensures v.a.qdepth <= |readings|
    ensures v.Prompt(turns, v.Readings(readings[..v.a.qdepth])) ==> v.RunsPromptly(turns, outcome)
    ensures v.a.trace == q.trace && v.a.ioCount == LimitsOf(q, nsze).ioCount
    ensures outcome == Returned(0) && v.QuietTurns(turns) && AsksOnePass(q, ioSize) && NoSkips(v.draws) ==>
      FillsNamespace(v, q, nsze, ioSize)
    ensures if q.trace == [] then Reports(q.ops, v.stats.opcodes, report)
            else ReportsReplay(q.ops, v.pool.completed, report)
    ensures Below(v.done, |v.ios|) && v.stats.opcodes == Opcodes(Picked(v.ios, v.done)) && Distinct(v.done)
    ensures q.trace == [] && outcome == Returned(0) ==> Reports(q.ops, Opcodes(v.ios), report)
  {
    hide IoWorker.LeavesRight, IoWorker.Prompt, IoWorker.RunsPromptly, IoWorker.QuietTurns, IoWorker.Readings;
    var a := MakeArgs(q, nsze, start, traceStart);
    v, outcome := WorkerEntry(a, q.percentages, logLength, collectLatency, collectSeconds, readings[..a.qdepth], turns);
    report := ReportCounters(v, q);
    Conclude(v, q, nsze, ioSize, outcome, turns);
    if q.trace == [] && outcome == Returned(0) {
      ReportsSent(v, q.ops, report);
    }
  }

  /** What the run means for the job. */
  lemma Conclude(v: IoWorker, q: Job, nsze: nat, ioSize: nat, outcome: Outcome, turns: seq<Turn>)
    requires Accepted(q) && RegionLeft(q, nsze) && Ready(v.a.w) && Realizes(v.a.w, q, nsze)
    requires v.a.trace == q.trace && v.a.ioCount == LimitsOf(q, nsze).ioCount && v.a.delay == Delay(q.iops)
    requires v.a.lbaStart == LimitsOf(q, nsze).lbaStart && FillsByCount(v) && KeepsPace(v) && NothingLost(v)
    requires outcome == Returned(0) && v.QuietTurns(turns) ==> |v.ios| == v.Quota()
    ensures AlignsNest(q) ==> AlignOk(v.a.w)
    ensures KeepsRate(v, q.iops)
    ensures outcome == Returned(0) && v.QuietTurns(turns) && AsksOnePass(q, ioSize) && NoSkips(v.draws) ==>
      FillsNamespace(v, q, nsze, ioSize)
  {
    if AlignsNest(q) {
      NestedAlignsOk(v.a.w, q, nsze);
    }
    RateKept(v, q.iops);
    if outcome == Returned(0) && v.QuietTurns(turns) && AsksOnePass(q, ioSize) && NoSkips(v.draws) {
      hide Ready, Realizes, FillsByCount, OnePass;
      CountAsked(q, nsze, ioSize);
      PassKept(v, q, nsze, ioSize);
    }
  }

  lemma CountAsked(q: Job, nsze: nat, ioSize: nat)
    requires Accepted(q) && AsksOnePass(q, ioSize)
    ensures LimitsOf(q, nsze).ioCount == q.limits.ioCount >= 1
  {
    CeilDivBounds(q.limits.regionEnd - q.limits.regionStart, ioSize);
  }
}
