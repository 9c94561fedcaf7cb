/** The counters a worker keeps about completed commands. */
module Statistics {
  import opened Commands
  import opened Clock
  import opened Counting

  const LATENCIES: nat := US_PER_S

  function Zeros(): (z: seq<nat>)
    ensures |z| == LATENCIES
  {
    seq(LATENCIES, _ => 0)
  }

  function Bucket(latency: nat): (b: nat)
    ensures b < LATENCIES
  {
    if US_PER_S - 1 < latency then US_PER_S - 1 else latency
  }

  ghost predicate Below(s: seq<nat>, n: nat) {
    forall k :: 0 <= k < |s| ==> s[k] < n
  }

  /** Counters that started at `start` after one increment at each of the given indexes. */
  ghost function Grown(start: seq<nat>, indexes: seq<nat>): (r: seq<nat>)
    ensures |r| == |start|
  {
    if indexes == [] then start
    else Bumped(Grown(start, indexes[..|indexes| - 1]), indexes[|indexes| - 1])
  }

  function Bumped(s: seq<nat>, i: nat): (r: seq<nat>)
    ensures |r| == |s|
  {
    if i < |s| then s[i := s[i] + 1] else s
  }

  lemma GrownSnoc(start: seq<nat>, indexes: seq<nat>, i: nat)
    ensures Grown(start, indexes + [i]) == Bumped(Grown(start, indexes), i)
  {
    assert (indexes + [i])[..|indexes|] == indexes;
  }

  /** Each counter grew by the occurrences of its index. */
  lemma {:induction false} GrownCounts(start: seq<nat>, indexes: seq<nat>, i: nat)
    requires i < |start|
    ensures Grown(start, indexes)[i] == start[i] + Count(indexes, i)
  {
    if indexes != [] {
      GrownCounts(start, indexes[..|indexes| - 1], i);
    }
  }

  /** All counters together grew by the number of increments. */
  lemma {:induction false} GrownSum(start: seq<nat>, indexes: seq<nat>)
    requires Below(indexes, |start|)
    ensures Sum(Grown(start, indexes)) == Sum(start) + |indexes|
  {
    if indexes != [] {
      var front := indexes[..|indexes| - 1];
      GrownSum(start, front);
      SumUpdate(Grown(start, front), indexes[|indexes| - 1]);
    }
  }

  /** A row of counters, incremented one at a time. */
  class Row {
    var values: seq<nat>
    ghost const start: seq<nat>
    /** The index of every increment so far. */
    ghost var indexes: seq<nat>

    ghost predicate Valid()
      reads this
    {
      Below(indexes, |start|) && values == Grown(start, indexes)
    }

    constructor (start: seq<nat>)
      ensures Valid() && values == start == this.start && indexes == []
    {
      values, this.start, indexes := start, start, [];
    }

    method Bump(i: nat)
      requires Valid() && i < |start|
      modifies this
      ensures Valid() && indexes == old(indexes) + [i]
    {
      GrownSnoc(start, indexes, i);
      values := values[i := values[i] + 1];
      indexes := indexes + [i];
    }
  }

  class Counters {
    var countRead: nat
    var countNonread: nat
    var latencyMax: nat
    var totalLatency: nat
    const ops: Row
    /** One counter per microsecond of latency, if latencies are collected. */
    const latencies: Row
    const collectLatency: bool
    const collectSeconds: bool
    var perSecond: seq<nat>
    var tillLastSec: nat
    var nextSec: Timeval
    var error: nat
    /** The opcode of every completion so far. */
    ghost var opcodes: seq<nat>

    ghost predicate ReadsValid()
      reads this`countRead, this`countNonread, this`opcodes
    {
      countRead == Count(opcodes, READ) && countRead + countNonread == |opcodes|
    }

    ghost predicate SecondsValid()
      reads this`perSecond, this`tillLastSec, this`opcodes
    {
      Sum(perSecond) == tillLastSec <= |opcodes|
    }

    ghost predicate RowsValid()
      reads this`opcodes, ops, latencies
    {
      && ops != latencies && ops.Valid() && latencies.Valid()
      && |ops.indexes| == |opcodes|
      && latencies.start == Zeros()
      && (collectLatency ==> |latencies.indexes| == |opcodes|)
    }

    ghost predicate Valid()
      reads this, ops, latencies
    {
      ReadsValid() && SecondsValid() && RowsValid()
    }

    constructor (weights: seq<nat>, collectLatency: bool, collectSeconds: bool, start: Timeval)
      ensures Valid() && opcodes == [] && ops.start == weights && fresh(ops) && fresh(latencies) && error == 0
      ensures this.collectSeconds == collectSeconds && this.collectLatency == collectLatency
    {
      countRead, countNonread, latencyMax, totalLatency, error := 0, 0, 0, 0, 0;
      ops := new Row(weights);
      latencies := new Row(Zeros());
      this.collectLatency, this.collectSeconds := collectLatency, collectSeconds;
      perSecond, tillLastSec := [], 0;
      nextSec := AddUseconds(start, US_PER_S);
      opcodes := [];
    }

    /** Read and non-read counts and the latency extremes. */
    method UpdateRets(opcode: nat, latency: nat)
      requires ReadsValid()
      modifies this`countRead, this`countNonread, this`latencyMax, this`totalLatency, this`opcodes
      ensures ReadsValid() && opcodes == old(opcodes) + [opcode]
      ensures totalLatency == old(totalLatency) + latency
      ensures latencyMax == if latency > old(latencyMax) then latency else old(latencyMax)
    {
      if latency > latencyMax {
        latencyMax := latency;
      }
      if opcode == READ {
        countRead := countRead + 1;
      } else {
        countNonread := countNonread + 1;
      }
      totalLatency := totalLatency + latency;
      CountSnoc(opcodes, opcode, READ);
      opcodes := opcodes + [opcode];
    }

    /** Operation counter and histogram of one more completion. */
    method CountCompletion(opIndex: nat, latency: nat)
      requires opcodes != [] && opIndex < |ops.start|
      requires ops != latencies && ops.Valid() && latencies.Valid() && latencies.start == Zeros()
      requires |ops.indexes| + 1 == |opcodes| && (collectLatency ==> |latencies.indexes| + 1 == |opcodes|)
      modifies ops, latencies
      ensures RowsValid() && ops.indexes == old(ops.indexes) + [opIndex]
      ensures collectLatency ==> latencies.indexes == old(latencies.indexes) + [Bucket(latency)]
    {
      ops.Bump(opIndex);
      if collectLatency {
        latencies.Bump(Bucket(latency));
      }
    }

    /** Statistics part of the completion callback. Latencies are unsigned 32-bit. */
    method Record(opcode: nat, opIndex: nat, latency: nat, now: Timeval, cplError: nat)
      requires Valid() && opIndex < |ops.start| && latency < TWO32
      modifies this, ops, latencies
      ensures Valid()
      ensures opcodes == old(opcodes) + [opcode] && ops.indexes == old(ops.indexes) + [opIndex]
      ensures collectLatency ==>
        latencies.indexes == old(latencies.indexes) + [if latency < 1_000_000 then latency else 999_999]
      ensures totalLatency == old(totalLatency) + latency
      ensures latencyMax == if latency > old(latencyMax) then latency else old(latencyMax)
      ensures error == if old(error) == 0 then cplError else old(error)
      ensures if collectSeconds && Later(now, old(nextSec))
              then tillLastSec == |opcodes| && perSecond == old(perSecond) + [|opcodes| - old(tillLastSec)]
                   && nextSec == AddUseconds(old(nextSec), US_PER_S)
              else tillLastSec == old(tillLastSec) && perSecond == old(perSecond) && nextSec == old(nextSec)
    {
      UpdateRets(opcode, latency);
      CountCompletion(opIndex, latency);
      if cplError != 0 && error == 0 {
        error := cplError;
      }
      if collectSeconds && Later(now, nextSec) {
        NextSecond();
      }
    }

    method NextSecond()
      requires ReadsValid() && SecondsValid()
      modifies this`nextSec, this`perSecond, this`tillLastSec
      ensures SecondsValid() && tillLastSec == |opcodes|
      ensures perSecond == old(perSecond) + [|opcodes| - old(tillLastSec)]
      ensures nextSec == AddUseconds(old(nextSec), US_PER_S)
    {
      var current := countRead + countNonread;
      nextSec := AddUseconds(nextSec, US_PER_S);
      perSecond := perSecond + [current - tillLastSec];
      tillLastSec := current;
      assert perSecond[..|perSecond| - 1] == old(perSecond);
    }
  }

  // ---------- conservation ----------

  /** Counter conservation: the operation counters grew by the number of completions in all, and so
      did the latency histogram. */
  lemma Conservation(c: Counters)
    requires c.Valid()
    ensures c.countRead + c.countNonread == |c.opcodes|
    ensures Sum(c.ops.values) == Sum(c.ops.start) + |c.opcodes|
    ensures c.collectLatency ==> Sum(c.latencies.values) == |c.opcodes|
    ensures Sum(c.perSecond) == c.tillLastSec <= |c.opcodes|
  {
    GrownSum(c.ops.start, c.ops.indexes);
    GrownSum(Zeros(), c.latencies.indexes);
    SumZero(LATENCIES);
  }

  /** The histogram says how many completions took each number of microseconds. */
  lemma HistogramCounts(c: Counters, us: nat)
    requires c.Valid() && us < LATENCIES
    ensures us < |c.latencies.values| && c.latencies.values[us] == Count(c.latencies.indexes, us)
  {
    GrownCounts(Zeros(), c.latencies.indexes, us);
  }

  /** Without replay a command's opcode is the one at its index. */
  ghost predicate FromTable(ops: seq<nat>, opcodes: seq<nat>, opIndexes: seq<nat>) {
    && |opcodes| == |opIndexes|
    && forall k :: 0 <= k < |opcodes| ==> opIndexes[k] < |ops| && opcodes[k] == ops[opIndexes[k]]
  }

  lemma {:induction false} CountByIndex(ops: seq<nat>, opcodes: seq<nat>, opIndexes: seq<nat>, i: nat)
    requires Distinct(ops) && FromTable(ops, opcodes, opIndexes) && i < |ops|
    ensures Count(opcodes, ops[i]) == Count(opIndexes, i)
  {
    if opcodes != [] {
      var n := |opcodes| - 1;
      CountByIndex(ops, opcodes[..n], opIndexes[..n], i);
    }
  }

  /** The reported read count is the growth of the counter of the read opcode. */
  lemma ReadsByIndex(c: Counters, table: seq<nat>, i: nat)
    requires c.Valid() && Distinct(table) && |table| == |c.ops.start| && i < |table| && table[i] == READ
    requires FromTable(table, c.opcodes, c.ops.indexes)
    ensures c.ops.values[i] == c.ops.start[i] + c.countRead
  {
    CountByIndex(table, c.opcodes, c.ops.indexes, i);
    GrownCounts(c.ops.start, c.ops.indexes, i);
  }

  /** The script replaces, opcode by opcode, its percentage by final counter minus percentage. */
  method Close(ops: seq<nat>, final: seq<nat>, percentage: map<nat, int>) returns (report: map<nat, int>)
    requires Distinct(ops) && |final| == |ops| && percentage.Keys == set k | 0 <= k < |ops| :: ops[k]
    ensures report.Keys == percentage.Keys
    ensures forall i :: 0 <= i < |ops| ==> report[ops[i]] == final[i] - percentage[ops[i]]
  {
    report := percentage;
    for i := 0 to |ops|
      invariant report.Keys == percentage.Keys
      invariant forall k :: 0 <= k < |ops| ==>
        report[ops[k]] == if k < i then final[k] - percentage[ops[k]] else percentage[ops[k]]
    {
      report := report[ops[i] := final[i] - report[ops[i]]];
    }
  }

  /** What the script reports for an opcode is the number of its completions. */
  lemma ReportIsCompletions(c: Counters, table: seq<nat>, percentage: map<nat, int>, report: map<nat, int>, i: nat)
    requires c.Valid() && Distinct(table) && |table| == |c.ops.start| && i < |table|
    requires FromTable(table, c.opcodes, c.ops.indexes)
    requires table[i] in percentage && percentage[table[i]] == c.ops.start[i]
    requires table[i] in report && report[table[i]] == c.ops.values[i] - percentage[table[i]]
    ensures report[table[i]] == Count(c.opcodes, table[i])
  {
    CountByIndex(table, c.opcodes, c.ops.indexes, i);
    GrownCounts(c.ops.start, c.ops.indexes, i);
  }
}
