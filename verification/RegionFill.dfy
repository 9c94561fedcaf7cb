/** Filling a region with sequential commands of one size. */
module RegionFill {
  import opened Commands
  import opened Arithmetic
  import opened LbaGenerator

  /** Pure sequential access with one size, no step, alignment 1 and nothing to skip. */
  predicate OnePass(w: Workload, size: nat, draws: seq<Draw>) {
    && size >= 1 && Ready(w) && w.lbaRandom == 0 && !w.stepValid && w.sizes == [size] && w.aligns == [1]
    && NoSkips(draws)
  }

  predicate NoSkips(draws: seq<Draw>) {
    forall k :: 0 <= k < |draws| ==> draws[k].skip == 0
  }

  /** The number of commands in one pass. */
  function PassLength(w: Workload, size: nat): nat
    requires size >= 1 && w.regionStart < w.regionEnd
  {
    CeilDiv(w.regionEnd - w.regionStart, size)
  }

  /** Where the `i`-th command of a pass starts, as numbers. */
  lemma PassBounds(w: Workload, size: nat, i: nat)
    requires size >= 1 && w.regionStart < w.regionEnd && i < PassLength(w, size)
    ensures w.regionStart + Times(i, size) < w.regionEnd
    ensures i + 1 == PassLength(w, size) <==> w.regionEnd <= w.regionStart + Times(i + 1, size)
  {
    var k := PassLength(w, size);
    CeilDivTimes(w.regionEnd - w.regionStart, size);
    TimesOrdered(i, k - 1, size);
    if i + 1 < k {
      TimesOrdered(i + 1, k - 1, size);
    }
  }

  lemma SequentialStep(w: Workload, size: nat, seqLba: nat, d: Draw)
    requires OnePass(w, size, [d]) && Position(w, seqLba) < w.regionEnd
    ensures IoOf(w, seqLba, d).lba == Position(w, seqLba)
    ensures IoOf(w, seqLba, d).count == if size < w.regionEnd - Position(w, seqLba) then size
                                        else w.regionEnd - Position(w, seqLba)
    ensures NextSeq(w, seqLba, d) == Position(w, seqLba) + size
  {
    assert [d][0] == d && w.sizes[0] == size && w.aligns[0] == 1;
    var lba := Position(w, seqLba);
    assert Placed(w, lba, 1) == lba;
    assert StartOf(w, seqLba, d) == lba;
    assert (w.regionEnd - lba) % TWO64 == w.regionEnd - lba;
    assert (lba + size) % TWO64 == lba + size;
  }

  lemma PassNotEmpty(w: Workload, size: nat)
    requires size >= 1 && w.regionStart < w.regionEnd
    ensures PassLength(w, size) >= 1
  {
    CeilDivTimes(w.regionEnd - w.regionStart, size);
  }

  lemma {:induction false} OnePassPosition(w: Workload, size: nat, draws: seq<Draw>)
    requires OnePass(w, size, draws) && PassLength(w, size) >= 1
    ensures Position(w, SeqLba(w, w.regionStart, draws))
         == w.regionStart + Times(Cycle(|draws|, PassLength(w, size)), size)
  {
    hide NextSeq, IoOf, PassLength;
    if draws != [] {
      var n := |draws| - 1;
      var front, d := draws[..n], draws[n];
      OnePassPosition(w, size, front);
      PassBounds(w, size, Cycle(n, PassLength(w, size)));
      SequentialStep(w, size, SeqLba(w, w.regionStart, front), d);
    }
  }

  predicate Hits(io: Io, x: nat) {
    io.lba <= x < io.lba + io.count
  }

  ghost predicate HitOnce(ios: seq<Io>, x: nat) {
    && (exists k :: 0 <= k < |ios| && Hits(ios[k], x))
    && (forall j, k :: 0 <= j < |ios| && 0 <= k < |ios| && Hits(ios[j], x) && Hits(ios[k], x) ==> j == k)
  }

  ghost predicate CoversOnce(w: Workload, ios: seq<Io>) {
    forall x :: w.regionStart <= x < w.regionEnd ==> HitOnce(ios, x)
  }

  /** The `k`-th command of the run. */
  lemma OnePassIo(w: Workload, size: nat, draws: seq<Draw>, k: nat)
    requires OnePass(w, size, draws) && k < |draws| && PassLength(w, size) >= 1
    ensures var io, lba := Ios(w, w.regionStart, draws)[k], w.regionStart + Times(Cycle(k, PassLength(w, size)), size);
      && lba < w.regionEnd && io.lba == lba
      && io.count == if size < w.regionEnd - lba then size else w.regionEnd - lba
  {
    assert OnePass(w, size, draws[..k]) && OnePass(w, size, [draws[k]]);
    IosAt(w, w.regionStart, draws, k);
    OnePassPosition(w, size, draws[..k]);
    PassBounds(w, size, Cycle(k, PassLength(w, size)));
    SequentialStep(w, size, SeqLba(w, w.regionStart, draws[..k]), draws[k]);
  }

  /** Commands of the one-pass workload, as a shape: each takes its turn, the last of a pass is cut. */
  ghost predicate PassShape(w: Workload, size: nat, ios: seq<Io>) {
    && size >= 1 && w.regionStart < w.regionEnd && PassLength(w, size) >= 1
    && forall k :: 0 <= k < |ios| ==> TakesTurn(w, size, ios[k], Cycle(k, PassLength(w, size)))
  }

  ghost predicate TakesTurn(w: Workload, size: nat, io: Io, i: nat) {
    && io.lba == w.regionStart + Times(i, size) && io.lba < w.regionEnd
    && io.count == if size < w.regionEnd - io.lba then size else w.regionEnd - io.lba
  }

  lemma OnePassShape(w: Workload, size: nat, draws: seq<Draw>)
    requires OnePass(w, size, draws)
    ensures PassShape(w, size, Ios(w, w.regionStart, draws))
  {
    PassNotEmpty(w, size);
    forall k | 0 <= k < |draws|
      ensures TakesTurn(w, size, Ios(w, w.regionStart, draws)[k], Cycle(k, PassLength(w, size)))
    {
      OnePassIo(w, size, draws, k);
    }
  }

  /** In the first pass, command `k` hits the stretch from `k` to `k + 1` sizes. */
  lemma FirstPassHits(w: Workload, size: nat, ios: seq<Io>, k: nat, y: nat)
    requires PassShape(w, size, ios) && k < |ios| && k < PassLength(w, size)
    requires w.regionStart + y < w.regionEnd
    ensures Hits(ios[k], w.regionStart + y) <==> Times(k, size) <= y < Times(k + 1, size)
  {
    assert TakesTurn(w, size, ios[k], Cycle(k, PassLength(w, size)));
  }

  ghost predicate Misses(ios: seq<Io>, x: nat) {
    forall k :: 0 <= k < |ios| ==> !Hits(ios[k], x)
  }

  /** A pass, whole or broken off, hits once what lies in its stretches and nothing beyond. */
  lemma PassHits(w: Workload, size: nat, ios: seq<Io>, y: nat)
    requires PassShape(w, size, ios) && |ios| <= PassLength(w, size)
    requires w.regionStart + y < w.regionEnd
    ensures if y < Times(|ios|, size) then HitOnce(ios, w.regionStart + y) else Misses(ios, w.regionStart + y)
  {
    if y < Times(|ios|, size) {
      PassHitsOnce(w, size, ios, y);
    } else {
      forall k | 0 <= k < |ios|
        ensures !Hits(ios[k], w.regionStart + y)
      {
        FirstPassHits(w, size, ios, k, y);
        TimesOrdered(k + 1, |ios|, size);
      }
    }
  }

  lemma PassHitsOnce(w: Workload, size: nat, ios: seq<Io>, y: nat)
    requires PassShape(w, size, ios) && |ios| <= PassLength(w, size)
    requires w.regionStart + y < w.regionEnd && y < Times(|ios|, size)
    ensures HitOnce(ios, w.regionStart + y)
  {
    var q := StretchHit(w, size, ios, y);
    FirstPassHits(w, size, ios, q, y);
    forall k | 0 <= k < |ios| && Hits(ios[k], w.regionStart + y)
      ensures k == q
    {
      FirstPassHits(w, size, ios, k, y);
      if k < q {
        TimesOrdered(k + 1, q, size);
      } else if q < k {
        TimesOrdered(q + 1, k, size);
      }
    }
  }

  lemma FullPassContiguous(w: Workload, size: nat, ios: seq<Io>, k: nat)
    requires PassShape(w, size, ios) && |ios| == PassLength(w, size) && k + 1 < |ios|
    ensures ios[k + 1].lba == ios[k].lba + ios[k].count
  {
    assert TakesTurn(w, size, ios[k], Cycle(k, |ios|)) && TakesTurn(w, size, ios[k + 1], Cycle(k + 1, |ios|));
    PassBounds(w, size, k);
  }

  lemma LastLbaMissed(w: Workload, size: nat, ios: seq<Io>)
    requires PassShape(w, size, ios) && |ios| < PassLength(w, size)
    ensures !CoversOnce(w, ios)
  {
    var last := PassLength(w, size) - 1;
    PassBounds(w, size, last);
    TimesOrdered(|ios|, last, size);
    PassHits(w, size, ios, Times(last, size));
    assert !HitOnce(ios, w.regionStart + Times(last, size));
  }

  lemma FirstLbaTwice(w: Workload, size: nat, ios: seq<Io>)
    requires PassShape(w, size, ios) && |ios| > PassLength(w, size)
    ensures !CoversOnce(w, ios)
  {
    var n := PassLength(w, size);
    assert TakesTurn(w, size, ios[0], Cycle(0, n)) && TakesTurn(w, size, ios[n], Cycle(n, n));
    assert Hits(ios[0], w.regionStart) && Hits(ios[n], w.regionStart);
    assert !HitOnce(ios, w.regionStart);
  }

  lemma ShapeFills(w: Workload, size: nat, ios: seq<Io>)
    requires PassShape(w, size, ios)
    ensures CoversOnce(w, ios) <==> |ios| == PassLength(w, size)
    ensures |ios| == PassLength(w, size) ==> Contiguous(ios)
  {
    if |ios| == PassLength(w, size) {
      CeilDivTimes(w.regionEnd - w.regionStart, size);
      forall x | w.regionStart <= x < w.regionEnd
        ensures HitOnce(ios, x)
      {
        PassHits(w, size, ios, x - w.regionStart);
      }
      forall k | 0 <= k < |ios| - 1
        ensures ios[k + 1].lba == ios[k].lba + ios[k].count
      {
        FullPassContiguous(w, size, ios, k);
      }
    } else if |ios| < PassLength(w, size) {
      LastLbaMissed(w, size, ios);
    } else {
      FirstLbaTwice(w, size, ios);
    }
  }

  /** Each command starts where the one before it ends. */
  ghost predicate Contiguous(ios: seq<Io>) {
    forall k :: 0 <= k < |ios| - 1 ==> ios[k + 1].lba == ios[k].lba + ios[k].count
  }

  /** One-pass fill: the commands cover every LBA of the region exactly once if and only if there are
      as many of them as a pass takes; they then follow one another without gap, the last one cut. */
  lemma OnePassFill(w: Workload, size: nat, draws: seq<Draw>)
    requires OnePass(w, size, draws)
    ensures CoversOnce(w, Ios(w, w.regionStart, draws)) <==> |draws| == PassLength(w, size)
    ensures |draws| == PassLength(w, size) ==> Contiguous(Ios(w, w.regionStart, draws))
  {
    OnePassShape(w, size, draws);
    ShapeFills(w, size, Ios(w, w.regionStart, draws));
  }

  // ---------- starting inside the region ----------

  /** The part of the region from `start` on. */
  function From(w: Workload, start: nat): Workload {
    w.(regionStart := start)
  }

  /** A start at the region's own stretches, or beyond the region, from where the worker wraps at once. */
  predicate StartFits(w: Workload, start: nat, size: nat)
    requires size >= 1 && w.regionStart <= start
  {
    start >= w.regionEnd || (start - w.regionStart) % size == 0
  }

  lemma {:induction false} LegPosition(w: Workload, size: nat, start: nat, draws: seq<Draw>)
    requires OnePass(w, size, draws) && w.regionStart <= start < w.regionEnd
    requires |draws| <= PassLength(From(w, start), size)
    ensures SeqLba(w, start, draws) == start + Times(|draws|, size)
  {
    hide NextSeq, IoOf, PassLength;
    if draws != [] {
      var n := |draws| - 1;
      LegPosition(w, size, start, draws[..n]);
      PassBounds(From(w, start), size, n);
      SequentialStep(w, size, SeqLba(w, start, draws[..n]), draws[n]);
    }
  }

  /** Up to the end of the region, the commands are a pass over the part from `start` on. */
  lemma {:induction false} LegShape(w: Workload, size: nat, start: nat, draws: seq<Draw>)
    requires OnePass(w, size, draws) && w.regionStart <= start < w.regionEnd
    requires |draws| <= PassLength(From(w, start), size)
    ensures PassShape(From(w, start), size, Ios(w, start, draws))
  {
    var leg := From(w, start);
    PassNotEmpty(leg, size);
    forall k | 0 <= k < |draws|
      ensures TakesTurn(leg, size, Ios(w, start, draws)[k], Cycle(k, PassLength(leg, size)))
    {
      hide PassLength;
      IosAt(w, start, draws, k);
      LegPosition(w, size, start, draws[..k]);
      PassBounds(leg, size, k);
      SequentialStep(w, size, SeqLba(w, start, draws[..k]), draws[k]);
    }
  }

  /** Only the wrapped position matters to a sequential run. */
  lemma {:induction false} SamePosition(w: Workload, size: nat, p: nat, q: nat, draws: seq<Draw>)
    requires OnePass(w, size, draws) && Position(w, p) == Position(w, q)
    ensures Ios(w, p, draws) == Ios(w, q, draws)
    ensures Position(w, SeqLba(w, p, draws)) == Position(w, SeqLba(w, q, draws))
  {
    if draws != [] {
      var n := |draws| - 1;
      SamePosition(w, size, p, q, draws[..n]);
      SameStep(w, SeqLba(w, p, draws[..n]), SeqLba(w, q, draws[..n]), draws[n]);
    }
  }

  lemma SameStep(w: Workload, p: nat, q: nat, d: Draw)
    requires Ready(w) && w.lbaRandom == 0 && Position(w, p) == Position(w, q)
    ensures IoOf(w, p, d) == IoOf(w, q, d) && NextSeq(w, p, d) == NextSeq(w, q, d)
  {
    hide Ready, Position, Placed;
    assert Wanted(w, p, d) == Wanted(w, q, d);
  }

  lemma {:induction false} RunConcat(w: Workload, start: nat, a: seq<Draw>, b: seq<Draw>)
    requires Ready(w)
    ensures Ios(w, start, a + b) == Ios(w, start, a) + Ios(w, SeqLba(w, start, a), b)
    ensures SeqLba(w, start, a + b) == SeqLba(w, SeqLba(w, start, a), b)
  {
    hide NextSeq, IoOf, Ready;
    if b == [] {
      assert a + b == a;
    } else {
      var n := |b| - 1;
      RunConcat(w, start, a, b[..n]);
      assert (a + b)[..|a + b| - 1] == a + b[..n];
    }
  }

  lemma LegEnds(w: Workload, size: nat, start: nat)
    requires size >= 1 && start < w.regionEnd
    ensures w.regionEnd <= start + Times(PassLength(From(w, start), size), size)
  {
    CeilDivTimes(w.regionEnd - start, size);
  }

  /** At the end of the region the run goes on as one from its start. */
  lemma {:induction false} TwoLegs(w: Workload, size: nat, start: nat, a: seq<Draw>, b: seq<Draw>)
    requires OnePass(w, size, a) && OnePass(w, size, b) && w.regionStart <= start < w.regionEnd
    requires |a| == PassLength(From(w, start), size)
    ensures Ios(w, start, a + b) == Ios(w, start, a) + Ios(w, w.regionStart, b)
  {
    hide Ios, SeqLba, PassLength, Ready;
    RunConcat(w, start, a, b);
    LegPosition(w, size, start, a);
    LegEnds(w, size, start);
    SamePosition(w, size, SeqLba(w, start, a), w.regionStart, b);
  }

  lemma HitConcat(a: seq<Io>, b: seq<Io>, x: nat)
    requires (HitOnce(a, x) && Misses(b, x)) || (Misses(a, x) && HitOnce(b, x))
    ensures HitOnce(a + b, x)
  {
    var c := a + b;
    if HitOnce(a, x) {
      var k :| 0 <= k < |a| && Hits(a[k], x);
      assert Hits(c[k], x);
    } else {
      var k :| 0 <= k < |b| && Hits(b[k], x);
      assert Hits(c[|a| + k], x);
    }
  }

  lemma LegMissesBefore(w: Workload, size: nat, start: nat, leg: seq<Io>, x: nat)
    requires w.regionStart <= start < w.regionEnd && PassShape(From(w, start), size, leg) && x < start
    ensures Misses(leg, x)
  {
    forall k | 0 <= k < |leg|
      ensures !Hits(leg[k], x)
    {
      assert TakesTurn(From(w, start), size, leg[k], Cycle(k, PassLength(From(w, start), size)));
    }
  }

  /** Two legs, the second of which stops where the first one began. */
  lemma LegsMeet(w: Workload, size: nat, start: nat, leg: seq<Io>, rest: seq<Io>)
    requires w.regionStart <= start < w.regionEnd
    requires PassShape(From(w, start), size, leg) && |leg| == PassLength(From(w, start), size)
    requires PassShape(w, size, rest) && Times(|rest|, size) == start - w.regionStart
    ensures CoversOnce(w, leg + rest)
  {
    CeilDivTimes(w.regionEnd - start, size);
    CeilDivTimes(w.regionEnd - w.regionStart, size);
    if PassLength(w, size) < |rest| {
      TimesOrdered(PassLength(w, size), |rest|, size);
    }
    forall x | w.regionStart <= x < w.regionEnd
      ensures HitOnce(leg + rest, x)
    {
      PassHits(w, size, rest, x - w.regionStart);
      if x >= start {
        PassHits(From(w, start), size, leg, x - start);
      } else {
        LegMissesBefore(w, size, start, leg, x);
      }
      HitConcat(leg, rest, x);
    }
  }

  /** The second leg stops short. */
  lemma LegsApart(w: Workload, size: nat, start: nat, leg: seq<Io>, rest: seq<Io>)
    requires w.regionStart <= start < w.regionEnd && PassShape(From(w, start), size, leg)
    requires PassShape(w, size, rest) && Times(|rest|, size) < start - w.regionStart
    ensures !CoversOnce(w, leg + rest)
  {
    var y := Times(|rest|, size);
    CeilDivTimes(w.regionEnd - w.regionStart, size);
    if PassLength(w, size) < |rest| {
      TimesOrdered(PassLength(w, size), |rest|, size);
    }
    PassHits(w, size, rest, y);
    LegMissesBefore(w, size, start, leg, w.regionStart + y);
    assert !HitOnce(leg + rest, w.regionStart + y);
  }

  /** The command of a pass, whole or repeated, whose stretch holds `y`. */
  lemma StretchHit(w: Workload, size: nat, ios: seq<Io>, y: nat) returns (q: nat)
    requires PassShape(w, size, ios) && w.regionStart + y < w.regionEnd && y < Times(|ios|, size)
    ensures q < |ios| && Hits(ios[q], w.regionStart + y)
  {
    q := Locate(y, size);
    CeilDivTimes(w.regionEnd - w.regionStart, size);
    if |ios| <= q {
      TimesOrdered(|ios|, q, size);
    }
    if PassLength(w, size) <= q {
      TimesOrdered(PassLength(w, size), q, size);
    }
    FirstPassHits(w, size, ios, q, y);
  }

  /** The second leg runs into the first. */
  lemma LegsOverlap(w: Workload, size: nat, start: nat, leg: seq<Io>, rest: seq<Io>)
    requires w.regionStart <= start < w.regionEnd
    requires PassShape(From(w, start), size, leg) && |leg| >= 1
    requires PassShape(w, size, rest) && Times(|rest|, size) > start - w.regionStart
    ensures !CoversOnce(w, leg + rest)
  {
    var q := StretchHit(w, size, rest, start - w.regionStart);
    assert TakesTurn(From(w, start), size, leg[0], Cycle(0, PassLength(From(w, start), size)));
    var ios := leg + rest;
    assert ios[|leg| + q] == rest[q];
    assert Hits(ios[0], start) && Hits(ios[|leg| + q], start);
    assert !HitOnce(ios, start);
  }

  /** The legs meet exactly when the commands are one pass and the start fits. */
  lemma LegsCount(w: Workload, size: nat, start: nat, k: nat)
    requires size >= 1 && w.regionStart <= start < w.regionEnd
    ensures (k == PassLength(w, size) && StartFits(w, start, size)) <==>
      var m := PassLength(From(w, start), size); k >= m && Times(k - m, size) == start - w.regionStart
  {
    var offset, m := start - w.regionStart, PassLength(From(w, start), size);
    CeilDivTimes(w.regionEnd - start, size);
    if offset % size == 0 {
      var j := offset / size;
      assert offset == j * size;
      TimesIsProduct(j, size);
      LegsAdd(w.regionEnd - start, size, j);
      if k >= m {
        TimesUnique(k - m, j, size);
      }
    } else if k >= m && Times(k - m, size) == offset {
      TimesIsProduct(k - m, size);
      ModMultiple(k - m, size);
    }
  }

  lemma LegsAdd(n: nat, size: nat, j: nat)
    requires size >= 1 && n >= 1
    ensures CeilDiv(n + Times(j, size), size) == CeilDiv(n, size) + j
  {
    hide CeilDiv;
    var m := CeilDiv(n, size);
    CeilDivBounds(n, size);
    TimesIsProduct(j, size);
    Distribute(m + j, j, size);
    Distribute(m + j - 1, j, size);
    CeilDivUnique(n + Times(j, size), size, m + j);
  }

  lemma {:induction false} FillFromInside(w: Workload, size: nat, start: nat, draws: seq<Draw>)
    requires OnePass(w, size, draws) && w.regionStart <= start < w.regionEnd
    ensures CoversOnce(w, Ios(w, start, draws)) <==>
      var m := PassLength(From(w, start), size); |draws| >= m && Times(|draws| - m, size) == start - w.regionStart
  {
    var m := PassLength(From(w, start), size);
    hide CoversOnce, PassShape, PassLength, Ios, Times;
    if |draws| < m {
      LegShape(w, size, start, draws);
      LastLbaMissed(From(w, start), size, Ios(w, start, draws));
      CoversPart(w, start, Ios(w, start, draws));
    } else {
      var a, b := draws[..m], draws[m..];
      assert draws == a + b;
      assert OnePass(w, size, a) && OnePass(w, size, b);
      FillInLegs(w, size, start, a, b);
    }
  }

  lemma {:induction false} FillInLegs(w: Workload, size: nat, start: nat, a: seq<Draw>, b: seq<Draw>)
    requires OnePass(w, size, a) && OnePass(w, size, b) && w.regionStart <= start < w.regionEnd
    requires |a| == PassLength(From(w, start), size)
    ensures Ready(w) && (CoversOnce(w, Ios(w, start, a + b)) <==> Times(|b|, size) == start - w.regionStart)
  {
    assert Ready(w);
    hide CoversOnce, PassShape, PassLength, Ios, OnePass, Ready;
    TwoLegs(w, size, start, a, b);
    LegShape(w, size, start, a);
    OnePassShape(w, size, b);
    CompareLegs(w, size, start, Ios(w, start, a), Ios(w, w.regionStart, b));
  }

  /** One-pass fill from any start: the commands cover every LBA of the region exactly once if and only if
      there are as many of them as a pass takes and the start is a whole number of sizes from that of the
      region, or lies beyond it. */
  lemma {:induction false} FillFrom(w: Workload, size: nat, start: nat, draws: seq<Draw>)
    requires OnePass(w, size, draws) && w.regionStart <= start
    ensures CoversOnce(w, Ios(w, start, draws)) <==> |draws| == PassLength(w, size) && StartFits(w, start, size)
  {
    hide CoversOnce, PassLength, Ios;
    if start >= w.regionEnd {
      SamePosition(w, size, start, w.regionStart, draws);
      OnePassFill(w, size, draws);
    } else {
      LegsCount(w, size, start, |draws|);
      FillFromInside(w, size, start, draws);
    }
  }

  lemma CoversPart(w: Workload, start: nat, ios: seq<Io>)
    requires w.regionStart <= start
    ensures CoversOnce(w, ios) ==> CoversOnce(From(w, start), ios)
  {
  }

  lemma CompareLegs(w: Workload, size: nat, start: nat, leg: seq<Io>, rest: seq<Io>)
    requires w.regionStart <= start < w.regionEnd
    requires PassShape(From(w, start), size, leg) && |leg| == PassLength(From(w, start), size)
    requires PassShape(w, size, rest)
    ensures CoversOnce(w, leg + rest) <==> Times(|rest|, size) == start - w.regionStart
  {
    hide CoversOnce;
    if Times(|rest|, size) == start - w.regionStart {
      LegsMeet(w, size, start, leg, rest);
    } else if Times(|rest|, size) < start - w.regionStart {
      LegsApart(w, size, start, leg, rest);
    } else {
      LegsOverlap(w, size, start, leg, rest);
    }
  }

  // ---------- the count of the script side ----------

  /** The command count that the script side computes before it clips the size to the region. */
  function ScriptCount(regionStart: nat, regionEnd: nat, ioSize: nat): nat
    requires ioSize >= 1 && regionStart < regionEnd
  {
    (regionEnd - regionStart + ioSize - 1) / ioSize
  }

  /** The size that the script side then passes on. */
  function ScriptSize(regionStart: nat, regionEnd: nat, ioSize: nat): (size: nat)
    requires ioSize >= 1 && regionStart < regionEnd
    ensures size >= 1
  {
    if ioSize < regionEnd - regionStart then ioSize else regionEnd - regionStart
  }

  /** The worker clips the region to the namespace, the count was computed before: it is one pass
      exactly when the last command that it counts still starts inside the namespace. */
  lemma ScriptCountIsOnePass(w: Workload, regionEnd: nat, nsze: nat, ioSize: nat)
    requires ioSize >= 1 && w.regionStart < w.regionEnd
    requires w.regionEnd == (if nsze < regionEnd then nsze else regionEnd)
    ensures var count := ScriptCount(w.regionStart, regionEnd, ioSize);
      && count >= 1
      && (count == PassLength(w, ScriptSize(w.regionStart, regionEnd, ioSize)) <==>
          w.regionStart + (count - 1) * ioSize < nsze)
  {
    var asked, got := regionEnd - w.regionStart, w.regionEnd - w.regionStart;
    var count := ScriptCount(w.regionStart, regionEnd, ioSize);
    CeilDivBounds(asked, ioSize);
    if ioSize < asked {
      CeilDivBounds(got, ioSize);
      if (count - 1) * ioSize < got {
        CeilDivUnique(got, ioSize, count);
      }
    } else {
      CeilDivUnique(asked, ioSize, 1);
      CeilDivUnique(got, asked, 1);
    }
  }

  /** The one-pass fill of the script side covers every LBA of the worker's region exactly once if and
      only if that condition holds and the start fits. */
  lemma {:induction false} ScriptFillsOnce(w: Workload, start: nat, regionEnd: nat, nsze: nat, ioSize: nat, draws: seq<Draw>)
    requires ioSize >= 1 && w.regionStart < w.regionEnd && w.regionStart <= start
    requires w.regionEnd == (if nsze < regionEnd then nsze else regionEnd)
    requires OnePass(w, ScriptSize(w.regionStart, regionEnd, ioSize), draws)
    requires |draws| == ScriptCount(w.regionStart, regionEnd, ioSize)
    ensures CoversOnce(w, Ios(w, start, draws)) <==>
      && w.regionStart + (|draws| - 1) * ioSize < nsze
      && StartFits(w, start, ScriptSize(w.regionStart, regionEnd, ioSize))
  {
    hide CoversOnce, Ios, PassLength, OnePass, ScriptCount, StartFits;
    ScriptCountIsOnePass(w, regionEnd, nsze, ioSize);
    FillFrom(w, ScriptSize(w.regionStart, regionEnd, ioSize), start, draws);
  }

  /** It fails when the region reaches too far beyond the namespace: LBAs 0 to 15 asked for, 8 there, in
      commands of 4. Four commands are sent where a pass takes two. */
  lemma ScriptOverfills() returns (w: Workload, draws: seq<Draw>)
    ensures w.regionStart == 0 && w.regionEnd == 8 && OnePass(w, ScriptSize(0, 16, 4), draws)
    ensures |draws| == ScriptCount(0, 16, 4) == 4 && PassLength(w, 4) == 2
    ensures !CoversOnce(w, Ios(w, 0, draws))
  {
    w := Workload(0, 8, 0, false, 0, [4], [1], [0], [READ], [0], []);
    draws := seq(4, _ => PlainDraw(0));
    ScriptFillsOnce(w, 0, 16, 8, 4, draws);
  }

  /** It also fails from a start between two stretches: LBAs 0 to 7 in commands of 4 from LBA 2. */
  lemma OffsetStartFails() returns (w: Workload, draws: seq<Draw>)
    ensures w.regionStart == 0 && w.regionEnd == 8 && OnePass(w, ScriptSize(0, 8, 4), draws)
    ensures |draws| == ScriptCount(0, 8, 4) == PassLength(w, 4) == 2
    ensures !CoversOnce(w, Ios(w, 2, draws))
  {
    w := Workload(0, 8, 0, false, 0, [4], [1], [0], [READ], [0], []);
    draws := seq(2, _ => PlainDraw(0));
    ScriptFillsOnce(w, 2, 8, 8, 4, draws);
  }
}
