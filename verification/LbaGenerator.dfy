/** How a worker picks the LBA range of its next command. Every `random()` result and the number of
    uncorrectable LBAs skipped are inputs. */
module LbaGenerator {
  import opened Commands
  import opened Arithmetic

  function AlignUp(n: nat, a: nat): (r: nat)
    requires a >= 1
    ensures n <= r < n + a
  {
    if n % a != 0 then n + a - n % a else n
  }

  function AlignDown(n: nat, a: nat): (r: nat)
    requires a >= 1
    ensures r <= n < r + a
  {
    n - n % a
  }

  /** A section of the distribution table; a section may be empty. */
  datatype Section = Section(lbaStart: nat, lbaEnd: nat)

  /** The workload, after the worker has revised its arguments. */
  datatype Workload = Workload(
    regionStart: nat,
    regionEnd: nat,
    lbaRandom: nat,              // percentage of random commands
    stepValid: bool,
    step: int,                   // 16-bit signed
    sizes: seq<nat>,             // LBA counts, picked through sizeTable
    aligns: seq<nat>,
    sizeTable: seq<nat>,
    ops: seq<nat>,               // opcodes, picked through opTable
    opTable: seq<nat>,
    sections: seq<Section>)      // empty: no distribution

  /** The random numbers one command consumes, and the uncorrectable LBAs it skips. */
  datatype Draw = Draw(op: nat, size: nat, percent: nat, section: nat, lba: nat, skip: nat)

  datatype Io = Io(lba: nat, count: nat, opcode: nat)

  predicate Ready(w: Workload) {
    && w.regionStart < w.regionEnd < LBA_LIMIT
    && -0x8000 <= w.step < 0x8000
    && |w.sizeTable| > 0 && |w.opTable| > 0 && |w.sizes| == |w.aligns|
    && (forall k :: 0 <= k < |w.sizeTable| ==> w.sizeTable[k] < |w.sizes|)
    && (forall k :: 0 <= k < |w.opTable| ==> w.opTable[k] < |w.ops|)
    && (forall k :: 0 <= k < |w.sizes| ==> 1 <= w.sizes[k] < TWO16)
    && (forall k :: 0 <= k < |w.aligns| ==> 1 <= w.aligns[k] < TWO16)
    && (forall k :: 0 <= k < |w.sections| ==>
          w.regionStart <= w.sections[k].lbaStart <= w.sections[k].lbaEnd <= w.regionEnd
          && w.sections[k].lbaStart < w.regionEnd)
  }

  function SizeIndex(w: Workload, d: Draw): (k: nat)
    requires Ready(w)
    ensures k < |w.sizes|
  {
    w.sizeTable[d.size % |w.sizeTable|]
  }

  function OpIndex(w: Workload, d: Draw): (k: nat)
    requires Ready(w)
    ensures k < |w.ops|
  {
    w.opTable[d.op % |w.opTable|]
  }

  predicate IsRandom(w: Workload, d: Draw) {
    d.percent % 100 < w.lbaRandom
  }

  /** The section drawn first, or the whole region. */
  function SectionDrawn(w: Workload, d: Draw): (s: Section)
    requires Ready(w)
    ensures w.regionStart <= s.lbaStart <= s.lbaEnd <= w.regionEnd && s.lbaStart < w.regionEnd
  {
    if |w.sections| > 0 then w.sections[d.section % |w.sections|] else Section(w.regionStart, w.regionEnd)
  }

  function DrawIn(s: Section, r: nat): (lba: nat)
    requires s.lbaStart <= s.lbaEnd
    ensures s.lbaStart <= lba && (lba < s.lbaEnd || lba == s.lbaStart == s.lbaEnd)
  {
    if s.lbaEnd == s.lbaStart then s.lbaStart else r % (s.lbaEnd - s.lbaStart) + s.lbaStart
  }

  /** A random LBA of the section drawn. */
  function RandomLba(w: Workload, d: Draw): (lba: nat)
    requires Ready(w)
    ensures w.regionStart <= lba < w.regionEnd
  {
    DrawIn(SectionDrawn(w, d), d.lba)
  }

  /** Every LBA of the section can come up. */
  lemma RandomReaches(w: Workload, d: Draw, x: nat)
    requires Ready(w) && SectionDrawn(w, d).lbaStart <= x < SectionDrawn(w, d).lbaEnd
    ensures exists r: nat :: RandomLba(w, d.(lba := r)) == x
  {
    var s := SectionDrawn(w, d);
    var r := x - s.lbaStart;
    hide DrawIn, Ready;
    assert SectionDrawn(w, d.(lba := r)) == s && DrawIn(s, r) == x by {
      DrawSmall(s, r);
    }
    assert RandomLba(w, d.(lba := r)) == x;
  }

  lemma DrawSmall(s: Section, r: nat)
    requires s.lbaStart + r < s.lbaEnd
    ensures DrawIn(s, r) == s.lbaStart + r
  {
    SmallMod(r, s.lbaEnd - s.lbaStart);
  }

  /** The sequential position, wrapped to the start of the region. */
  function Position(w: Workload, seqLba: nat): nat {
    if seqLba >= w.regionEnd then w.regionStart else seqLba
  }

  /** The LBA before alignment. */
  function Wanted(w: Workload, seqLba: nat, d: Draw): nat
    requires Ready(w)
  {
    if IsRandom(w, d) then RandomLba(w, d) else Position(w, seqLba) + d.skip
  }

  /** Alignment, pulled back below the end of the region. */
  function Placed(w: Workload, lba: nat, a: nat): (r: nat)
    requires a >= 1
    ensures r % a == 0
  {
    var up := AlignUp(lba, a);
    Multiple(lba, a);
    if up >= w.regionEnd && up > 0 then Multiple(up - 1, a); AlignDown(up - 1, a) else up
  }

  lemma Multiple(n: nat, a: nat)
    requires a >= 1
    ensures AlignUp(n, a) % a == 0 && AlignDown(n, a) % a == 0
  {
    var q, r := n / a, n % a;
    assert n == q * a + r;
    ModMultiple(q, a);
    ModMultiple(q + 1, a);
    assert (q + 1) * a == q * a + a;
  }

  function StartOf(w: Workload, seqLba: nat, d: Draw): nat
    requires Ready(w)
  {
    Placed(w, Wanted(w, seqLba, d), w.aligns[SizeIndex(w, d)])
  }

  /** The command, its tail cut at the end of the region. */
  function IoOf(w: Workload, seqLba: nat, d: Draw): Io
    requires Ready(w)
  {
    var lba := StartOf(w, seqLba, d);
    var room := (w.regionEnd - lba) % TWO64;
    var size := w.sizes[SizeIndex(w, d)];
    Io(lba, if size < room then size else room, w.ops[OpIndex(w, d)])
  }

  /** The sequential position after the command, in 64 bits. */
  function NextSeq(w: Workload, seqLba: nat, d: Draw): nat
    requires Ready(w)
  {
    if IsRandom(w, d) then seqLba
    else (StartOf(w, seqLba, d) + if w.stepValid then w.step else w.sizes[SizeIndex(w, d)]) % TWO64
  }

  class Generator {
    const w: Workload
    var sequentialLba: nat

    constructor (w: Workload, lbaStart: nat)
      ensures this.w == w && sequentialLba == lbaStart
    {
      this.w, sequentialLba := w, lbaStart;
    }

    method SendOneLba(d: Draw, align: nat, count: nat) returns (lba: nat)
      requires Ready(w) && align == w.aligns[SizeIndex(w, d)] && count == w.sizes[SizeIndex(w, d)]
      modifies this
      ensures lba == StartOf(w, old(sequentialLba), d)
      ensures sequentialLba == NextSeq(w, old(sequentialLba), d)
    {
      var isRandom := IsRandom(w, d);
      if !isRandom {
        lba := sequentialLba;
        if lba >= w.regionEnd {
          lba := w.regionStart;
        }
        lba := lba + d.skip;
      } else {
        lba := RandomLba(w, d);
      }
      lba := AlignUp(lba, align);
      if lba >= w.regionEnd {
        lba := AlignDown(lba - 1, align);
      }
      if !isRandom {
        sequentialLba := (lba + if w.stepValid then w.step else count) % TWO64;
      }
    }

    method SendOne(d: Draw) returns (io: Io)
      requires Ready(w)
      modifies this
      ensures io == IoOf(w, old(sequentialLba), d)
      ensures sequentialLba == NextSeq(w, old(sequentialLba), d)
    {
      hide StartOf, NextSeq, SizeIndex, OpIndex;
      var opIndex := OpIndex(w, d);
      var sizeIndex := SizeIndex(w, d);
      var count := w.sizes[sizeIndex];
      var lba := SendOneLba(d, w.aligns[sizeIndex], count);
      var room := (w.regionEnd - lba) % TWO64;
      io := Io(lba, if count < room then count else room, w.ops[opIndex]);
    }
  }

  // ---------- safety of one command ----------

  predicate InRegion(w: Workload, io: Io, align: nat)
    requires align >= 1
  {
    && w.regionStart <= io.lba && io.lba + io.count <= w.regionEnd && 1 <= io.count
    && io.lba % align == 0
  }

  /** The assertion after the pull-back holds exactly for LBAs up to the aligned end of the region. */
  lemma PlacedBelowEnd(w: Workload, lba: nat, a: nat)
    requires a >= 1 && w.regionEnd > 0
    ensures Placed(w, lba, a) < w.regionEnd <==> lba <= AlignUp(w.regionEnd, a)
  {
    var up, last := AlignUp(lba, a), AlignUp(w.regionEnd, a);
    Multiple(lba, a);
    Multiple(w.regionEnd, a);
    if up >= w.regionEnd {
      Multiple(up - 1, a);
      var down := AlignDown(up - 1, a);
      assert down == up - a by {
        MultipleGap(down, up, a);
      }
      if lba <= last {
        if last < up {
          MultipleGap(last, up, a);
        }
      } else {
        MultipleGap(last, up, a);
      }
    }
  }

  lemma LeastMultiple(n: nat, m: nat, a: nat)
    requires a >= 1 && n <= m && m % a == 0
    ensures AlignUp(n, a) <= m
  {
    Multiple(n, a);
    if m < AlignUp(n, a) {
      MultipleGap(m, AlignUp(n, a), a);
    }
  }

  lemma AlignUpMonotone(n: nat, m: nat, a: nat)
    requires a >= 1 && n <= m
    ensures AlignUp(n, a) <= AlignUp(m, a)
  {
    Multiple(m, a);
    LeastMultiple(n, AlignUp(m, a), a);
  }

  /** If the region holds a multiple of the alignment, the pull-back stops inside. */
  lemma PlacedAboveStart(w: Workload, lba: nat, a: nat)
    requires a >= 1 && AlignUp(w.regionStart, a) < w.regionEnd && w.regionStart <= AlignUp(lba, a)
    ensures w.regionStart <= Placed(w, lba, a)
  {
    var up := AlignUp(lba, a);
    Multiple(lba, a);
    if up >= w.regionEnd {
      Multiple(up - 1, a);
      Multiple(w.regionStart, a);
      MultipleGap(AlignDown(up - 1, a), up, a);
      MultipleGap(AlignUp(w.regionStart, a), up, a);
    }
  }

  // ---------- the conditions ----------

  /** The alignment that goes with an entry of the size table. */
  function AlignAt(w: Workload, k: nat): (a: nat)
    requires Ready(w) && k < |w.sizeTable|
    ensures a >= 1
  {
    w.aligns[w.sizeTable[k]]
  }

  /** Every alignment in use has a multiple in the region. */
  predicate AlignOk(w: Workload)
    requires Ready(w)
  {
    forall k :: 0 <= k < |w.sizeTable| ==> AlignUp(w.regionStart, AlignAt(w, k)) < w.regionEnd
  }

  /** From the first LBA aligned to `a` that the backward step does not take below zero, a command
      aligned to `b` follows inside the region; or there is no such LBA. */
  predicate StepBackSafe(w: Workload, a: nat, b: nat)
    requires a >= 1 && b >= 1 && w.step < 0
  {
    var back := -w.step;
    var first := AlignUp(if w.regionStart < back then back else w.regionStart, a);
    first >= w.regionEnd || AlignUp(first - back, b) >= w.regionStart
  }

  /** No sequential command steps back out of the region. */
  predicate StepSafe(w: Workload)
    requires Ready(w)
  {
    w.lbaRandom >= 100 || !w.stepValid || w.step >= 0 ||
    forall k, l :: 0 <= k < |w.sizeTable| && 0 <= l < |w.sizeTable| ==>
      StepBackSafe(w, AlignAt(w, k), AlignAt(w, l))
  }

  /** The skipped LBAs do not lead past the aligned end of the region. */
  predicate SkipOk(w: Workload, seqLba: nat, d: Draw)
    requires Ready(w)
  {
    !IsRandom(w, d) ==> Wanted(w, seqLba, d) <= AlignUp(w.regionEnd, w.aligns[SizeIndex(w, d)])
  }

  /** A sequential position from which no alignment leads before the region. */
  predicate SafePosition(w: Workload, seqLba: nat)
    requires Ready(w)
  {
    seqLba >= w.regionEnd || forall k :: 0 <= k < |w.sizeTable| ==> w.regionStart <= AlignUp(seqLba, AlignAt(w, k))
  }

  lemma DrawnAlign(w: Workload, d: Draw) returns (k: nat)
    requires Ready(w)
    ensures k < |w.sizeTable| && w.aligns[SizeIndex(w, d)] == AlignAt(w, k)
  {
    k := d.size % |w.sizeTable|;
  }

  lemma WantedInside(w: Workload, seqLba: nat, d: Draw)
    requires Ready(w) && SafePosition(w, seqLba)
    ensures w.regionStart <= AlignUp(Wanted(w, seqLba, d), w.aligns[SizeIndex(w, d)])
  {
    hide AlignUp, RandomLba, SizeIndex;
    var k := DrawnAlign(w, d);
    if !IsRandom(w, d) && seqLba < w.regionEnd {
      AlignUpMonotone(seqLba, Wanted(w, seqLba, d), AlignAt(w, k));
    }
  }

  lemma StartInside(w: Workload, seqLba: nat, d: Draw)
    requires Ready(w) && AlignOk(w) && SafePosition(w, seqLba) && SkipOk(w, seqLba, d)
    ensures w.regionStart <= StartOf(w, seqLba, d) < w.regionEnd
    ensures StartOf(w, seqLba, d) % w.aligns[SizeIndex(w, d)] == 0
  {
    hide AlignUp, RandomLba, SizeIndex, Placed;
    var k := DrawnAlign(w, d);
    var wanted := Wanted(w, seqLba, d);
    WantedInside(w, seqLba, d);
    if IsRandom(w, d) {
      AlignUpAtLeast(w.regionEnd, AlignAt(w, k));
    }
    PlacedBelowEnd(w, wanted, AlignAt(w, k));
    PlacedAboveStart(w, wanted, AlignAt(w, k));
  }

  lemma AlignUpAtLeast(n: nat, a: nat)
    requires a >= 1
    ensures n <= AlignUp(n, a)
  {
  }

  lemma OneInRegion(w: Workload, seqLba: nat, d: Draw)
    requires Ready(w) && AlignOk(w) && SafePosition(w, seqLba) && SkipOk(w, seqLba, d)
    ensures InRegion(w, IoOf(w, seqLba, d), w.aligns[SizeIndex(w, d)])
    ensures IoOf(w, seqLba, d).count <= w.sizes[SizeIndex(w, d)]
  {
    hide StartOf, SizeIndex, OpIndex, IsRandom;
    StartInside(w, seqLba, d);
    var lba := StartOf(w, seqLba, d);
    assert (w.regionEnd - lba) % TWO64 == w.regionEnd - lba;
  }

  /** The step from an LBA of the region leads to a safe position. */
  lemma StepStays(w: Workload, lba: nat, k: nat)
    requires Ready(w) && StepSafe(w) && w.lbaRandom < 100 && w.stepValid && k < |w.sizeTable|
    requires w.regionStart <= lba < w.regionEnd && lba % AlignAt(w, k) == 0
    ensures SafePosition(w, (lba + w.step) % TWO64)
  {
    hide AlignUp;
    if lba + w.step < 0 {
      assert (lba + w.step) % TWO64 == lba + w.step + TWO64;
    } else {
      var next := lba + w.step;
      assert next % TWO64 == next;
      forall l | 0 <= l < |w.sizeTable|
        ensures w.regionStart <= AlignUp(next, AlignAt(w, l))
      {
        if w.step >= 0 {
          AlignUpAtLeast(next, AlignAt(w, l));
        } else {
          StepBackStays(w, lba, AlignAt(w, k), AlignAt(w, l));
        }
      }
    }
  }

  lemma StepBackStays(w: Workload, lba: nat, a: nat, b: nat)
    requires a >= 1 && b >= 1 && w.step < 0 && StepBackSafe(w, a, b)
    requires w.regionStart <= lba < w.regionEnd && lba % a == 0 && 0 <= lba + w.step
    ensures w.regionStart <= AlignUp(lba + w.step, b)
  {
    hide AlignUp;
    var back := -w.step;
    var least := if w.regionStart < back then back else w.regionStart;
    LeastMultiple(least, lba, a);
    AlignUpAtLeast(least, a);
    AlignUpMonotone(AlignUp(least, a) - back, lba - back, b);
  }

  lemma SizeStays(w: Workload, lba: nat, size: nat)
    requires Ready(w) && w.regionStart <= lba < w.regionEnd && size < TWO16
    ensures SafePosition(w, (lba + size) % TWO64)
  {
    hide AlignUp;
    var next := lba + size;
    assert next % TWO64 == next;
    forall l | 0 <= l < |w.sizeTable|
      ensures w.regionStart <= AlignUp(next, AlignAt(w, l))
    {
      AlignUpAtLeast(next, AlignAt(w, l));
    }
  }

  lemma NextStays(w: Workload, seqLba: nat, d: Draw)
    requires Ready(w) && AlignOk(w) && StepSafe(w) && SafePosition(w, seqLba) && SkipOk(w, seqLba, d)
    ensures SafePosition(w, NextSeq(w, seqLba, d))
  {
    if !IsRandom(w, d) {
      hide StartOf, SizeIndex, AlignUp, SafePosition, StepSafe, AlignOk, SkipOk;
      StartInside(w, seqLba, d);
      var lba := StartOf(w, seqLba, d);
      var k := DrawnAlign(w, d);
      if w.stepValid {
        StepStays(w, lba, k);
      } else {
        SizeStays(w, lba, w.sizes[SizeIndex(w, d)]);
      }
    }
  }

  // ---------- runs ----------

  /** The sequential position after a run. */
  function SeqLba(w: Workload, start: nat, draws: seq<Draw>): nat
    requires Ready(w)
  {
    if draws == [] then start
    else NextSeq(w, SeqLba(w, start, draws[..|draws| - 1]), draws[|draws| - 1])
  }

  /** The commands of a run, in dispatch order. */
  function Ios(w: Workload, start: nat, draws: seq<Draw>): (r: seq<Io>)
    requires Ready(w)
    ensures |r| == |draws|
  {
    if draws == [] then []
    else
      var front := draws[..|draws| - 1];
      Ios(w, start, front) + [IoOf(w, SeqLba(w, start, front), draws[|draws| - 1])]
  }

  lemma RunSnoc(w: Workload, start: nat, draws: seq<Draw>, d: Draw)
    requires Ready(w)
    ensures SeqLba(w, start, draws + [d]) == NextSeq(w, SeqLba(w, start, draws), d)
    ensures Ios(w, start, draws + [d]) == Ios(w, start, draws) + [IoOf(w, SeqLba(w, start, draws), d)]
  {
    hide NextSeq, IoOf, Ready;
    assert (draws + [d])[..|draws|] == draws;
  }

  predicate SkipsOk(w: Workload, start: nat, draws: seq<Draw>)
    requires Ready(w)
  {
    forall k :: 0 <= k < |draws| ==> SkipOk(w, SeqLba(w, start, draws[..k]), draws[k])
  }

  /** LBA generation safety: whatever the draws, every command of every run starts on a multiple of
      its alignment and lies in the region, with 1 to its configured number of LBAs. */
  lemma {:induction false} AllInRegion(w: Workload, start: nat, draws: seq<Draw>, k: nat)
    requires Ready(w) && AlignOk(w) && StepSafe(w) && w.regionStart <= start && SkipsOk(w, start, draws)
    requires k < |draws|
    ensures InRegion(w, Ios(w, start, draws)[k], w.aligns[SizeIndex(w, draws[k])])
    ensures Ios(w, start, draws)[k].count <= w.sizes[SizeIndex(w, draws[k])]
  {
    hide AlignUp, StepSafe, AlignOk, SafePosition, SkipOk, NextSeq;
    IosAt(w, start, draws, k);
    SeqLbaSafe(w, start, draws[..k]) by {
      assert forall j :: 0 <= j < k ==> draws[..k][..j] == draws[..j];
    }
    OneInRegion(w, SeqLba(w, start, draws[..k]), draws[k]);
  }

  lemma {:induction false} IosAt(w: Workload, start: nat, draws: seq<Draw>, k: nat)
    requires Ready(w) && k < |draws|
    ensures Ios(w, start, draws)[k] == IoOf(w, SeqLba(w, start, draws[..k]), draws[k])
  {
    var front := draws[..|draws| - 1];
    if k < |front| {
      IosAt(w, start, front, k);
      assert front[..k] == draws[..k];
    }
  }

  lemma {:induction false} SeqLbaSafe(w: Workload, start: nat, draws: seq<Draw>)
    requires Ready(w) && AlignOk(w) && StepSafe(w) && w.regionStart <= start && SkipsOk(w, start, draws)
    ensures SafePosition(w, SeqLba(w, start, draws))
  {
    if draws != [] {
      hide AlignUp, StepSafe, AlignOk, SafePosition, SkipOk, NextSeq;
      var front := draws[..|draws| - 1];
      assert forall j :: 0 <= j < |front| ==> front[..j] == draws[..j] && front[j] == draws[j];
      SeqLbaSafe(w, start, front);
      NextStays(w, SeqLba(w, start, front), draws[|draws| - 1]);
    }
  }

  ghost predicate RunInRegion(w: Workload, start: nat, draws: seq<Draw>)
    requires Ready(w)
  {
    forall k :: 0 <= k < |draws| ==> InRegion(w, Ios(w, start, draws)[k], w.aligns[SizeIndex(w, draws[k])])
  }

  /** Every run stays in the region, whatever its start and its draws. */
  ghost predicate StaysInRegion(w: Workload)
    requires Ready(w)
  {
    forall start: nat, draws: seq<Draw> ::
      w.regionStart <= start && SkipsOk(w, start, draws) ==> RunInRegion(w, start, draws)
  }

  /** The conditions of `AllInRegion` are exact. */
  lemma StaysInRegionIff(w: Workload)
    requires Ready(w)
    ensures StaysInRegion(w) <==> AlignOk(w) && StepSafe(w)
  {
    hide AlignOk, StepSafe, Ready, RunInRegion, SkipsOk, StepBackSafe;
    if AlignOk(w) && StepSafe(w) {
      forall start: nat, draws: seq<Draw> | w.regionStart <= start && SkipsOk(w, start, draws)
        ensures RunInRegion(w, start, draws)
      {
        WholeRunInRegion(w, start, draws);
      }
    } else if !AlignOk(w) {
      var draws := NothingAligned(w);
    } else {
      var start, draws := StepUnsafe(w);
    }
  }

  lemma WholeRunInRegion(w: Workload, start: nat, draws: seq<Draw>)
    requires Ready(w) && AlignOk(w) && StepSafe(w) && w.regionStart <= start && SkipsOk(w, start, draws)
    ensures RunInRegion(w, start, draws)
  {
    forall k | 0 <= k < |draws|
      ensures InRegion(w, Ios(w, start, draws)[k], w.aligns[SizeIndex(w, draws[k])])
    {
      AllInRegion(w, start, draws, k);
    }
  }

  /** A draw of size entry `k` that is sequential whenever any is, with nothing to skip. */
  function PlainDraw(k: nat): Draw {
    Draw(0, k, 99, 0, 0, 0)
  }

  lemma PlainIndex(w: Workload, k: nat)
    requires Ready(w) && k < |w.sizeTable|
    ensures w.aligns[SizeIndex(w, PlainDraw(k))] == AlignAt(w, k)
    ensures IsRandom(w, PlainDraw(k)) <==> w.lbaRandom >= 100
  {
    SmallMod(k, |w.sizeTable|);
  }

  /** An alignment without a multiple in the region fails at the first command. */
  lemma NothingAligned(w: Workload) returns (draws: seq<Draw>)
    requires Ready(w) && !AlignOk(w)
    ensures SkipsOk(w, w.regionStart, draws) && !RunInRegion(w, w.regionStart, draws)
  {
    var k :| 0 <= k < |w.sizeTable| && AlignUp(w.regionStart, AlignAt(w, k)) >= w.regionEnd;
    var a := AlignAt(w, k);
    draws := [PlainDraw(k)];
    hide AlignUp, SizeIndex, RandomLba, IoOf;
    PlainIndex(w, k);
    AlignUpAtLeast(w.regionEnd, a);
    assert SkipOk(w, SeqLba(w, w.regionStart, draws[..0]), draws[0]);
    if RunInRegion(w, w.regionStart, draws) {
      var io := Ios(w, w.regionStart, draws)[0];
      assert InRegion(w, io, w.aligns[SizeIndex(w, draws[0])]);
      LeastMultiple(w.regionStart, io.lba, a);
    }
  }

  /** Any other step has a start inside the region and two sequential commands, the second of which
      begins before the region. */
  lemma StepUnsafe(w: Workload) returns (start: nat, draws: seq<Draw>)
    requires Ready(w) && !StepSafe(w)
    ensures w.regionStart <= start < w.regionEnd && |draws| == 2 && SkipsOk(w, start, draws)
    ensures Ios(w, start, draws)[1].lba < w.regionStart && !RunInRegion(w, start, draws)
  {
    hide StepBackSafe, RunInRegion, SkipsOk, Ios;
    var k, l :| 0 <= k < |w.sizeTable| && 0 <= l < |w.sizeTable| && !StepBackSafe(w, AlignAt(w, k), AlignAt(w, l));
    start := BackOut(w, AlignAt(w, k), AlignAt(w, l));
    draws := [PlainDraw(k), PlainDraw(l)];
    PlainStart(w, start, k);
    PlainStart(w, start + w.step, l);
    PlainPair(w, start, k, l);
  }

  /** The start from which the step back leaves the region. */
  lemma BackOut(w: Workload, a: nat, b: nat) returns (start: nat)
    requires a >= 1 && b >= 1 && w.step < 0 && !StepBackSafe(w, a, b)
    ensures w.regionStart <= start < w.regionEnd && 0 <= start + w.step
    ensures AlignUp(start, a) == start && AlignUp(start + w.step, b) < w.regionStart
  {
    var back := -w.step;
    var least := if w.regionStart < back then back else w.regionStart;
    start := AlignUp(least, a);
    AlignedStays(start, least, a);
  }

  lemma {:induction false} PlainPair(w: Workload, start: nat, k: nat, l: nat)
    requires Ready(w) && w.lbaRandom < 100 && w.stepValid && k < |w.sizeTable| && l < |w.sizeTable|
    requires start < w.regionEnd && 0 <= start + w.step && StartOf(w, start, PlainDraw(k)) == start
    requires StartOf(w, start + w.step, PlainDraw(l)) < w.regionStart
    requires SkipOk(w, start, PlainDraw(k)) && SkipOk(w, start + w.step, PlainDraw(l))
    ensures var draws := [PlainDraw(k), PlainDraw(l)];
      && SkipsOk(w, start, draws) && Ios(w, start, draws)[1].lba < w.regionStart && !RunInRegion(w, start, draws)
  {
    var draws := [PlainDraw(k), PlainDraw(l)];
    PlainNext(w, start, k);
    hide StartOf, NextSeq, SkipOk, SizeIndex, IoOf, Ios, SeqLba, InRegion, Ready, PlainDraw;
    TwoIos(w, start, draws[0], draws[1]);
    InsideStarts(w, Ios(w, start, draws)[1], w.aligns[SizeIndex(w, draws[1])]);
  }

  lemma PlainNext(w: Workload, start: nat, k: nat)
    requires Ready(w) && w.lbaRandom < 100 && w.stepValid && k < |w.sizeTable|
    requires start < w.regionEnd && 0 <= start + w.step && StartOf(w, start, PlainDraw(k)) == start
    ensures NextSeq(w, start, PlainDraw(k)) == start + w.step
  {
    hide StartOf;
    PlainIndex(w, k);
    assert (start + w.step) % TWO64 == start + w.step;
  }

  lemma InsideStarts(w: Workload, io: Io, a: nat)
    requires a >= 1
    ensures InRegion(w, io, a) ==> w.regionStart <= io.lba
  {
  }

  /** Where a sequential command starts that does not reach the end of the region. */
  lemma PlainStart(w: Workload, lba: nat, k: nat)
    requires Ready(w) && w.lbaRandom < 100 && k < |w.sizeTable|
    requires AlignUp(lba, AlignAt(w, k)) < w.regionEnd
    ensures StartOf(w, lba, PlainDraw(k)) == AlignUp(lba, AlignAt(w, k))
    ensures SkipOk(w, lba, PlainDraw(k)) && !IsRandom(w, PlainDraw(k))
    ensures w.aligns[SizeIndex(w, PlainDraw(k))] == AlignAt(w, k)
  {
    hide AlignUp, SizeIndex, RandomLba;
    PlainIndex(w, k);
    AlignUpAtLeast(lba, AlignAt(w, k));
    AlignUpAtLeast(w.regionEnd, AlignAt(w, k));
  }

  lemma AlignedStays(n: nat, m: nat, a: nat)
    requires a >= 1 && n == AlignUp(m, a)
    ensures AlignUp(n, a) == n
  {
    Multiple(m, a);
  }

  lemma TwoIos(w: Workload, start: nat, d: Draw, e: Draw)
    requires Ready(w)
    ensures SeqLba(w, start, [d, e][..0]) == start && SeqLba(w, start, [d, e][..1]) == NextSeq(w, start, d)
    ensures Ios(w, start, [d, e])[1].lba == StartOf(w, NextSeq(w, start, d), e)
  {
    hide StartOf, NextSeq, SizeIndex, OpIndex, Ready;
    var draws := [d, e];
    IosAt(w, start, draws, 1);
    assert draws[..1] == [d] && [d][..0] == [];
    assert SeqLba(w, start, [d]) == NextSeq(w, SeqLba(w, start, []), d);
  }

  // ---------- sequential and random commands ----------

  /** The draws of sequential commands. */
  function Sequential(w: Workload, draws: seq<Draw>): seq<Draw> {
    if draws == [] then []
    else
      var n := |draws| - 1;
      Sequential(w, draws[..n]) + if IsRandom(w, draws[n]) then [] else [draws[n]]
  }

  /** Random commands in between do not move the sequential position. */
  lemma {:induction false} RandomKeepsPlace(w: Workload, start: nat, draws: seq<Draw>)
    requires Ready(w)
    ensures SeqLba(w, start, draws) == SeqLba(w, start, Sequential(w, draws))
  {
    if draws != [] {
      var n := |draws| - 1;
      RandomKeepsPlace(w, start, draws[..n]);
      if IsRandom(w, draws[n]) {
        assert Sequential(w, draws) == Sequential(w, draws[..n]);
      } else {
        RunSnoc(w, start, Sequential(w, draws[..n]), draws[n]);
      }
    }
  }

  function Stride(start: nat, step: int, k: nat): int {
    start + k * step
  }

  lemma StrideNext(start: nat, step: int, k: nat)
    ensures Stride(start, step, 0) == start && Stride(start, step, k + 1) == Stride(start, step, k) + step
  {
  }

  /** Sequential and unaligned, with a step: inside the region each command is one step from the last. */
  lemma {:induction false} Strides(w: Workload, start: nat, draws: seq<Draw>)
    requires Ready(w) && w.lbaRandom == 0 && w.stepValid && w.aligns == [1]
    requires forall k :: 0 <= k < |draws| ==> draws[k].skip == 0
    requires forall k :: 0 <= k < |draws| ==> w.regionStart <= Stride(start, w.step, k) < w.regionEnd
    requires Stride(start, w.step, |draws|) >= 0
    ensures SeqLba(w, start, draws) == Stride(start, w.step, |draws|)
    ensures forall k :: 0 <= k < |draws| ==> Ios(w, start, draws)[k].lba == Stride(start, w.step, k)
  {
    StrideNext(start, w.step, if |draws| > 0 then |draws| - 1 else 0);
    hide Stride, NextSeq, IoOf, Ready;
    if draws != [] {
      var n := |draws| - 1;
      Strides(w, start, draws[..n]);
      StrideStep(w, Stride(start, w.step, n), draws[n]);
    }
  }

  lemma StrideStep(w: Workload, lba: nat, d: Draw)
    requires Ready(w) && w.lbaRandom == 0 && w.stepValid && w.aligns == [1] && d.skip == 0
    requires w.regionStart <= lba < w.regionEnd && 0 <= lba + w.step
    ensures IoOf(w, lba, d).lba == lba && NextSeq(w, lba, d) == lba + w.step
  {
    assert Placed(w, lba, 1) == lba;
    assert StartOf(w, lba, d) == lba;
    assert (lba + w.step) % TWO64 == lba + w.step;
  }
}
