/** Lookup tables from which a uniform random index draws weighted values. */
module WeightedTables {
  import opened Arithmetic
  import opened Counting
  import opened LbaGenerator

  /** `weights[0]` times 0, `weights[1]` times 1, and so on. */
  function Expand(weights: seq<nat>): (r: seq<nat>)
    ensures |r| == Sum(weights)
  {
    if weights == [] then []
    else
      var n := |weights| - 1;
      Expand(weights[..n]) + seq(weights[n], _ => n)
  }

  /** Each value occurs exactly as often as its weight says. */
  lemma {:induction false} ExpandWeights(weights: seq<nat>, v: nat)
    ensures Count(Expand(weights), v) == if v < |weights| then weights[v] else 0
  {
    if weights != [] {
      var n: nat := |weights| - 1;
      ExpandWeights(weights[..n], v);
      var last: seq<nat> := seq(weights[n], _ => n);
      CountConcat(Expand(weights[..n]), last, v);
      CountRepeat(last, n, v);
    }
  }

  lemma {:induction false} ExpandInRange(weights: seq<nat>)
    ensures forall k :: 0 <= k < |Expand(weights)| ==> Expand(weights)[k] < |weights|
  {
    if weights != [] {
      ExpandInRange(weights[..|weights| - 1]);
    }
  }

  /** Fills a table in place: the size table and the opcode table of a worker. */
  method FillTable(weights: seq<nat>, table: array<nat>) returns (index: nat)
    requires Sum(weights) <= table.Length
    modifies table
    ensures index == Sum(weights) && table[..index] == Expand(weights)
  {
    index := 0;
    for i := 0 to |weights|
      invariant index == Sum(weights[..i]) <= table.Length
      invariant table[..index] == Expand(weights[..i])
    {
      assert weights[..i + 1][..i] == weights[..i];
      SumPrefix(weights, i + 1);
      ghost var first := index;
      for j := 0 to weights[i]
        invariant index == first + j <= table.Length
        invariant table[..first] == Expand(weights[..i])
        invariant forall k :: first <= k < index ==> table[k] == i
      {
        table[index] := i;
        index := index + 1;
      }
      assert table[..index] == table[..first] + seq(weights[i], _ => i);
    }
    assert weights[..|weights|] == weights;
  }

  // ---------- sections ----------

  const SECTIONS: nat := 100

  /** Section `i` of a namespace of `lbaMax` LBAs; the last one extends to the end of the region. */
  function SectionOf(lbaMax: nat, regionEnd: nat, i: nat): Section {
    Section(lbaMax / SECTIONS * i, if i == SECTIONS - 1 then regionEnd else lbaMax / SECTIONS * i + lbaMax / SECTIONS)
  }

  method DistributionInit(lbaMax: nat, regionEnd: nat, distribution: seq<nat>, table: array<Section>) returns (index: nat)
    requires |distribution| == SECTIONS && Sum(distribution) <= table.Length
    modifies table
    ensures index == Sum(distribution)
    ensures forall k :: 0 <= k < index ==> table[k] == SectionOf(lbaMax, regionEnd, Expand(distribution)[k])
  {
    index := 0;
    var lbaSection := lbaMax / SECTIONS;
    for i := 0 to SECTIONS
      invariant index == Sum(distribution[..i]) <= table.Length
      invariant forall k :: 0 <= k < index ==> table[k] == SectionOf(lbaMax, regionEnd, Expand(distribution[..i])[k])
    {
      assert distribution[..i + 1][..i] == distribution[..i];
      SumPrefix(distribution, i + 1);
      var sectionStart := lbaSection * i;
      var sectionEnd := sectionStart + lbaSection;
      if i == SECTIONS - 1 {
        sectionEnd := regionEnd;
      }
      ghost var first := index;
      for j := 0 to distribution[i]
        invariant index == first + j <= table.Length
        invariant forall k :: 0 <= k < first ==> table[k] == SectionOf(lbaMax, regionEnd, Expand(distribution[..i])[k])
        invariant forall k :: first <= k < index ==> table[k] == Section(sectionStart, sectionEnd)
      {
        table[index] := Section(sectionStart, sectionEnd);
        index := index + 1;
      }
      assert Expand(distribution[..i + 1]) == Expand(distribution[..i]) + seq(distribution[i], _ => i);
    }
    assert distribution[..SECTIONS] == distribution;
  }

  predicate InSection(s: Section, x: nat) {
    s.lbaStart <= x < s.lbaEnd
  }

  /** The sections follow one another from LBA 0 to the end of the region. */
  ghost predicate Tiles(lbaMax: nat, regionEnd: nat) {
    && SectionOf(lbaMax, regionEnd, 0).lbaStart == 0
    && SectionOf(lbaMax, regionEnd, SECTIONS - 1).lbaEnd == regionEnd
    && (forall i :: 0 <= i < SECTIONS ==>
          SectionOf(lbaMax, regionEnd, i).lbaStart <= SectionOf(lbaMax, regionEnd, i).lbaEnd)
    && (forall i :: 0 <= i < SECTIONS - 1 ==>
          SectionOf(lbaMax, regionEnd, i).lbaEnd == SectionOf(lbaMax, regionEnd, i + 1).lbaStart)
  }

  /** They tile the region exactly when it reaches the start of the last section; the others are equal. */
  lemma SectionsTile(lbaMax: nat, regionEnd: nat)
    ensures Tiles(lbaMax, regionEnd) <==> 99 * (lbaMax / SECTIONS) <= regionEnd
    ensures forall i :: 0 <= i < SECTIONS - 1 ==>
      SectionOf(lbaMax, regionEnd, i).lbaEnd - SectionOf(lbaMax, regionEnd, i).lbaStart == lbaMax / 100
  {
    var s := lbaMax / SECTIONS;
    forall i | 0 <= i < SECTIONS - 1
      ensures s * (i + 1) == s * i + s && 0 <= s * i
    {
    }
  }

  /** When they tile, every LBA of the region lies in exactly one section. */
  lemma OneSectionEach(lbaMax: nat, regionEnd: nat, x: nat)
    requires 99 * (lbaMax / SECTIONS) <= regionEnd && x < regionEnd
    ensures exists i :: 0 <= i < SECTIONS && InSection(SectionOf(lbaMax, regionEnd, i), x)
    ensures forall i, j :: 0 <= i < j < SECTIONS ==>
      !(InSection(SectionOf(lbaMax, regionEnd, i), x) && InSection(SectionOf(lbaMax, regionEnd, j), x))
  {
    var s := lbaMax / SECTIONS;
    var q := if s == 0 then 99 else if x / s < 99 then x / s else 99;
    SectionHolds(s, x, q);
    assert InSection(SectionOf(lbaMax, regionEnd, q), x);
    forall i, j | 0 <= i < j < SECTIONS
      ensures !(InSection(SectionOf(lbaMax, regionEnd, i), x) && InSection(SectionOf(lbaMax, regionEnd, j), x))
    {
      SectionsApart(s, i, j);
    }
  }

  /** Over a whole namespace every section is one the LBA generator accepts. */
  lemma SectionsUsable(nsze: nat, i: nat)
    requires nsze >= 1 && i < SECTIONS
    ensures var s := SectionOf(nsze, nsze, i);
            s.lbaStart <= s.lbaEnd <= nsze && s.lbaStart < nsze
  {
    var s := nsze / SECTIONS;
    Distribute(SECTIONS - 1, i, s);
    if i < SECTIONS - 1 {
      SectionsApart(s, i, SECTIONS - 1);
    }
  }

  lemma SectionsApart(s: nat, i: nat, j: nat)
    requires i < j
    ensures s * i + s <= s * j
  {
    Distribute(j, i, s);
    AtLeast(j - i, s);
  }

  lemma SectionHolds(s: nat, x: nat, q: nat)
    requires q == if s == 0 then 99 else if x / s < 99 then x / s else 99
    ensures s * q <= x && (q < 99 ==> x < s * q + s)
  {
    if s > 0 {
      assert x == s * (x / s) + x % s;
      if x / s >= 99 {
        Distribute(x / s, 99, s);
      }
    }
  }
}
