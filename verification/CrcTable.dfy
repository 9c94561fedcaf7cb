/** The checksum table of a namespace: one 32-bit entry per LBA, holding a 31-bit checksum and, in
    bit 31, the lock of the command in flight. Functions on `seq<Entry>` are the specification; the
    methods of `Namespace` work in place on the table and are proved to compute those functions. */
module CrcTable {
  import opened Commands

  const LOCK: nat := 0x8000_0000
  const NOMAPPING: nat := 0
  const UNCORRECTABLE: nat := 0x7fff_ffff

  /** An unsigned 32-bit table entry. */
  type Entry = e: nat | e < TWO32
  type Table = seq<Entry>
  /** CRC-32C over the bytes of a block; every theorem holds for any such function. */
  type Crc = Block -> Entry

  /** `e & 0x80000000` */
  predicate Locked(e: Entry) {
    e >= LOCK
  }

  /** `e & 0x7fffffff` */
  function Checksum(e: Entry): Entry {
    e % LOCK
  }

  /** The checksum kept for a block avoids both reserved marks and leaves the lock bit clear. */
  function BlockChecksum(crc: Crc, b: Block): (c: Entry)
    ensures c != NOMAPPING && c != UNCORRECTABLE && !Locked(c)
  {
    var c := crc(b) / 2;
    if c == 0 then 1 else if c == 0x7fff_ffff then 0x7fff_fffe else c
  }

  /** CRCs that the checksum cannot tell apart: those that agree but for the lowest bit, and the lowest and
      the highest ones, which make room for the marks. */
  predicate SameCrc(a: Entry, b: Entry) {
    a / 2 == b / 2 || (a < 4 && b < 4) || (a >= 0xffff_fffc && b >= 0xffff_fffc)
  }

  lemma ChecksumsCollide(crc: Crc, a: Block, b: Block)
    ensures BlockChecksum(crc, a) == BlockChecksum(crc, b) <==> SameCrc(crc(a), crc(b))
  {
  }

  /** `e | 0x80000000` or `e & ~0x80000000` */
  function WithLock(e: Entry, lock: bool): (r: Entry)
    ensures Locked(r) == lock && Checksum(r) == Checksum(e)
    ensures Locked(e) == lock ==> r == e
  {
    if lock then (if Locked(e) then e else e + LOCK) else e % LOCK
  }

  /** Sets or clears the lock of every table entry in the ranges, leaving its checksum alone. */
  function SetLocks(t: Table, rs: seq<Range>, lock: bool): (r: Table)
    ensures |r| == |t|
  {
    seq(|t|, i requires 0 <= i < |t| => if InRanges(rs, i) then WithLock(t[i], lock) else t[i])
  }

  /** Overwrites every table entry in the ranges, lock bit included. */
  function SetEntries(t: Table, rs: seq<Range>, v: Entry): (r: Table)
    ensures |r| == |t|
  {
    seq(|t|, i requires 0 <= i < |t| => if InRanges(rs, i) then v else t[i])
  }

  lemma InRangesSnoc(rs: seq<Range>, k: nat)
    requires k < |rs|
    ensures forall i: nat :: InRanges(rs[..k + 1], i) <==> InRanges(rs[..k], i) || Within(rs[k], i)
    ensures forall i: nat :: InRanges([rs[k]], i) <==> Within(rs[k], i)
  {
    var one := [rs[k]];
    assert forall i: nat :: Within(rs[k], i) <==> Within(one[0], i);
    forall i: nat
      ensures InRanges(rs[..k + 1], i) <==> InRanges(rs[..k], i) || Within(rs[k], i)
    {
      if InRanges(rs[..k], i) {
        var m :| 0 <= m < k && Within(rs[..k][m], i);
        assert Within(rs[..k + 1][m], i);
      }
      if Within(rs[k], i) {
        assert Within(rs[..k + 1][k], i);
      }
      if InRanges(rs[..k + 1], i) {
        var m :| 0 <= m < k + 1 && Within(rs[..k + 1][m], i);
        assert m < k ==> Within(rs[..k][m], i);
      }
    }
  }

  ghost predicate AnyLocked(t: Table, rs: seq<Range>) {
    exists i :: 0 <= i < |t| && InRanges(rs, i) && Locked(t[i])
  }

  /** The lock test receives the length in 16 bits. */
  function Narrow(r: Range): Range {
    Range(r.slba, r.nlb % TWO16)
  }

  function NarrowAll(rs: seq<Range>): (n: seq<Range>)
    ensures |n| == |rs|
  {
    seq(|rs|, k requires 0 <= k < |rs| => Narrow(rs[k]))
  }

  /** Whether submission finds every LBA it tests free. */
  ghost predicate Grants(t: Table, c: Command)
    requires WellFormed(c)
  {
    !AnyLocked(t, NarrowAll(RangesOf(c)))
  }

  datatype Option<+T> = None | Some(value: T)

  /** The number of blocks the completion path handles: the zero-based count plus one, in 16 bits. */
  function Count16(c: Command): nat {
    Nlb(c) % TWO16
  }

  /** The entry that completing `c` writes for LBA `i`, if it writes one. */
  function NewEntry(crc: Crc, c: Command, i: nat): (r: Option<Entry>)
    requires WellFormed(c)
    ensures r.Some? ==> !Locked(r.value) && Checksum(r.value) == r.value && Covers(c, i)
  {
    if SingleRange(c.opc) && Slba(c) <= i < Slba(c) + Count16(c) then
      SingleCovers(c, i);
      if c.opc == WRITE then Some(BlockChecksum(crc, c.payload.blocks[i - Slba(c)]))
      else if c.opc == WRITE_UNCORRECTABLE then Some(UNCORRECTABLE)
      else if c.opc == WRITE_ZEROES then Some(NOMAPPING)
      else None
    else if c.opc == DSM && Covers(c, i) then Some(NOMAPPING)
    else None
  }

  function Update(crc: Crc, t: Table, c: Command): (r: Table)
    requires WellFormed(c)
    ensures |r| == |t|
  {
    seq(|t|, i requires 0 <= i < |t| => match NewEntry(crc, c, i) case Some(e) => e case None => t[i])
  }

  /** The first word of a block names its LBA, unless the block reads as unwritten. */
  predicate HeaderOk(b: Block, lba: nat) {
    b[0] == lba || b[0] == 0 || b[0] == ALL_ONES
  }

  /** The verdict on one block against its table entry: 0 passes, -1 uncorrectable, -3 mismatch. */
  function EntryVerdict(crc: Crc, e: Entry, b: Block): int {
    if Checksum(e) == NOMAPPING then 0
    else if Checksum(e) == UNCORRECTABLE then -1
    else if BlockChecksum(crc, b) != Checksum(e) then -3
    else 0
  }

  function BlockVerdict(crc: Crc, t: Table, b: Block, lba: nat): int {
    if lba < |t| then EntryVerdict(crc, t[lba], b) else 0
  }

  /** The verdict on a buffer read from `lba` on is that of its first failing block. */
  function DataVerdict(crc: Crc, t: Table, buf: seq<Block>, lba: nat, n: nat): (v: int)
    requires n <= |buf|
    ensures v == 0 <==> forall j :: 0 <= j < n ==> BlockVerdict(crc, t, buf[j], Wrap64(lba + j)) == 0
  {
    if n == 0 then 0
    else
      var v := DataVerdict(crc, t, buf, lba, n - 1);
      if v != 0 then v else BlockVerdict(crc, t, buf[n - 1], Wrap64(lba + (n - 1)))
  }

  ghost predicate HeadersOk(buf: seq<Block>, lba: nat, n: nat)
    requires n <= |buf|
  {
    forall j :: 0 <= j < n ==> HeaderOk(buf[j], lba + j)
  }

  /** The verdict on a completed read. A misplaced block fails whatever its data. */
  ghost function ReadVerdict(crc: Crc, t: Table, c: Command, buf: seq<Block>): int
    requires Count16(c) <= |buf|
  {
    var n := Count16(c);
    if HeadersOk(buf, Slba(c), n) then DataVerdict(crc, t, buf, Slba(c), n)
    else
      var v := DataVerdict(crc, t, buf, buf[0][0], n);
      if v == 0 then -2 else v
  }

  /** Status code type and status code of a completion. */
  datatype Status = Status(sct: nat, sc: nat)

  const SUCCESS := Status(0, 0)
  const DATA_ERROR := Status(7, 0x81)

  /** Write uncorrectable takes effect in the table whatever its status. */
  predicate TakesEffect(c: Command, st: Status) {
    st == SUCCESS || c.opc == WRITE_UNCORRECTABLE
  }

  /** The table after the completion handler. */
  function CompletedTable(crc: Crc, t: Table, c: Command, st: Status): (r: Table)
    requires WellFormed(c)
    ensures |r| == |t|
  {
    if TakesEffect(c, st) then Update(crc, t, c) else t
  }

  /** The status the completion handler reports to the caller. */
  ghost function ReportedStatus(crc: Crc, t: Table, verify: bool, c: Command, st: Status, buf: seq<Block>): Status
    requires c.opc == READ ==> Count16(c) <= |buf|
  {
    if st == SUCCESS && c.opc == READ && verify && ReadVerdict(crc, t, c, buf) != 0 then DATA_ERROR else st
  }

  // ---------- the table in place ----------

  class Namespace {
    /** The shared table; null when its memory could not be reserved. */
    var data: array?<Entry>
    var enabled: bool
    const crc: Crc

    constructor (crc: Crc, data: array?<Entry>)
      ensures this.crc == crc && this.data == data && !enabled
    {
      this.crc, this.data, this.enabled := crc, data, false;
    }

    ghost function Contents(): Table
      reads this, data
    {
      if data == null then [] else data[..]
    }

    ghost predicate Verifying()
      reads this
    {
      data != null && enabled
    }

    method SetLockBits(slba: nat, nlb: nat, lock: bool)
      requires slba + nlb < LBA_LIMIT
      requires data != null ==> data.Length < LBA_LIMIT
      modifies data
      ensures Contents() == SetLocks(old(Contents()), [Range(slba, nlb)], lock)
    {
      ghost var rs := [Range(slba, nlb)];
      assert forall i :: InRanges(rs, i) <==> Within(rs[0], i);
      if data != null && Wrap64(slba * 4) < data.Length * 4 {
        var n := nlb;
        if Wrap64((slba + n) * 4) > data.Length * 4 {
          n := data.Length - slba;
        }
        assert slba + n <= data.Length;
        for i := 0 to n
          invariant data.Length == old(data.Length)
          invariant forall j :: 0 <= j < data.Length ==>
            data[j] == if slba <= j < slba + i then WithLock(old(data[j]), lock) else old(data[j])
        {
          data[slba + i] := WithLock(data[slba + i], lock);
        }
      }
    }

    method CheckLockBits(slba: nat, nlb: nat) returns (locked: bool)
      requires slba + nlb < LBA_LIMIT && nlb < TWO16
      requires data != null ==> data.Length < LBA_LIMIT
      ensures locked <==> AnyLocked(Contents(), [Range(slba, nlb)])
    {
      ghost var rs := [Range(slba, nlb)];
      assert forall i :: InRanges(rs, i) <==> Within(rs[0], i);
      if data != null && Wrap64(slba * 4) < data.Length * 4 {
        var n := nlb;
        if Wrap64((slba + n) * 4) > data.Length * 4 {
          // stored back in 16 bits, but smaller than before
          n := data.Length - slba;
        }
        assert slba + n <= data.Length;
        for i := 0 to n
          invariant forall j :: slba <= j < slba + i ==> !Locked(data[j])
        {
          if Locked(data[slba + i]) {
            assert InRanges(rs, slba + i) && Locked(Contents()[slba + i]);
            return true;
          }
        }
      }
      return false;
    }

    /** Submission: tests every range first, then locks every range. */
    method LockLba(c: Command) returns (granted: bool)
      requires WellFormed(c)
      requires data != null ==> data.Length < LBA_LIMIT
      modifies data
      ensures granted <==> Grants(old(Contents()), c)
      ensures Contents() == if granted then SetLocks(old(Contents()), RangesOf(c), true) else old(Contents())
    {
      ghost var t := Contents();
      ghost var rs := RangesOf(c);
      ghost var tested := NarrowAll(rs);
      if SingleRange(c.opc) {
        assert tested == [Range(Slba(c), Nlb(c) % TWO16)];
        var locked := CheckLockBits(Slba(c), Nlb(c) % TWO16);
        if !locked {
          SetLockBits(Slba(c), Nlb(c), true);
          return true;
        }
      } else if c.opc == DSM {
        var ranges, count := c.payload.ranges, RangeCount(c);
        var locked, k := false, 0;
        assert tested[..0] == [];
        while k < count && !locked
          invariant k <= count
          invariant Contents() == t
          invariant locked <==> AnyLocked(t, tested[..k])
        {
          assert tested[k] == Range(ranges[k].slba, ranges[k].nlb % TWO16);
          locked := CheckLockBits(ranges[k].slba, ranges[k].nlb % TWO16);
          InRangesSnoc(tested, k);
          k := k + 1;
        }
        if !locked {
          assert tested[..count] == tested;
          assert forall m :: 0 <= m < count ==> ranges[..count][m] == ranges[m];
          SetAll(ranges[..count], true);
          return true;
        }
        InRangesPrefix(tested, k);
      } else {
        assert Contents() == SetLocks(t, [], true);
        return true;
      }
      return false;
    }

    /** Locks or unlocks one range after the other. */
    method SetAll(ranges: seq<Range>, lock: bool)
      requires forall k :: 0 <= k < |ranges| ==> ranges[k].slba + ranges[k].nlb < LBA_LIMIT
      requires data != null ==> data.Length < LBA_LIMIT
      modifies data
      ensures Contents() == SetLocks(old(Contents()), ranges, lock)
    {
      ghost var t := Contents();
      for k := 0 to |ranges|
        invariant Contents() == SetLocks(t, ranges[..k], lock)
      {
        InRangesSnoc(ranges, k);
        SetLockBits(ranges[k].slba, ranges[k].nlb, lock);
        assert Range(ranges[k].slba, ranges[k].nlb) == ranges[k];
        assert Contents() == SetLocks(t, ranges[..k + 1], lock);
      }
      assert ranges[..|ranges|] == ranges;
    }

    method UnlockLba(c: Command)
      requires WellFormed(c)
      requires data != null ==> data.Length < LBA_LIMIT
      modifies data
      ensures Contents() == SetLocks(old(Contents()), RangesOf(c), false)
    {
      if SingleRange(c.opc) {
        SetLockBits(Slba(c), Nlb(c), false);
      } else if c.opc == DSM {
        SetAll(c.payload.ranges[..RangeCount(c)], false);
      } else {
        assert Contents() == SetLocks(Contents(), [], false);
      }
    }

    /** `bytes` is the length of the range in table bytes. */
    method Clear(lba: nat, bytes: nat, uncorr: bool)
      requires lba * 4 + bytes < TWO64
      requires data != null ==> data.Length < LBA_LIMIT
      modifies data
      ensures Contents() == SetEntries(old(Contents()), [Range(lba, bytes / 4)],
                                       if uncorr then UNCORRECTABLE else NOMAPPING)
    {
      ghost var rs := [Range(lba, bytes / 4)];
      assert forall i :: InRanges(rs, i) <==> Within(rs[0], i);
      var v: Entry := if uncorr then UNCORRECTABLE else NOMAPPING;
      if data != null && Wrap64(lba * 4) < data.Length * 4 {
        var len := bytes;
        if Wrap64(lba * 4 + len) > data.Length * 4 {
          len := data.Length * 4 - lba * 4;
        }
        assert lba + len / 4 <= data.Length;
        for i := 0 to len / 4
          invariant forall j :: 0 <= j < data.Length ==>
            data[j] == if lba <= j < lba + i then v else old(data[j])
        {
          data[lba + i] := v;
        }
      }
    }

    method ClearRanges(ranges: seq<Range>)
      requires forall k :: 0 <= k < |ranges| ==> ranges[k].slba + ranges[k].nlb < LBA_LIMIT
      requires data != null ==> data.Length < LBA_LIMIT
      modifies data
      ensures Contents() == SetEntries(old(Contents()), ranges, NOMAPPING)
    {
      ghost var t := Contents();
      for k := 0 to |ranges|
        invariant Contents() == SetEntries(t, ranges[..k], NOMAPPING)
      {
        InRangesSnoc(ranges, k);
        Clear(ranges[k].slba, ranges[k].nlb * 4, false);
        assert Range(ranges[k].slba, ranges[k].nlb) == ranges[k];
        assert Contents() == SetEntries(t, ranges[..k + 1], NOMAPPING);
      }
      assert ranges[..|ranges|] == ranges;
    }

    /** Records the checksum of each written block whose LBA the table covers. */
    method UpdateWritten(buf: seq<Block>, lbaFirst: nat, lbaCount: nat)
      requires data != null && lbaCount <= |buf|
      modifies data
      ensures forall j :: 0 <= j < data.Length ==>
        data[j] == if lbaFirst <= j < lbaFirst + lbaCount then BlockChecksum(crc, buf[j - lbaFirst]) else old(data[j])
    {
      for i := 0 to lbaCount
        invariant forall j :: 0 <= j < data.Length ==>
          data[j] == if lbaFirst <= j < lbaFirst + i then BlockChecksum(crc, buf[j - lbaFirst]) else old(data[j])
      {
        var lba := lbaFirst + i;
        if lba < data.Length {
          data[lba] := BlockChecksum(crc, buf[i]);
        }
      }
    }

    method UpdateCrc(c: Command)
      requires WellFormed(c)
      requires data != null ==> data.Length < LBA_LIMIT
      modifies data
      ensures Contents() == Update(crc, old(Contents()), c)
    {
      ghost var t := Contents();
      var lba, count := Slba(c), Nlb(c) % TWO16;
      if data != null {
        if c.opc == WRITE {
          UpdateWritten(c.payload.blocks, lba, count);
        } else if c.opc == WRITE_UNCORRECTABLE {
          Clear(lba, count * 4, true);
          OneRange(Range(lba, count));
        } else if c.opc == WRITE_ZEROES {
          Clear(lba, count * 4, false);
          OneRange(Range(lba, count));
        } else if c.opc == DSM {
          ClearRanges(c.payload.ranges[..RangeCount(c)]);
        }
        assert Contents() == Update(crc, t, c);
      }
    }

    /** 0 when every block names its LBA or reads as unwritten, else -2. */
    static method VerifyLba(buf: seq<Block>, lbaFirst: nat, lbaCount: nat) returns (code: int)
      requires lbaCount <= |buf|
      ensures code == if HeadersOk(buf, lbaFirst, lbaCount) then 0 else -2
    {
      for i := 0 to lbaCount
        invariant HeadersOk(buf, lbaFirst, i)
      {
        var stored := buf[i][0];
        if stored != lbaFirst + i && stored != 0 && stored != ALL_ONES {
          assert !HeaderOk(buf[i], lbaFirst + i);
          return -2;
        }
      }
      return 0;
    }

    method VerifyData(buf: seq<Block>, lbaFirst: nat, lbaCount: nat) returns (code: int)
      requires lbaCount <= |buf|
      ensures code == DataVerdict(crc, Contents(), buf, lbaFirst, lbaCount)
    {
      ghost var t := Contents();
      for i := 0 to lbaCount
        invariant DataVerdict(crc, t, buf, lbaFirst, i) == 0
      {
        var lba := Wrap64(lbaFirst + i);
        if data != null && lba < data.Length {
          var expected := Checksum(data[lba]);
          if expected == NOMAPPING {
            continue;
          }
          if expected == UNCORRECTABLE {
            VerdictStays(crc, t, buf, lbaFirst, i + 1, lbaCount);
            return -1;
          }
          if BlockChecksum(crc, buf[i]) != expected {
            VerdictStays(crc, t, buf, lbaFirst, i + 1, lbaCount);
            return -3;
          }
        }
      }
      return 0;
    }

    method VerifyCrc(c: Command, buf: seq<Block>) returns (code: int)
      requires c.opc == READ ==> Count16(c) <= |buf|
      ensures code == if c.opc == READ && Verifying() then ReadVerdict(crc, Contents(), c, buf) else 0
    {
      code := 0;
      if c.opc == READ && data != null && enabled {
        var lba, count := Slba(c), Nlb(c) % TWO16;
        code := VerifyLba(buf, lba, count);
        if code == 0 {
          code := VerifyData(buf, lba, count);
        } else {
          // check the data against the LBA the buffer claims
          code := VerifyData(buf, buf[0][0], count);
          if code == 0 {
            code := -2;
          }
        }
      }
    }

    /** The table part of command completion: update, verify, rewrite the status. */
    method Complete(c: Command, st: Status, buf: seq<Block>) returns (reported: Status)
      requires WellFormed(c)
      requires data != null ==> data.Length < LBA_LIMIT
      requires c.opc == READ ==> Count16(c) <= |buf|
      modifies data
      ensures Contents() == CompletedTable(crc, old(Contents()), c, st)
      ensures st != Status(0, 0) && c.opc != 4 ==> Contents() == old(Contents())
      ensures reported == ReportedStatus(crc, old(Contents()), Verifying(), c, st, buf)
    {
      reported := st;
      if (st.sc == 0 && st.sct == 0) || c.opc == WRITE_UNCORRECTABLE {
        UpdateCrc(c);
        assert c.opc == READ ==> Contents() == old(Contents());
        var code := VerifyCrc(c, buf);
        if code != 0 {
          reported := DATA_ERROR;
        }
      }
    }

    /** The first LBA from `slba` on that is not marked uncorrectable and unlocked. The loop has no
        bound of its own: such an entry must exist. */
    method SkipUncorrectable(slba: nat) returns (r: nat)
      requires data != null ==> data.Length < LBA_LIMIT && slba < LBA_LIMIT
      requires data != null && slba < data.Length ==>
        exists i :: slba <= i < data.Length && data[i] != UNCORRECTABLE
      ensures slba <= r
      ensures data == null || data.Length <= slba ==> r == slba
      ensures data != null && slba < data.Length ==> r < data.Length && data[r] != UNCORRECTABLE
      ensures forall i :: slba <= i < r ==> data != null && i < data.Length && data[i] == UNCORRECTABLE
    {
      r := slba;
      if data != null && Wrap64(slba * 4) < data.Length * 4 {
        while data[r] == UNCORRECTABLE
          invariant slba <= r < data.Length
          invariant forall i :: slba <= i < r ==> data[i] == UNCORRECTABLE
          decreases data.Length - r
        {
          r := r + 1;
        }
      }
    }
  }

  lemma OneRange(r: Range)
    ensures forall i: nat :: InRanges([r], i) <==> Within(r, i)
  {
    var one := [r];
    assert forall i: nat :: Within(r, i) <==> Within(one[0], i);
  }

  lemma InRangesPrefix(rs: seq<Range>, k: nat)
    requires k <= |rs|
    ensures forall i: nat :: InRanges(rs[..k], i) ==> InRanges(rs, i)
  {
    forall i: nat | InRanges(rs[..k], i)
      ensures InRanges(rs, i)
    {
      var m :| 0 <= m < k && Within(rs[..k][m], i);
      assert Within(rs[m], i);
    }
  }

  /** Once a block fails, later blocks do not change the verdict. */
  lemma {:induction false} VerdictStays(crc: Crc, t: Table, buf: seq<Block>, lba: nat, i: nat, n: nat)
    requires i <= n <= |buf| && DataVerdict(crc, t, buf, lba, i) != 0
    ensures DataVerdict(crc, t, buf, lba, n) == DataVerdict(crc, t, buf, lba, i)
    decreases n - i
  {
    if i < n {
      VerdictStays(crc, t, buf, lba, i + 1, n);
    }
  }
}
