/** Words, data blocks and NVM commands as the driver sees them. */
module Commands {

  const TWO16: nat := 0x1_0000
  const TWO32: nat := 0x1_0000_0000
  const TWO64: nat := 0x1_0000_0000_0000_0000
  /** LBAs below this bound multiply by the entry size without 64-bit wrap-around. */
  const LBA_LIMIT: nat := 0x4000_0000_0000_0000

  /** A 64-bit unsigned word. */
  type Word = w: nat | w < TWO64

  /** The content of one LBA as 64-bit words, at least a first and a last one. */
  type Block = b: seq<Word> | |b| >= 2 witness [0, 0]

  const ALL_ONES: Word := TWO64 - 1

  /** `nlb` LBAs from `slba` on. */
  datatype Range = Range(slba: nat, nlb: nat)

  predicate Within(r: Range, i: nat) {
    r.slba <= i < r.slba + r.nlb
  }

  predicate InRanges(rs: seq<Range>, i: nat) {
    exists k :: 0 <= k < |rs| && Within(rs[k], i)
  }

  /** What the data pointer of a command refers to. */
  datatype Payload = NoPayload | Blocks(blocks: seq<Block>) | Ranges(ranges: seq<Range>)

  /** The fields of a submission queue entry that the engine reads. */
  datatype Command = Command(opc: nat, cdw10: nat, cdw11: nat, cdw12: nat, payload: Payload)

  const FLUSH: nat := 0
  const WRITE: nat := 1
  const READ: nat := 2
  const WRITE_UNCORRECTABLE: nat := 4
  const COMPARE: nat := 5
  const WRITE_ZEROES: nat := 8
  const DSM: nat := 9

  predicate SingleRange(opc: nat) {
    opc == WRITE || opc == READ || opc == WRITE_UNCORRECTABLE || opc == COMPARE || opc == WRITE_ZEROES
  }

  /** The starting LBA, split over dwords 10 and 11. */
  function Slba(c: Command): nat {
    c.cdw10 + c.cdw11 * TWO32
  }

  /** The number of LBAs, 1 to 65536: the low half of dword 12 is zero-based. */
  function Nlb(c: Command): (n: nat)
    ensures 1 <= n <= TWO16
  {
    c.cdw12 % TWO16 + 1
  }

  /** The number of DSM ranges, 1 to 256. */
  function RangeCount(c: Command): (n: nat)
    ensures 1 <= n <= 256
  {
    c.cdw10 % 256 + 1
  }

  /** The payload is present and long enough wherever the driver dereferences it. */
  predicate WellFormed(c: Command) {
    && (c.opc == DSM ==> c.payload.Ranges? && RangeCount(c) <= |c.payload.ranges|)
    && (c.opc == WRITE ==> c.payload.Blocks? && Nlb(c) <= |c.payload.blocks|)
    && (SingleRange(c.opc) ==> Slba(c) + Nlb(c) < LBA_LIMIT)
    && (c.opc == DSM ==> forall k :: 0 <= k < RangeCount(c) ==>
         c.payload.ranges[k].slba + c.payload.ranges[k].nlb < LBA_LIMIT && c.payload.ranges[k].nlb < TWO32)
  }

  /** The LBAs a command is about; a flush or any other opcode has none. */
  function RangesOf(c: Command): seq<Range>
    requires WellFormed(c)
  {
    if SingleRange(c.opc) then [Range(Slba(c), Nlb(c))]
    else if c.opc == DSM then c.payload.ranges[..RangeCount(c)]
    else []
  }

  predicate Covers(c: Command, i: nat)
    requires WellFormed(c)
  {
    InRanges(RangesOf(c), i)
  }

  lemma SingleCovers(c: Command, i: nat)
    requires WellFormed(c) && SingleRange(c.opc)
    ensures Covers(c, i) <==> Slba(c) <= i < Slba(c) + Nlb(c)
  {
    assert RangesOf(c)[0] == Range(Slba(c), Nlb(c));
  }

  /** Unsigned 64-bit arithmetic. */
  function Wrap64(n: nat): Word {
    n % TWO64
  }

  /** The command `ns_cmd_io` builds. The flags live above bit 15 and the zero-based count below bit
      16, so the bitwise or of the two is their sum. Opcodes whose low two bits are clear carry no data. */
  function Encode(opc: nat, lba: Word, lbaCount: nat, ioFlags: nat, payload: Payload): Command
    requires 1 <= lbaCount <= TWO16 && ioFlags % TWO16 == 0
  {
    if opc == DSM then
      Command(DSM, 0, 4, 0, Ranges([Range(lba, lbaCount)]))
    else
      Command(opc, lba % TWO32, lba / TWO32, ioFlags + (lbaCount - 1),
              if opc % 4 == 0 then NoPayload else payload)
  }

  /** What the lock and checksum code decodes from the dwords is what the caller asked for; flags and data
      go out with it. */
  lemma EncodeDecode(opc: nat, lba: Word, lbaCount: nat, ioFlags: nat, payload: Payload)
    requires 1 <= lbaCount <= TWO16 && ioFlags % TWO16 == 0
    requires opc in {1, 2, 4, 5, 8, 9} && lba + lbaCount < LBA_LIMIT
    requires opc == WRITE ==> payload.Blocks? && lbaCount <= |payload.blocks|
    ensures var c := Encode(opc, lba, lbaCount, ioFlags, payload);
      && WellFormed(c) && c.opc == opc && RangesOf(c) == [Range(lba, lbaCount)]
      && (opc != 9 ==> c.cdw12 - c.cdw12 % TWO16 == ioFlags)
      && (opc in {1, 2, 5} ==> c.payload == payload)
  {
    var c := Encode(opc, lba, lbaCount, ioFlags, payload);
    if opc != DSM {
      assert c.cdw12 % TWO16 == lbaCount - 1;
      assert Slba(c) == lba;
    } else {
      assert RangeCount(c) == 1;
    }
  }

  // ---------- what a command addresses ----------

  /** The LBAs a command addresses, read off its dwords and, for dataset management, off its ranges: the low
      byte of dword 10 is their zero-based number. */
  predicate Addresses(c: Command, i: nat) {
    if c.opc in {1, 2, 4, 5, 8} then
      c.cdw10 + c.cdw11 * 0x1_0000_0000 <= i <= c.cdw10 + c.cdw11 * 0x1_0000_0000 + c.cdw12 % 0x1_0000
    else
      c.opc == 9 && c.payload.Ranges? &&
      exists k :: 0 <= k <= c.cdw10 % 0x100 && k < |c.payload.ranges|
                  && c.payload.ranges[k].slba <= i < c.payload.ranges[k].slba + c.payload.ranges[k].nlb
  }

  lemma CoversAddresses(c: Command, i: nat)
    requires WellFormed(c)
    ensures Covers(c, i) <==> Addresses(c, i)
  {
    if SingleRange(c.opc) {
      SingleCovers(c, i);
    } else if c.opc == DSM {
      var rs := c.payload.ranges;
      if Addresses(c, i) {
        var k :| 0 <= k <= c.cdw10 % 0x100 && k < |rs| && rs[k].slba <= i < rs[k].slba + rs[k].nlb;
        assert Within(rs[..RangeCount(c)][k], i);
      }
      if Covers(c, i) {
        var k :| 0 <= k < RangeCount(c) && Within(rs[..RangeCount(c)][k], i);
        assert rs[k].slba <= i < rs[k].slba + rs[k].nlb;
      }
    }
  }

  /** A DSM command with up to 256 ranges, whatever its attributes and whatever follows in its buffer. */
  lemma DsmDecode(rs: seq<Range>, spare: seq<Range>, high: nat, cdw11: nat, cdw12: nat)
    requires 1 <= |rs| <= 256
    requires forall k :: 0 <= k < |rs| ==> rs[k].slba + rs[k].nlb < LBA_LIMIT && rs[k].nlb < TWO32
    ensures var c := Command(9, high * 256 + (|rs| - 1), cdw11, cdw12, Ranges(rs + spare));
      WellFormed(c) && RangesOf(c) == rs
  {
    var c := Command(9, high * 256 + (|rs| - 1), cdw11, cdw12, Ranges(rs + spare));
    assert c.cdw10 % 256 == |rs| - 1;
    assert (rs + spare)[..|rs|] == rs;
  }
}
