/** Physical region page (PRP) lists: a page of 512 entries, each a data buffer or, in the last entry,
    the next list of the chain. */
module PrpLists {

  const PRP_PER_LIST: nat := 512

  /** A buffer of `len` bytes whose bytes from `offset` on belong to the queue. */
  datatype Buffer = Buffer(id: nat, len: nat, offset: nat)

  datatype Slot = Empty | Page(buf: Buffer) | Chain(list: PrpList)

  /** A list, an object of its own like a buffer, is entered at byte `offset` of its page. */
  datatype PrpList = PrpList(id: nat, offset: nat, slots: seq<Slot>)

  /** The result of a lookup: a byte of a buffer, nothing, or a failed assertion. */
  datatype Lookup = Found(buf: Buffer, pos: nat) | Absent | Failed

  predicate ChainOk(l: PrpList) {
    && |l.slots| == PRP_PER_LIST
    && forall k :: 0 <= k < |l.slots| ==> SlotOk(l.slots[k])
  }

  predicate SlotOk(s: Slot) {
    match s
    case Empty => true
    case Page(b) => b.offset <= b.len
    case Chain(m) => ChainOk(m)
  }

  /** The nested list `m` is the very object in the last slot. */
  predicate IsLast(l: PrpList, m: PrpList)
    requires ChainOk(l)
  {
    var last := l.slots[PRP_PER_LIST - 1];
    last.Chain? && last.list.id == m.id
  }

  // ---------- the reference: concatenation ----------

  /** How a walk over a chain ends after its last usable buffer. */
  datatype End = Clean | Stuck

  /** The buffers met from slot `k` on, and how the walk ends: at an empty slot, or at a nested list
      that is not in the last slot, it fails. */
  function Walk(l: PrpList, k: nat): (seq<Buffer>, End)
    requires ChainOk(l)
    decreases l, PRP_PER_LIST - k
  {
    if k >= PRP_PER_LIST then ([], Clean)
    else
      assert SlotOk(l.slots[k]);
      match l.slots[k]
      case Empty => ([], Stuck)
      case Page(b) => var (bs, e) := Walk(l, k + 1); ([b] + bs, e)
      case Chain(m) =>
        if IsLast(l, m) then Walk(m, m.offset / 8) else ([], Stuck)
  }

  function Usable(b: Buffer): (r: seq<(Buffer, nat)>)
    ensures |r| == if b.offset <= b.len then b.len - b.offset else 0
    ensures forall i :: 0 <= i < |r| ==> r[i] == (b, b.offset + i)
  {
    seq(if b.offset <= b.len then b.len - b.offset else 0, i => (b, b.offset + i))
  }

  /** The usable bytes of a sequence of buffers, one after the other. */
  function Bytes(bs: seq<Buffer>): seq<(Buffer, nat)> {
    if bs == [] then [] else Usable(bs[0]) + Bytes(bs[1..])
  }

  /** What a lookup of the `n`-th byte must return. */
  function ByteAt(walk: (seq<Buffer>, End), n: nat): Lookup {
    var bytes := Bytes(walk.0);
    if n < |bytes| then Found(bytes[n].0, bytes[n].1)
    else if walk.1.Clean? then Absent else Failed
  }

  /** Skipping a buffer that ends before the byte. */
  lemma SkipBuffer(b: Buffer, bs: seq<Buffer>, e: End, n: nat)
    requires b.offset <= b.len
    ensures ByteAt(([b] + bs, e), n) ==
      if n < b.len - b.offset then Found(b, b.offset + n) else ByteAt((bs, e), n - (b.len - b.offset))
  {
    assert ([b] + bs)[1..] == bs;
  }

  /** The lookup returns the byte of the concatenation, for every list and every offset: an empty slot
      or a misplaced list fails it only when the byte does not come before. */
  method FindBufferByOffset(l: PrpList, offset: nat, start: nat) returns (r: Lookup)
    requires ChainOk(l) && start <= offset
    ensures r == ByteAt(Walk(l, l.offset / 8), offset - start)
    decreases l
  {
    var pos: nat, k: nat := start, l.offset / 8;
    while k < PRP_PER_LIST
      invariant pos <= offset
      invariant ByteAt(Walk(l, l.offset / 8), offset - start) == ByteAt(Walk(l, k), offset - pos)
      decreases PRP_PER_LIST - k
    {
      assert SlotOk(l.slots[k]);
      match l.slots[k] {
        case Empty =>
          return Failed;
        case Chain(m) =>
          if !IsLast(l, m) {
            return Failed;
          }
          r := FindBufferByOffset(m, offset, pos);
          return;
        case Page(b) =>
          var origin := pos;
          pos := pos + (b.len - b.offset);
          SkipBuffer(b, Walk(l, k + 1).0, Walk(l, k + 1).1, offset - origin);
          if pos > offset {
            return Found(b, b.offset + offset - origin);
          }
      }
      k := k + 1;
    }
    return Absent;
  }

  // ---------- what the walk meets ----------

  /** From slot `k` on, pages are met one by one up to slot `n`, where the walk goes on. */
  lemma {:induction false} WalkPages(l: PrpList, k: nat, n: nat)
    requires ChainOk(l) && k <= n <= PRP_PER_LIST && forall i :: k <= i < n ==> l.slots[i].Page?
    ensures var (bs, e) := Walk(l, k);
      && |bs| == n - k + |Walk(l, n).0| && (forall i :: 0 <= i < n - k ==> bs[i] == l.slots[k + i].buf)
      && bs[n - k..] == Walk(l, n).0 && e == Walk(l, n).1
    decreases n - k
  {
    if k < n {
      WalkPages(l, k + 1, n);
    }
  }

  /** A list that is full of pages but for its last slot, a nested list, continues with that list. */
  lemma WalkChain(l: PrpList, k: nat, m: PrpList)
    requires ChainOk(l) && k < PRP_PER_LIST && l.slots[PRP_PER_LIST - 1] == Chain(m)
    requires forall i :: k <= i < PRP_PER_LIST - 1 ==> l.slots[i].Page?
    ensures SlotOk(Chain(m)) && |Walk(l, k).0| == PRP_PER_LIST - 1 - k + |Walk(m, m.offset / 8).0|
    ensures forall i :: 0 <= i < PRP_PER_LIST - 1 - k ==> Walk(l, k).0[i] == l.slots[k + i].buf
    ensures Walk(l, k).0[PRP_PER_LIST - 1 - k..] == Walk(m, m.offset / 8).0 && Walk(l, k).1 == Walk(m, m.offset / 8).1
  {
    assert SlotOk(l.slots[PRP_PER_LIST - 1]);
    WalkPages(l, k, PRP_PER_LIST - 1);
  }

  /** After the pages, an empty slot, or a nested list other than the one in the last slot, ends the walk. */
  lemma WalkStuck(l: PrpList, k: nat, n: nat)
    requires ChainOk(l) && k <= n < PRP_PER_LIST && forall i :: k <= i < n ==> l.slots[i].Page?
    requires l.slots[n].Empty? || (l.slots[n].Chain? && match l.slots[PRP_PER_LIST - 1]
                                                        case Chain(last) => last.id != l.slots[n].list.id
                                                        case _ => true)
    ensures |Walk(l, k).0| == n - k && Walk(l, k).1 == Stuck
  {
    WalkPages(l, k, n);
  }

  /** How many usable bytes come before buffer `k`. */
  function Before(bs: seq<Buffer>, k: nat): nat
    requires k <= |bs| && forall i :: 0 <= i < |bs| ==> bs[i].offset <= bs[i].len
  {
    if k == 0 then 0 else Before(bs, k - 1) + (bs[k - 1].len - bs[k - 1].offset)
  }

  lemma {:induction false} BeforeTail(bs: seq<Buffer>, k: nat)
    requires 1 <= k <= |bs| && forall i :: 0 <= i < |bs| ==> bs[i].offset <= bs[i].len
    ensures Before(bs, k) == bs[0].len - bs[0].offset + Before(bs[1..], k - 1)
  {
    if k > 1 {
      BeforeTail(bs, k - 1);
    } else {
      assert Before(bs, 1) == Before(bs, 0) + (bs[0].len - bs[0].offset);
    }
  }

  /** Byte `i` of buffer `k` comes after all usable bytes of the buffers before it. */
  lemma {:induction false} ByteOfBuffer(bs: seq<Buffer>, k: nat, i: nat)
    requires k < |bs| && forall j :: 0 <= j < |bs| ==> bs[j].offset <= bs[j].len
    requires bs[k].offset + i < bs[k].len
    ensures Before(bs, k) + i < |Bytes(bs)| && Bytes(bs)[Before(bs, k) + i] == (bs[k], bs[k].offset + i)
  {
    if k > 0 {
      BeforeTail(bs, k);
      ByteOfBuffer(bs[1..], k - 1, i);
    }
  }

  // ---------- distinct offsets, distinct places ----------

  ghost predicate DistinctBuffers(bs: seq<Buffer>) {
    forall i, j :: 0 <= i < j < |bs| ==> bs[i].id != bs[j].id
  }

  lemma {:induction false} BytesFromBuffers(bs: seq<Buffer>, n: nat)
    requires n < |Bytes(bs)|
    ensures exists k :: 0 <= k < |bs| && Bytes(bs)[n].0 == bs[k]
  {
    var u := Usable(bs[0]);
    if n < |u| {
      assert Bytes(bs)[n].0 == bs[0];
    } else {
      BytesFromBuffers(bs[1..], n - |u|);
      var k :| 0 <= k < |bs[1..]| && Bytes(bs[1..])[n - |u|].0 == bs[1..][k];
      assert Bytes(bs)[n].0 == bs[k + 1];
    }
  }

  /** With distinct buffers, distinct offsets are distinct bytes. */
  lemma {:induction false} BytesInjective(bs: seq<Buffer>, m: nat, n: nat)
    requires DistinctBuffers(bs) && m < n < |Bytes(bs)|
    ensures Bytes(bs)[m] != Bytes(bs)[n]
  {
    var u, rest := Usable(bs[0]), bs[1..];
    if m >= |u| {
      BytesInjective(rest, m - |u|, n - |u|);
    } else if n >= |u| {
      BytesFromBuffers(rest, n - |u|);
      var k :| 0 <= k < |rest| && Bytes(rest)[n - |u|].0 == rest[k];
      assert bs[k + 1].id != bs[0].id;
    }
  }

  // ---------- entries in the page ----------

  type Byte = b: nat | b < 256

  /** The little-endian bytes of a number. */
  function Little(n: nat, count: nat): (r: seq<Byte>)
    ensures |r| == count
  {
    if count == 0 then [] else [n % 256] + Little(n / 256, count - 1)
  }

  function Value(bytes: seq<Byte>): nat {
    if bytes == [] then 0 else bytes[0] + 256 * Value(bytes[1..])
  }

  function Pow256(k: nat): nat {
    if k == 0 then 1 else 256 * Pow256(k - 1)
  }

  lemma {:induction false} LittleRoundTrip(n: nat, count: nat)
    requires n < Pow256(count)
    ensures Value(Little(n, count)) == n
  {
    if count > 0 {
      LittleRoundTrip(n / 256, count - 1);
      assert Little(n, count)[1..] == Little(n / 256, count - 1);
    }
  }

  /** The number that a controller reads from eight bytes, least significant first. */
  function FromLittle(b: seq<nat>): nat
    requires |b| == 8
  {
    b[0] + 0x100 * b[1] + 0x1_0000 * b[2] + 0x100_0000 * b[3] + 0x1_0000_0000 * b[4] + 0x100_0000_0000 * b[5]
    + 0x1_0000_0000_0000 * b[6] + 0x100_0000_0000_0000 * b[7]
  }

  lemma ValueOfEight(b: seq<Byte>)
    requires |b| == 8
    ensures Value(b) == FromLittle(b)
  {
    assert b[0..] == b && Value(b[8..]) == 0;
    ValueStep(b, 7);
    ValueStep(b, 6);
    ValueStep(b, 5);
    ValueStep(b, 4);
    ValueStep(b, 3);
    ValueStep(b, 2);
    ValueStep(b, 1);
    ValueStep(b, 0);
  }

  lemma ValueStep(b: seq<Byte>, k: nat)
    requires k < |b|
    ensures Value(b[k..]) == (b[k] as nat) + 256 * Value(b[k + 1..])
  {
    assert b[k..][1..] == b[k + 1..];
  }

  /** A list page: what the script put in each slot, and the bytes the controller reads. */
  class ListPage {
    /** The address of the buffer in each slot, -1 for none. */
    const addresses: array<int>
    const bytes: array<Byte>

    /** Every filled slot's bytes are the address of its buffer. */
    ghost predicate Valid()
      reads addresses, bytes
    {
      && addresses.Length == PRP_PER_LIST && bytes.Length == 8 * PRP_PER_LIST
      && forall k :: 0 <= k < PRP_PER_LIST && addresses[k] >= 0 ==> Value(bytes[8 * k..8 * k + 8]) == addresses[k]
    }

    constructor ()
      ensures Valid() && fresh(addresses) && fresh(bytes)
      ensures forall k :: 0 <= k < PRP_PER_LIST ==> addresses[k] == -1
    {
      addresses := new int[PRP_PER_LIST](_ => -1);
      bytes := new Byte[8 * PRP_PER_LIST](_ => 0);
    }

    method SetItem(index: nat, address: nat)
      requires Valid() && index < PRP_PER_LIST && address < Pow256(8)
      modifies addresses, bytes
      ensures Valid()
      ensures addresses[..] == old(addresses[..])[index := address]
      ensures bytes[..8 * index] == old(bytes[..8 * index]) && bytes[8 * index + 8..] == old(bytes[8 * index + 8..])
      ensures address == FromLittle(bytes[8 * index..8 * index + 8])
    {
      addresses[index] := address;
      var le := Little(address, 8);
      for i := 0 to 8
        modifies bytes
        invariant forall j :: 0 <= j < i ==> bytes[8 * index + j] == le[j]
        invariant forall j :: 0 <= j < bytes.Length && !(8 * index <= j < 8 * index + i) ==> bytes[j] == old(bytes[j])
      {
        bytes[8 * index + i] := le[i];
      }
      ValueOfEight(le);
      hide Value, Little, Pow256, FromLittle;
      LittleRoundTrip(address, 8);
      assert bytes[8 * index..8 * index + 8] == le;
      forall k | 0 <= k < PRP_PER_LIST && k != index
        ensures bytes[8 * k..8 * k + 8] == old(bytes[8 * k..8 * k + 8])
      {
      }
    }
  }
}
