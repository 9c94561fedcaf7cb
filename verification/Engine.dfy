/** The life of I/O commands of one namespace: issued, queued until every LBA is free, in flight,
    completed. The device is arbitrary here: any command may complete at any time with any status
    and any data. */
module Engine {
  import opened Commands
  import opened CrcTable

  // ---------- write data ----------

  /** Stamps each block with its LBA (first word) and a token (last word). */
  function Filled(raw: seq<Block>, lba: nat, n: nat, token: nat): (r: seq<Block>)
    requires n <= |raw|
    ensures |r| == |raw|
    ensures forall j :: 0 <= j < n ==> r[j][0] == Wrap64(lba + j) && r[j][|r[j]| - 1] == Wrap64(token + j)
    ensures forall j, k :: 0 <= j < n && 0 < k < |raw[j]| - 1 ==> |r[j]| == |raw[j]| && r[j][k] == raw[j][k]
    ensures forall j :: n <= j < |raw| ==> r[j] == raw[j]
  {
    seq(|raw|, j requires 0 <= j < |raw| => if j < n then Stamped(raw[j], lba + j, token + j) else raw[j])
  }

  function Stamped(b: Block, lba: nat, token: nat): (r: Block)
    ensures |r| == |b| && r[0] == Wrap64(lba) && r[|r| - 1] == Wrap64(token)
    ensures forall k :: 0 < k < |b| - 1 ==> r[k] == b[k]
  {
    b[0 := Wrap64(lba)][|b| - 1 := Wrap64(token)]
  }

  /** The token counter shared by all writers. */
  class TokenCounter {
    var token: Word

    constructor ()
      ensures token == 1
    {
      token := 1;
    }

    method FillRawData(buf: array<Block>, lba: nat, lbaCount: nat)
      requires lbaCount <= buf.Length
      modifies this, buf
      ensures token == Wrap64(old(token) + lbaCount)
      ensures buf[..] == Filled(old(buf[..]), lba, lbaCount, old(token))
    {
      // atomic fetch-add
      var first := token;
      token := Wrap64(token + lbaCount);
      for i := 0 to lbaCount
        invariant token == Wrap64(old(token) + lbaCount)
        invariant forall j :: 0 <= j < buf.Length ==>
          buf[j] == if j < i then Stamped(old(buf[j]), lba + j, first + j) else old(buf[j])
      {
        var block := buf[i];
        block := block[0 := Wrap64(lba + i)];
        block := block[|block| - 1 := Wrap64(first + i)];
        buf[i] := block;
      }
    }
  }

  // ---------- the state machine ----------

  datatype State = State(
    table: Table,
    verify: bool,
    token: Word,
    written: seq<Block>,          // every block stamped so far, in order
    queued: map<nat, Command>,    // issued, waiting for the locks
    inflight: map<nat, Command>,  // locked and submitted
    history: seq<Command>         // successful commands, and every write uncorrectable, in completion order
  )

  datatype Event =
    | Issue(id: nat, opc: nat, lba: Word, lbaCount: nat, ioFlags: nat, raw: seq<Block>)
    | IssueRaw(id: nat, cmd: Command)
    | Submit(id: nat)
    | Complete(id: nat, st: Status, buf: seq<Block>)
    | SetVerify(on: bool)

  predicate Initial(s: State) {
    && |s.table| < LBA_LIMIT
    && (forall i :: 0 <= i < |s.table| ==> s.table[i] == NOMAPPING)
    && s.token == 1 && s.written == [] && s.queued == map[] && s.inflight == map[] && s.history == []
  }

  /** The command that an issuing event sends, its write data stamped. */
  function Sent(s: State, e: Event): Command
    requires CanStep(s, e) && (e.Issue? || e.IssueRaw?)
  {
    match e
    case IssueRaw(_, cmd) => cmd
    case Issue(_, opc, lba, n, flags, raw) =>
      Encode(opc, lba, n, flags, Blocks(if opc == WRITE then Filled(raw, lba, n, s.token) else raw))
  }

  /** What callers respect: request ids are not reused while active, counts fit the zero-based field,
      raw commands are not writes. */
  predicate CanStep(s: State, e: Event) {
    match e
    case Issue(id, opc, lba, n, flags, raw) =>
      && id !in s.queued && id !in s.inflight
      && 1 <= n <= TWO16 && n <= |raw| && flags % TWO16 == 0 && lba + n < LBA_LIMIT
    case IssueRaw(id, cmd) => id !in s.queued && id !in s.inflight && cmd.opc != WRITE && WellFormed(cmd)
    case Submit(id) => id in s.queued && WellFormed(s.queued[id])
    case Complete(id, st, buf) =>
      && id in s.inflight && WellFormed(s.inflight[id])
      && (s.inflight[id].opc == READ ==> Nlb(s.inflight[id]) <= |buf|)
    case SetVerify(_) => true
  }

  ghost function Step(crc: Crc, s: State, e: Event): State
    requires CanStep(s, e)
  {
    match e
    case Issue(id, opc, lba, n, flags, raw) =>
      var s1 := s.(queued := s.queued[id := Sent(s, e)]);
      if opc == WRITE then
        s1.(token := Wrap64(s.token + n), written := s.written + Filled(raw, lba, n, s.token)[..n])
      else s1
    case IssueRaw(id, cmd) => s.(queued := s.queued[id := cmd])
    case Submit(id) =>
      var c := s.queued[id];
      if Grants(s.table, c) then
        s.(queued := s.queued - {id}, inflight := s.inflight[id := c],
           table := SetLocks(s.table, RangesOf(c), true))
      else s
    case Complete(id, st, _) =>
      var c := s.inflight[id];
      s.(inflight := s.inflight - {id},
         table := SetLocks(CompletedTable(crc, s.table, c, st), RangesOf(c), false),
         history := if st == SUCCESS || c.opc == WRITE_UNCORRECTABLE then s.history + [c] else s.history)
    case SetVerify(on) => s.(verify := on)
  }

  /** The status a completion reports to its caller. */
  ghost function Reported(crc: Crc, s: State, e: Event): Status
    requires CanStep(s, e) && e.Complete?
  {
    ReportedStatus(crc, s.table, s.verify, s.inflight[e.id], e.st, e.buf)
  }

  /** The 16-bit lock test sees every in-table LBA that the command locks. */
  ghost predicate Exact(c: Command, size: nat)
    requires WellFormed(c)
  {
    NarrowCovers(RangesOf(c), size)
  }

  ghost predicate NarrowCovers(rs: seq<Range>, size: nat) {
    forall i: nat :: i < size && InRanges(rs, i) ==> InRanges(NarrowAll(rs), i)
  }

  ghost predicate ExactEvent(s: State, e: Event)
    requires CanStep(s, e)
  {
    e.Issue? || e.IssueRaw? ==> (SentWellFormed(s, e); Exact(Sent(s, e), |s.table|))
  }

  lemma SentWellFormed(s: State, e: Event)
    requires CanStep(s, e) && (e.Issue? || e.IssueRaw?)
    ensures WellFormed(Sent(s, e))
  {
    if e.Issue? && (SingleRange(e.opc) || e.opc == DSM) {
      EncodeDecode(e.opc, e.lba, e.lbaCount, e.ioFlags, Sent(s, e).payload);
      EncodeDecode(e.opc, e.lba, e.lbaCount, e.ioFlags,
                   Blocks(if e.opc == WRITE then Filled(e.raw, e.lba, e.lbaCount, s.token) else e.raw));
    }
  }

  /** A run: a state for every moment, each reached from the one before by one event. */
  ghost predicate IsRun(crc: Crc, states: seq<State>, events: seq<Event>) {
    && |states| == |events| + 1
    && Initial(states[0])
    && forall k :: 0 <= k < |events| ==> StepAt(crc, states, events, k)
  }

  ghost predicate StepAt(crc: Crc, states: seq<State>, events: seq<Event>, k: nat)
    requires k < |events| && |states| == |events| + 1
  {
    CanStep(states[k], events[k]) && states[k + 1] == Step(crc, states[k], events[k])
  }

  /** A run whose commands the 16-bit lock test sees entirely. */
  ghost predicate ExactRun(crc: Crc, states: seq<State>, events: seq<Event>) {
    && IsRun(crc, states, events)
    && forall k :: 0 <= k < |events| ==> ExactAt(states, events, k)
  }

  ghost predicate ExactAt(states: seq<State>, events: seq<Event>, k: nat)
    requires k < |events| && |states| == |events| + 1
  {
    CanStep(states[k], events[k]) ==> ExactEvent(states[k], events[k])
  }

  // ---------- locks ----------

  /** Command `id` is in flight and covers LBA `i`. */
  predicate Owns(s: State, id: nat, i: nat) {
    id in s.inflight && WellFormed(s.inflight[id]) && Covers(s.inflight[id], i)
  }

  ghost predicate Sane(s: State) {
    && (forall id :: id in s.queued ==> WellFormed(s.queued[id]) && Exact(s.queued[id], |s.table|))
    && (forall id :: id in s.inflight ==> WellFormed(s.inflight[id]) && Exact(s.inflight[id], |s.table|))
    && s.queued.Keys !! s.inflight.Keys
  }

  /** Bit 31 is set exactly where a command in flight covers the LBA, and at most one does. */
  ghost predicate LocksExact(s: State) {
    && (forall i: nat :: i < |s.table| ==> (Locked(s.table[i]) <==> exists id :: Owns(s, id, i)))
    && (forall i: nat, a, b :: i < |s.table| && Owns(s, a, i) && Owns(s, b, i) ==> a == b)
  }

  lemma GrantMeansFree(t: Table, c: Command, i: nat)
    requires WellFormed(c) && Exact(c, |t|) && Grants(t, c)
    requires i < |t| && Covers(c, i)
    ensures !Locked(t[i])
  {
  }

  lemma LocksStep(crc: Crc, s: State, e: Event)
    requires CanStep(s, e) && ExactEvent(s, e) && Sane(s) && LocksExact(s)
    ensures var s' := Step(crc, s, e); Sane(s') && LocksExact(s') && |s'.table| == |s.table|
  {
    var s' := Step(crc, s, e);
    match e
    case Issue(_, _, _, _, _, _) =>
      SentWellFormed(s, e);
      assert forall id, i: nat :: Owns(s', id, i) <==> Owns(s, id, i);
    case IssueRaw(_, _) =>
      assert forall id, i: nat :: Owns(s', id, i) <==> Owns(s, id, i);
    case SetVerify(_) =>
      assert forall id, i: nat :: Owns(s', id, i) <==> Owns(s, id, i);
    case Submit(id) =>
      var c := s.queued[id];
      if Grants(s.table, c) {
        LocksSubmit(s, s', id);
      }
    case Complete(id, st, _) =>
      LocksComplete(crc, s, s', e);
  }

  lemma LocksSubmit(s: State, s': State, id: nat)
    requires LocksExact(s) && id in s.queued && id !in s.inflight
    requires WellFormed(s.queued[id]) && Exact(s.queued[id], |s.table|) && Grants(s.table, s.queued[id])
    requires s' == s.(queued := s.queued - {id}, inflight := s.inflight[id := s.queued[id]],
                      table := SetLocks(s.table, RangesOf(s.queued[id]), true))
    ensures LocksExact(s')
  {
    var c := s.queued[id];
    assert forall k, i: nat :: Owns(s', k, i) <==> (if k == id then Covers(c, i) else Owns(s, k, i));
    forall i: nat | i < |s'.table|
      ensures Locked(s'.table[i]) <==> exists k :: Owns(s', k, i)
      ensures forall a, b :: Owns(s', a, i) && Owns(s', b, i) ==> a == b
    {
      if Covers(c, i) {
        GrantMeansFree(s.table, c, i);
        assert Owns(s', id, i);
      } else if Locked(s.table[i]) {
        var k :| Owns(s, k, i);
        assert Owns(s', k, i);
      }
    }
  }

  lemma LocksComplete(crc: Crc, s: State, s': State, e: Event)
    requires Sane(s) && LocksExact(s) && CanStep(s, e) && e.Complete?
    requires s' == Step(crc, s, e)
    ensures Sane(s') && LocksExact(s')
  {
    var c := s.inflight[e.id];
    assert forall k, i: nat :: Owns(s', k, i) <==> k != e.id && Owns(s, k, i);
    forall i: nat | i < |s'.table|
      ensures Locked(s'.table[i]) <==> exists k :: Owns(s', k, i)
    {
      if Covers(c, i) {
        assert Owns(s, e.id, i);
      } else {
        assert s'.table[i] == s.table[i];
        if Locked(s.table[i]) {
          var k :| Owns(s, k, i);
          assert Owns(s', k, i);
        }
      }
    }
  }

  /** Exact locking: at every moment of every run the lock bits are those of the commands in flight. */
  lemma {:induction false} ExactLocking(crc: Crc, states: seq<State>, events: seq<Event>, k: nat)
    requires ExactRun(crc, states, events) && k < |states|
    ensures Sane(states[k]) && LocksExact(states[k]) && |states[k].table| == |states[0].table|
  {
    if k > 0 {
      assert StepAt(crc, states, events, k - 1) && ExactAt(states, events, k - 1);
      ExactLocking(crc, states, events, k - 1);
      LocksStep(crc, states[k - 1], events[k - 1]);
    }
  }

  /** In terms of dwords and table bits: in every state of every run, bit 31 of an entry is set exactly while
      a command in flight addresses the LBA, by its LBA and count or by any of its ranges. */
  lemma LockedWhileAddressed(crc: Crc, states: seq<State>, events: seq<Event>, k: nat, i: nat)
    requires ExactRun(crc, states, events) && k < |states| && i < |states[k].table|
    ensures states[k].table[i] >= 0x8000_0000 <==>
      exists id :: id in states[k].inflight && Addresses(states[k].inflight[id], i)
  {
    ExactLocking(crc, states, events, k);
    var s := states[k];
    forall id | id in s.inflight
      ensures Owns(s, id, i) <==> Addresses(s.inflight[id], i)
    {
      CoversAddresses(s.inflight[id], i);
    }
  }

  /** Submission waits for nothing but commands in flight that address the same LBAs. */
  lemma GrantedWhenFree(s: State, c: Command)
    requires Sane(s) && LocksExact(s) && WellFormed(c) && Exact(c, |s.table|)
    ensures Grants(s.table, c) <==>
      forall id, i: nat :: id in s.inflight && i < |s.table| ==> !(Addresses(s.inflight[id], i) && Addresses(c, i))
  {
    forall id, i: nat | id in s.inflight && i < |s.table|
      ensures Addresses(s.inflight[id], i) <==> Owns(s, id, i)
      ensures Addresses(c, i) <==> Covers(c, i)
    {
      CoversAddresses(s.inflight[id], i);
      CoversAddresses(c, i);
    }
    if Grants(s.table, c) {
      forall id, i: nat | id in s.inflight && i < |s.table| && Covers(c, i)
        ensures !Owns(s, id, i)
      {
        GrantMeansFree(s.table, c, i);
      }
    } else {
      var i :| 0 <= i < |s.table| && InRanges(NarrowAll(RangesOf(c)), i) && Locked(s.table[i]);
      NarrowWithin(RangesOf(c), i);
      var id :| Owns(s, id, i);
      assert Addresses(s.inflight[id], i) && Addresses(c, i);
    }
  }

  lemma NarrowWithin(rs: seq<Range>, i: nat)
    requires InRanges(NarrowAll(rs), i)
    ensures InRanges(rs, i)
  {
    var k :| 0 <= k < |rs| && Within(NarrowAll(rs)[k], i);
    assert Within(rs[k], i);
  }

  /** With nothing in flight no lock survives, and every command is granted. */
  lemma IdleTableIsFree(s: State, c: Command)
    requires LocksExact(s) && s.inflight == map[] && WellFormed(c)
    ensures forall i: nat :: i < |s.table| ==> !Locked(s.table[i])
    ensures Grants(s.table, c)
  {
    assert forall id, i: nat :: !Owns(s, id, i);
  }

  /** Unlocking before or after the checksum update makes no difference. */
  lemma UnlockUpdateCommute(crc: Crc, t: Table, c: Command, st: Status)
    requires WellFormed(c)
    ensures SetLocks(CompletedTable(crc, t, c, st), RangesOf(c), false)
         == CompletedTable(crc, SetLocks(t, RangesOf(c), false), c, st)
  {
    forall i | 0 <= i < |t|
      ensures SetLocks(CompletedTable(crc, t, c, st), RangesOf(c), false)[i]
           == CompletedTable(crc, SetLocks(t, RangesOf(c), false), c, st)[i]
    {
      var n := NewEntry(crc, c, i);
    }
  }

  // ---------- the width of the lock test ----------

  /** The 16-bit test agrees with the real overlap on every table exactly when it sees every LBA. */
  lemma NarrowTestExact(rs: seq<Range>, size: nat)
    ensures (forall t: Table :: |t| == size ==> (AnyLocked(t, NarrowAll(rs)) <==> AnyLocked(t, rs)))
       <==> NarrowCovers(rs, size)
  {
    forall i: nat | InRanges(NarrowAll(rs), i)
      ensures InRanges(rs, i)
    {
      NarrowWithin(rs, i);
    }
    if !NarrowCovers(rs, size) {
      var i: nat :| i < size && InRanges(rs, i) && !InRanges(NarrowAll(rs), i);
      var t: Table := seq(size, j => if j == i then LOCK else 0);
      assert Locked(t[i]);
      assert !AnyLocked(t, NarrowAll(rs)) && AnyLocked(t, rs);
    }
  }

  /** For one range: the count fits 16 bits, or what the test leaves out lies beyond the table. */
  lemma NarrowCoversOne(r: Range, size: nat)
    ensures NarrowCovers([r], size) <==> r.nlb < TWO16 || r.slba + r.nlb % TWO16 >= size
  {
    OneRange(r);
    assert NarrowAll([r]) == [Narrow(r)];
    OneRange(Narrow(r));
    if r.nlb >= TWO16 && r.slba + r.nlb % TWO16 < size {
      assert InRanges([r], r.slba + r.nlb % TWO16);
    }
  }

  /** Submitting `c` from any state with exact locks, over any commands in flight, keeps them exact. */
  ghost predicate SubmitKeepsLocks(crc: Crc, c: Command, size: nat)
    requires WellFormed(c)
  {
    forall s: State, id: nat ::
      |s.table| == size && LocksExact(s) && id in s.queued && id !in s.inflight && s.queued[id] == c ==>
        LocksExact(Step(crc, s, Submit(id)))
  }

  /** The condition on commands cannot be weakened: one that the 16-bit test does not see entirely is
      granted over some command in flight and then shares an LBA with it. */
  lemma ExactIsNecessary(crc: Crc, c: Command, size: nat)
    requires WellFormed(c) && size < LBA_LIMIT - 1
    ensures SubmitKeepsLocks(crc, c, size) <==> Exact(c, size)
  {
    if Exact(c, size) {
      forall s: State, id: nat |
        |s.table| == size && LocksExact(s) && id in s.queued && id !in s.inflight && s.queued[id] == c
        ensures LocksExact(Step(crc, s, Submit(id)))
      {
        if Grants(s.table, c) {
          LocksSubmit(s, Step(crc, s, Submit(id)), id);
        }
      }
    } else {
      var i: nat :| i < size && Covers(c, i) && !InRanges(NarrowAll(RangesOf(c)), i);
      var read := Encode(READ, i, 1, 0, NoPayload);
      EncodeDecode(READ, i, 1, 0, NoPayload);
      var s := State(seq(size, j => if j == i then LOCK else 0), false, 1, [],
                     map[1 := c], map[0 := read], []);
      OneRange(Range(i, 1));
      assert forall id, j: nat :: Owns(s, id, j) <==> id == 0 && j == i;
      assert Owns(s, 0, i);
      assert LocksExact(s);
      assert Grants(s.table, c);
      var s' := Step(crc, s, Submit(1));
      assert Owns(s', 0, i) && Owns(s', 1, i);
    }
  }

  /** A run of two events after which a one-block read owns LBA `i`, and nothing else is going on. */
  lemma ReadInFlight(crc: Crc, size: nat, i: nat) returns (states: seq<State>, events: seq<Event>)
    requires i < size < LBA_LIMIT - 1
    ensures IsRun(crc, states, events) && |events| == 2 && |states[0].table| == size
    ensures var s := states[2];
      && |s.table| == size && s.queued == map[] && s.inflight.Keys == {0} && Owns(s, 0, i)
      && forall j: nat :: j < size ==> (Locked(s.table[j]) <==> j == i)
  {
    var read := Encode(READ, i, 1, 0, NoPayload);
    EncodeDecode(READ, i, 1, 0, NoPayload);
    OneRange(Range(i, 1));
    assert NarrowAll([Range(i, 1)]) == [Range(i, 1)];
    var s0 := State(seq(size, _ => NOMAPPING), false, 1, [], map[], map[], []);
    var s1 := Step(crc, s0, IssueRaw(0, read));
    assert Grants(s1.table, read);
    var s2 := Step(crc, s1, Submit(0));
    states, events := [s0, s1, s2], [IssueRaw(0, read), Submit(0)];
    assert StepAt(crc, states, events, 0) && StepAt(crc, states, events, 1);
  }

  /** The event that issues a command with the ranges of `c`. */
  function IssueOf(c: Command): Event
    requires WellFormed(c)
  {
    if c.opc == WRITE then Issue(1, WRITE, Slba(c), Nlb(c), 0, c.payload.blocks) else IssueRaw(1, c)
  }

  lemma IssueOfSends(s: State, c: Command)
    requires WellFormed(c) && 1 !in s.queued && 1 !in s.inflight
    ensures CanStep(s, IssueOf(c)) && WellFormed(Sent(s, IssueOf(c)))
    ensures Sent(s, IssueOf(c)).opc == c.opc && RangesOf(Sent(s, IssueOf(c))) == RangesOf(c)
  {
    if c.opc == WRITE {
      EncodeDecode(WRITE, Slba(c), Nlb(c), 0, Blocks(Filled(c.payload.blocks, Slba(c), Nlb(c), s.token)));
    }
  }

  /** Over runs: for every command the 16-bit test does not see entirely there is a run of four events
      (a one-block read, which is exact, and a command of the same opcode and ranges) after which two
      commands in flight share an LBA. */
  lemma InexactRun(crc: Crc, c: Command, size: nat) returns (states: seq<State>, events: seq<Event>)
    requires WellFormed(c) && size < LBA_LIMIT - 1 && !Exact(c, size)
    ensures IsRun(crc, states, events) && |events| == 4 && |states[0].table| == size
    ensures events[2] == IssueOf(c) && events[3] == Submit(1)
    ensures exists i: nat :: i < size && Owns(states[4], 0, i) && Owns(states[4], 1, i)
    ensures !LocksExact(states[4])
  {
    var i: nat :| i < size && Covers(c, i) && !InRanges(NarrowAll(RangesOf(c)), i);
    states, events := ReadInFlight(crc, size, i);
    var s2 := states[2];
    IssueOfSends(s2, c);
    var s3 := Step(crc, s2, IssueOf(c));
    assert s3.queued[1] == Sent(s2, IssueOf(c));
    assert Covers(c, i);
    assert RangesOf(s3.queued[1]) == RangesOf(c);
    hide WellFormed, RangesOf, NarrowAll, InRanges, Locked;
    SubmitOver(crc, s3, i);
    var s4 := Step(crc, s3, Submit(1));
    RunExtends(crc, states, events, IssueOf(c));
    RunExtends(crc, states + [s3], events + [IssueOf(c)], Submit(1));
    states, events := states + [s3] + [s4], events + [IssueOf(c)] + [Submit(1)];
    assert states[4] == s4 && Owns(states[4], 0, i) && Owns(states[4], 1, i);
  }

  /** A command whose test misses the one locked LBA is granted over its owner. */
  lemma SubmitOver(crc: Crc, s: State, i: nat)
    requires CanStep(s, Submit(1)) && Owns(s, 0, i) && 1 !in s.inflight
    requires forall j: nat :: j < |s.table| && Locked(s.table[j]) ==> j == i
    requires Covers(s.queued[1], i) && !InRanges(NarrowAll(RangesOf(s.queued[1])), i)
    ensures Owns(Step(crc, s, Submit(1)), 0, i) && Owns(Step(crc, s, Submit(1)), 1, i)
  {
    assert Grants(s.table, s.queued[1]);
  }

  lemma RunExtends(crc: Crc, states: seq<State>, events: seq<Event>, e: Event)
    requires IsRun(crc, states, events) && CanStep(states[|events|], e)
    ensures IsRun(crc, states + [Step(crc, states[|events|], e)], events + [e])
  {
    hide CanStep, Step;
    var states', events' := states + [Step(crc, states[|events|], e)], events + [e];
    forall k | 0 <= k < |events'|
      ensures StepAt(crc, states', events', k)
    {
      if k < |events| {
        assert StepAt(crc, states, events, k);
      }
    }
  }

  /** A 65536-block command is not exact wherever the table covers its first LBA: the 16-bit test
      length is zero. Its completion leaves the table as it was, and as a read it passes unverified. */
  lemma WideCommandUnseen(crc: Crc, t: Table, c: Command)
    requires WellFormed(c) && SingleRange(c.opc) && Nlb(c) == TWO16
    ensures Exact(c, |t|) <==> |t| <= Slba(c)
    ensures Update(crc, t, c) == t
    ensures forall buf: seq<Block> :: ReadVerdict(crc, t, c, buf) == 0
  {
    NarrowCoversOne(Range(Slba(c), Nlb(c)), |t|);
    assert RangesOf(c) == [Range(Slba(c), Nlb(c))];
  }

  // ---------- what the table remembers ----------

  /** What the completed commands say about an LBA: the last one that touched it decides. */
  datatype Expectation = Unmapped | Broken | Holds(block: Block)

  ghost predicate AllWellFormed(h: seq<Command>) {
    forall k :: 0 <= k < |h| ==> WellFormed(h[k])
  }

  ghost function Expected(h: seq<Command>, i: nat): Expectation
    requires AllWellFormed(h)
  {
    if h == [] then Unmapped
    else
      var c := h[|h| - 1];
      if !Covers(c, i) || c.opc == READ || c.opc == COMPARE then Expected(h[..|h| - 1], i)
      else if c.opc == WRITE then SingleCovers(c, i); Holds(c.payload.blocks[i - Slba(c)])
      else if c.opc == WRITE_UNCORRECTABLE then Broken
      else Unmapped
  }

  ghost function EntryFor(crc: Crc, x: Expectation): Entry {
    match x
    case Unmapped => NOMAPPING
    case Broken => UNCORRECTABLE
    case Holds(b) => BlockChecksum(crc, b)
  }

  /** Every checksum in the table is that of the last command that took effect on its LBA. */
  ghost predicate Remembers(crc: Crc, s: State) {
    && AllWellFormed(s.history)
    && forall i: nat :: i < |s.table| ==> Checksum(s.table[i]) == EntryFor(crc, Expected(s.history, i))
  }

  /** An exact command updates every in-table LBA it covers. */
  lemma ExactUpdates(crc: Crc, c: Command, i: nat, size: nat)
    requires WellFormed(c) && Exact(c, size) && i < size && Covers(c, i)
    ensures NewEntry(crc, c, i).Some? <==> c.opc != READ && c.opc != COMPARE
    ensures SingleRange(c.opc) ==> Slba(c) <= i < Slba(c) + Count16(c)
  {
    if SingleRange(c.opc) {
      SingleCovers(c, i);
      NarrowCoversOne(RangesOf(c)[0], size);
      assert RangesOf(c) == [RangesOf(c)[0]];
    }
  }

  /** What one more effective command makes expected. */
  lemma ExpectedSnoc(crc: Crc, h: seq<Command>, c: Command, i: nat, size: nat)
    requires AllWellFormed(h) && WellFormed(c) && Exact(c, size) && i < size
    ensures AllWellFormed(h + [c])
    ensures EntryFor(crc, Expected(h + [c], i)) ==
      match NewEntry(crc, c, i) case Some(e) => e case None => EntryFor(crc, Expected(h, i))
  {
    assert (h + [c])[..|h|] == h && (h + [c])[|h|] == c;
    if Covers(c, i) {
      ExactUpdates(crc, c, i, size);
    }
  }

  lemma CompletedChecksum(crc: Crc, s: State, e: Event, i: nat)
    requires CanStep(s, e) && e.Complete? && i < |s.table|
    ensures var c := s.inflight[e.id];
      Checksum(Step(crc, s, e).table[i]) ==
        if TakesEffect(c, e.st) && NewEntry(crc, c, i).Some? then NewEntry(crc, c, i).value
        else Checksum(s.table[i])
  {
    hide NewEntry;
  }

  lemma RemembersEntry(crc: Crc, s: State, e: Event, i: nat)
    requires CanStep(s, e) && e.Complete? && Sane(s) && Remembers(crc, s) && i < |s.table|
    ensures AllWellFormed(Step(crc, s, e).history)
    ensures Checksum(Step(crc, s, e).table[i]) == EntryFor(crc, Expected(Step(crc, s, e).history, i))
  {
    hide Expected, EntryFor, NewEntry, Covers;
    CompletedChecksum(crc, s, e, i);
    ExpectedSnoc(crc, s.history, s.inflight[e.id], i, |s.table|);
  }

  lemma RemembersStep(crc: Crc, s: State, e: Event)
    requires CanStep(s, e) && ExactEvent(s, e) && Sane(s) && Remembers(crc, s)
    ensures Remembers(crc, Step(crc, s, e))
  {
    if e.Complete? {
      hide Expected, EntryFor, Sane;
      forall i: nat | i < |s.table|
        ensures AllWellFormed(Step(crc, s, e).history)
        ensures Checksum(Step(crc, s, e).table[i]) == EntryFor(crc, Expected(Step(crc, s, e).history, i))
      {
        RemembersEntry(crc, s, e, i);
      }
    }
  }

  lemma {:induction false} TableRemembersHistory(crc: Crc, states: seq<State>, events: seq<Event>, k: nat)
    requires ExactRun(crc, states, events) && k < |states|
    ensures Remembers(crc, states[k]) && states[k].history == Remembered(states, events, k)
  {
    HistoryIsRemembered(crc, states, events, k);
    if k > 0 {
      assert StepAt(crc, states, events, k - 1) && ExactAt(states, events, k - 1);
      ExactLocking(crc, states, events, k - 1);
      TableRemembersHistory(crc, states, events, k - 1);
      RemembersStep(crc, states[k - 1], events[k - 1]);
    }
  }

  /** The commands of a run whose completion the table must remember, in completion order: those the device
      completed with status 0/0, and every write uncorrectable. */
  ghost function Remembered(states: seq<State>, events: seq<Event>, k: nat): seq<Command>
    requires k <= |events| && |states| == |events| + 1
  {
    if k == 0 then []
    else
      var before, s, e := Remembered(states, events, k - 1), states[k - 1], events[k - 1];
      if e.Complete? && e.id in s.inflight && (e.st == Status(0, 0) || s.inflight[e.id].opc == 4)
      then before + [s.inflight[e.id]] else before
  }

  lemma {:induction false} HistoryIsRemembered(crc: Crc, states: seq<State>, events: seq<Event>, k: nat)
    requires IsRun(crc, states, events) && k < |states|
    ensures states[k].history == Remembered(states, events, k)
  {
    if k > 0 {
      assert StepAt(crc, states, events, k - 1);
      HistoryIsRemembered(crc, states, events, k - 1);
    }
  }

  /** A completion the device failed, unless it is a write uncorrectable, leaves every checksum alone. */
  lemma FailureChangesNothing(crc: Crc, s: State, e: Event)
    requires CanStep(s, e) && e.Complete? && e.st != Status(0, 0) && s.inflight[e.id].opc != 4
    ensures Step(crc, s, e).history == s.history && |Step(crc, s, e).table| == |s.table|
    ensures forall i: nat :: i < |s.table| ==> Step(crc, s, e).table[i] % 0x8000_0000 == s.table[i] % 0x8000_0000
  {
    forall i: nat | i < |s.table|
      ensures Checksum(Step(crc, s, e).table[i]) == Checksum(s.table[i])
    {
      CompletedChecksum(crc, s, e, i);
    }
  }

  /** The data a read must return at LBA `i`, as far as checksums can tell. */
  ghost predicate Plausible(crc: Crc, x: Expectation, b: Block) {
    match x
    case Unmapped => true
    case Broken => false
    case Holds(w) => SameCrc(crc(b), crc(w))
  }

  ghost predicate PlausibleRead(crc: Crc, s: State, c: Command, buf: seq<Block>)
    requires AllWellFormed(s.history) && Nlb(c) <= |buf|
  {
    forall j :: 0 <= j < Nlb(c) ==>
      && buf[j][0] in {Slba(c) + j, 0, 0xffff_ffff_ffff_ffff}
      && (Slba(c) + j < |s.table| ==> Plausible(crc, Expected(s.history, Slba(c) + j), buf[j]))
  }

  lemma BlockIsPlausible(crc: Crc, s: State, i: nat, b: Block)
    requires Remembers(crc, s) && i < LBA_LIMIT
    ensures BlockVerdict(crc, s.table, b, Wrap64(i)) == 0
       <==> (i < |s.table| ==> Plausible(crc, Expected(s.history, i), b))
  {
    hide Expected, SameCrc, BlockChecksum;
    assert Wrap64(i) == i;
    if i < |s.table| && Expected(s.history, i).Holds? {
      ChecksumsCollide(crc, b, Expected(s.history, i).block);
      ReservedMarks(crc, Expected(s.history, i).block);
    }
  }

  lemma ReservedMarks(crc: Crc, b: Block)
    ensures Checksum(BlockChecksum(crc, b)) == BlockChecksum(crc, b)
    ensures BlockChecksum(crc, b) != NOMAPPING && BlockChecksum(crc, b) != UNCORRECTABLE
  {
  }

  lemma VerdictIsPlausibility(crc: Crc, s: State, c: Command, buf: seq<Block>)
    requires Remembers(crc, s) && WellFormed(c) && c.opc == READ && Nlb(c) < TWO16 && Nlb(c) <= |buf|
    ensures ReadVerdict(crc, s.table, c, buf) == 0 <==> PlausibleRead(crc, s, c, buf)
  {
    hide BlockVerdict, Plausible, Expected;
    assert Count16(c) == Nlb(c);
    forall j | 0 <= j < Nlb(c)
      ensures BlockVerdict(crc, s.table, buf[j], Wrap64(Slba(c) + j)) == 0 <==>
              (Slba(c) + j < |s.table| ==> Plausible(crc, Expected(s.history, Slba(c) + j), buf[j]))
    {
      BlockIsPlausible(crc, s, Slba(c) + j, buf[j]);
    }
  }

  /** A read that the device completes successfully while verification is on. */
  predicate VerifiedRead(s: State, e: Event) {
    && CanStep(s, e) && e.Complete? && e.st == SUCCESS && s.verify
    && s.inflight[e.id].opc == READ && Nlb(s.inflight[e.id]) < TWO16
  }

  /** Detection: a verified read keeps its success status if and only if every block names its LBA
      (or reads as unwritten) and every in-table LBA holds, up to a checksum collision, what the last
      effective command left there. */
  lemma Detection(crc: Crc, states: seq<State>, events: seq<Event>, k: nat)
    requires ExactRun(crc, states, events) && k < |events| && VerifiedRead(states[k], events[k])
    ensures AllWellFormed(states[k].history) && states[k].history == Remembered(states, events, k)
    ensures Reported(crc, states[k], events[k]) == SUCCESS
       <==> PlausibleRead(crc, states[k], states[k].inflight[events[k].id], events[k].buf)
  {
    TableRemembersHistory(crc, states, events, k);
    VerdictIsPlausibility(crc, states[k], states[k].inflight[events[k].id], events[k].buf);
  }

  /** Every completion but a verified read of up to 65535 blocks reports the status the device gave; a
      verified read may turn into a data error, and into nothing else. */
  lemma ReportCases(crc: Crc, s: State, e: Event)
    requires CanStep(s, e) && e.Complete?
    ensures !VerifiedRead(s, e) ==> Reported(crc, s, e) == e.st
    ensures Reported(crc, s, e) in {e.st, Status(7, 0x81)}
  {
    if s.inflight[e.id].opc == READ && Nlb(s.inflight[e.id]) == TWO16 {
      assert Count16(s.inflight[e.id]) == 0;
    }
  }

  /** Write uncorrectable marks its LBAs whatever its status. */
  lemma UncorrectableMarks(crc: Crc, s: State, e: Event, i: nat)
    requires CanStep(s, e) && e.Complete? && AllWellFormed(s.history)
    requires s.inflight[e.id].opc == WRITE_UNCORRECTABLE && Covers(s.inflight[e.id], i)
    ensures AllWellFormed(Step(crc, s, e).history) && Expected(Step(crc, s, e).history, i) == Broken
  {
    assert Step(crc, s, e).history[..|s.history|] == s.history;
  }

  lemma BrokenImplausible(crc: Crc, s: State, c: Command, buf: seq<Block>, j: nat)
    requires AllWellFormed(s.history) && j < Nlb(c) <= |buf| && Slba(c) + j < |s.table|
    requires Expected(s.history, Slba(c) + j) == Broken
    ensures !PlausibleRead(crc, s, c, buf)
  {
    assert !Plausible(crc, Expected(s.history, Slba(c) + j), buf[j]);
  }

  /** A verified read that touches a marked in-table LBA is reported corrupt, whatever its data: on a
      device that fails a write uncorrectable and still serves the block, this is a false alarm. */
  lemma MarkedAlwaysAlarms(crc: Crc, s: State, e: Event, i: nat)
    requires Remembers(crc, s) && VerifiedRead(s, e) && i < |s.table| && Covers(s.inflight[e.id], i)
    requires Expected(s.history, i) == Broken
    ensures Reported(crc, s, e) == DATA_ERROR
  {
    var c := s.inflight[e.id];
    SingleCovers(c, i);
    VerdictIsPlausibility(crc, s, c, e.buf);
    BrokenImplausible(crc, s, c, e.buf, i - Slba(c));
  }

  /** A one-block command without data, at LBA `i`. */
  function OneBlock(opc: nat, i: Word): Command
    requires i < LBA_LIMIT - 1
  {
    Encode(opc, i, 1, 0, NoPayload)
  }

  lemma OneBlockFacts(opc: nat, i: Word, size: nat)
    requires i < LBA_LIMIT - 1 && (opc == READ || opc == WRITE_UNCORRECTABLE)
    ensures var c := OneBlock(opc, i);
      && c.opc == opc && WellFormed(c) && RangesOf(c) == [Range(i, 1)] && Nlb(c) == 1 && Slba(c) == i
      && Covers(c, i) && Exact(c, size)
  {
    EncodeDecode(opc, i, 1, 0, NoPayload);
    OneRange(Range(i, 1));
    NarrowCoversOne(Range(i, 1), size);
  }

  predicate IsIdle(s: State) {
    s.queued == map[] && s.inflight == map[]
  }

  /** One command from issue to completion. */
  function Life(opc: nat, i: Word, st: Status, buf: seq<Block>): (events: seq<Event>)
    requires i < LBA_LIMIT - 1
    ensures |events| == 3
  {
    [IssueRaw(0, OneBlock(opc, i)), Submit(0), Complete(0, st, buf)]
  }

  /** From an idle state a one-block command is granted. */
  lemma IdleAdmits(crc: Crc, s: State, opc: nat, i: Word) returns (s': State)
    requires Sane(s) && LocksExact(s) && IsIdle(s)
    requires i < LBA_LIMIT - 1 && (opc == READ || opc == WRITE_UNCORRECTABLE)
    ensures var e := IssueRaw(0, OneBlock(opc, i));
      && CanStep(s, e) && ExactEvent(s, e) && CanStep(Step(crc, s, e), Submit(0))
      && s' == Step(crc, Step(crc, s, e), Submit(0))
    ensures s'.queued == map[] && s'.inflight == map[0 := OneBlock(opc, i)]
    ensures s'.history == s.history && s'.verify == s.verify && |s'.table| == |s.table|
  {
    OneBlockFacts(opc, i, |s.table|);
    IdleTableIsFree(s, OneBlock(opc, i));
    s' := Step(crc, Step(crc, s, IssueRaw(0, OneBlock(opc, i))), Submit(0));
  }

  /** A run that is idle at its end goes on with the life of one more command, and is idle again. */
  lemma LiveOne(crc: Crc, states: seq<State>, events: seq<Event>, opc: nat, i: Word, st: Status, buf: seq<Block>)
    returns (longer: seq<State>)
    requires ExactRun(crc, states, events) && IsIdle(states[|events|])
    requires i < LBA_LIMIT - 1 && (opc == READ || opc == WRITE_UNCORRECTABLE) && |buf| >= 1
    ensures |longer| == |states| + 3 && longer[..|states|] == states
    ensures ExactRun(crc, longer, events + Life(opc, i, st, buf)) && IsIdle(longer[|events| + 3])
    ensures var s, s' := longer[|events|], longer[|events| + 2];
      && s'.inflight == map[0 := OneBlock(opc, i)] && s'.history == s.history && s'.verify == s.verify
      && CanStep(s', Complete(0, st, buf)) && longer[|events| + 3] == Step(crc, s', Complete(0, st, buf))
      && longer[|events| + 3].verify == s.verify
  {
    var n, life := |events|, Life(opc, i, st, buf);
    ExactLocking(crc, states, events, n);
    OneBlockFacts(opc, i, |states[n].table|);
    var s2 := IdleAdmits(crc, states[n], opc, i);
    var s1 := Step(crc, states[n], life[0]);
    assert CanStep(s2, life[2]) && ExactEvent(s1, life[1]) && ExactEvent(s2, life[2]);
    var s3 := Step(crc, s2, life[2]);
    assert IsIdle(s3) && s3.verify == s2.verify;
    hide OneBlock, Step, Sane, LocksExact, CanStep, ExactEvent, ExactRun;
    ExtendExact(crc, states, events, life[0]);
    ExtendExact(crc, states + [s1], events + [life[0]], life[1]);
    ExtendExact(crc, states + [s1] + [s2], events + [life[0]] + [life[1]], life[2]);
    longer := states + [s1] + [s2] + [s3];
    assert events + [life[0]] + [life[1]] + [life[2]] == events + life;
  }

  lemma ExtendExact(crc: Crc, states: seq<State>, events: seq<Event>, e: Event)
    requires ExactRun(crc, states, events) && CanStep(states[|events|], e) && ExactEvent(states[|events|], e)
    ensures ExactRun(crc, states + [Step(crc, states[|events|], e)], events + [e])
  {
    hide CanStep, Step, ExactEvent;
    RunExtends(crc, states, events, e);
    var states', events' := states + [Step(crc, states[|events|], e)], events + [e];
    forall k | 0 <= k < |events'|
      ensures ExactAt(states', events', k)
    {
      if k < |events| {
        assert ExactAt(states, events, k);
      }
    }
  }

  /** The false alarm as a run: whatever status the device fails a write uncorrectable with, and whatever a
      later read returns successfully, the read is reported corrupt. */
  lemma FalseAlarmRun(crc: Crc, size: nat, i: Word, st: Status, buf: seq<Block>)
    returns (states: seq<State>, events: seq<Event>)
    requires i < size < LBA_LIMIT - 1 && st != SUCCESS && |buf| >= 1
    ensures events == Life(WRITE_UNCORRECTABLE, i, st, buf) + Life(READ, i, SUCCESS, buf)
    ensures ExactRun(crc, states, events) && |states[0].table| == size
    ensures CanStep(states[2], events[2]) && Reported(crc, states[2], events[2]) == st
    ensures CanStep(states[5], events[5]) && Reported(crc, states[5], events[5]) == DATA_ERROR
  {
    var s0 := State(seq(size, _ => NOMAPPING), true, 1, [], map[], map[], []);
    var mark, read := Life(WRITE_UNCORRECTABLE, i, st, buf), Life(READ, i, SUCCESS, buf);
    assert ExactRun(crc, [s0], []);
    OneBlockFacts(WRITE_UNCORRECTABLE, i, size);
    OneBlockFacts(READ, i, size);
    hide OneBlock, ExactRun, IsIdle;
    var marked := LiveOne(crc, [s0], [], WRITE_UNCORRECTABLE, i, st, buf);
    states := LiveOne(crc, marked, [] + mark, READ, i, SUCCESS, buf);
    events := [] + mark + read;
    TableRemembersHistory(crc, states, events, 2);
    UncorrectableMarks(crc, states[2], events[2], i);
    TableRemembersHistory(crc, states, events, 5);
    ExactLocking(crc, states, events, 5);
    MarkedAlwaysAlarms(crc, states[5], events[5], i);
  }

  /** While a command owns an in-table LBA nothing else changes what is expected there, so a read is
      judged by the state of its LBAs when it was submitted. */
  lemma {:induction false} OwnedIsStable(crc: Crc, states: seq<State>, events: seq<Event>, a: nat, b: nat, id: nat, i: nat)
    requires ExactRun(crc, states, events) && a <= b < |states|
    requires i < |states[0].table| && forall k :: a <= k <= b ==> Owns(states[k], id, i)
    ensures AllWellFormed(states[a].history) && AllWellFormed(states[b].history)
    ensures Expected(states[a].history, i) == Expected(states[b].history, i)
    decreases b - a
  {
    if a < b {
      OwnedIsStable(crc, states, events, a + 1, b, id, i);
      OwnedStepAt(crc, states, events, a, id, i);
    } else {
      TableRemembersHistory(crc, states, events, a);
    }
  }

  lemma OwnedStepAt(crc: Crc, states: seq<State>, events: seq<Event>, k: nat, id: nat, i: nat)
    requires ExactRun(crc, states, events) && k < |events|
    requires i < |states[0].table| && Owns(states[k], id, i) && Owns(states[k + 1], id, i)
    ensures AllWellFormed(states[k].history) && AllWellFormed(states[k + 1].history)
    ensures Expected(states[k + 1].history, i) == Expected(states[k].history, i)
  {
    assert StepAt(crc, states, events, k);
    TableRemembersHistory(crc, states, events, k);
    ExactLocking(crc, states, events, k);
    OwnedStep(crc, states[k], events[k], id, i);
  }

  lemma OwnedStep(crc: Crc, s: State, e: Event, id: nat, i: nat)
    requires CanStep(s, e) && LocksExact(s) && AllWellFormed(s.history)
    requires i < |s.table| && Owns(s, id, i) && Owns(Step(crc, s, e), id, i)
    ensures AllWellFormed(Step(crc, s, e).history)
    ensures Expected(Step(crc, s, e).history, i) == Expected(s.history, i)
  {
    if e.Complete? && (e.st == SUCCESS || s.inflight[e.id].opc == WRITE_UNCORRECTABLE) {
      assert !Owns(s, e.id, i);
      assert Step(crc, s, e).history[..|s.history|] == s.history;
    }
  }

  // ---------- write data over a run ----------

  /** Every write in the system carries stamped blocks: its own LBAs, and tokens taken from the counter. */
  ghost predicate StampedWrite(s: State, c: Command) {
    c.opc == WRITE && WellFormed(c) ==>
      forall j :: 0 <= j < Nlb(c) ==> c.payload.blocks[j][0] == Slba(c) + j && c.payload.blocks[j] in s.written
  }

  function TokenOf(b: Block): Word {
    b[|b| - 1]
  }

  /** The counter starts at 1 and the blocks take consecutive tokens. */
  ghost predicate TokensInOrder(s: State) {
    && s.token == Wrap64(1 + |s.written|)
    && forall k :: 0 <= k < |s.written| ==> TokenOf(s.written[k]) == Wrap64(1 + k)
  }

  ghost predicate WritesStamped(s: State) {
    && TokensInOrder(s)
    && (forall id :: id in s.queued ==> StampedWrite(s, s.queued[id]))
    && (forall id :: id in s.inflight ==> StampedWrite(s, s.inflight[id]))
    && (forall k :: 0 <= k < |s.history| ==> StampedWrite(s, s.history[k]))
  }

  lemma StampedMonotone(s: State, s': State)
    requires s.written <= s'.written
    ensures forall c :: StampedWrite(s, c) ==> StampedWrite(s', c)
  {
    assert forall b :: b in s.written ==> b in s'.written;
  }

  lemma IssuedWriteStamped(crc: Crc, s: State, e: Event)
    requires CanStep(s, e) && e.Issue? && e.opc == WRITE
    ensures StampedWrite(Step(crc, s, e), Sent(s, e))
  {
    var s', c := Step(crc, s, e), Sent(s, e);
    var f := Filled(e.raw, e.lba, e.lbaCount, s.token);
    EncodeDecode(WRITE, e.lba, e.lbaCount, e.ioFlags, Blocks(f));
    assert Range(Slba(c), Nlb(c)) == RangesOf(c)[0] == Range(e.lba, e.lbaCount);
    forall j | 0 <= j < Nlb(c)
      ensures c.payload.blocks[j][0] == Slba(c) + j && c.payload.blocks[j] in s'.written
    {
      assert c.payload.blocks[j] == f[j] == s'.written[|s.written| + j];
    }
  }

  lemma WrapAdd(a: nat, b: nat)
    ensures Wrap64(Wrap64(a) + b) == Wrap64(a + b)
  {
  }

  lemma TokensStep(crc: Crc, s: State, e: Event)
    requires CanStep(s, e) && TokensInOrder(s)
    ensures TokensInOrder(Step(crc, s, e)) && s.written <= Step(crc, s, e).written
  {
    hide Filled, Sent, Grants, CompletedTable;
    if e.Issue? && e.opc == WRITE {
      var s' := Step(crc, s, e);
      var f := Filled(e.raw, e.lba, e.lbaCount, s.token);
      WrapAdd(1 + |s.written|, e.lbaCount);
      forall k | 0 <= k < |s'.written|
        ensures TokenOf(s'.written[k]) == Wrap64(1 + k)
      {
        if k >= |s.written| {
          assert s'.written[k] == f[k - |s.written|];
          WrapAdd(1 + |s.written|, k - |s.written|);
        }
      }
    }
  }

  lemma WritesStep(crc: Crc, s: State, e: Event)
    requires CanStep(s, e) && WritesStamped(s)
    ensures WritesStamped(Step(crc, s, e))
  {
    TokensStep(crc, s, e);
    StampedMonotone(s, Step(crc, s, e));
    if e.Issue? && e.opc == WRITE {
      IssuedWriteStamped(crc, s, e);
    }
  }

  lemma {:induction false} AllWritesStamped(crc: Crc, states: seq<State>, events: seq<Event>, k: nat)
    requires IsRun(crc, states, events) && k < |states|
    ensures WritesStamped(states[k])
  {
    if k > 0 {
      assert StepAt(crc, states, events, k - 1);
      AllWritesStamped(crc, states, events, k - 1);
      WritesStep(crc, states[k - 1], events[k - 1]);
    }
  }

  /** Tokens: before the counter wraps all written blocks differ and none carries token 0; both limits
      are exact. */
  lemma TokensUnique(s: State)
    requires WritesStamped(s)
    ensures (forall a, b :: 0 <= a < b < |s.written| ==> TokenOf(s.written[a]) != TokenOf(s.written[b]))
       <==> |s.written| <= TWO64
    ensures (forall a :: 0 <= a < |s.written| ==> TokenOf(s.written[a]) != 0) <==> |s.written| < TWO64
  {
    if |s.written| > TWO64 {
      assert TokenOf(s.written[0]) == TokenOf(s.written[TWO64]);
    }
    if |s.written| >= TWO64 {
      assert TokenOf(s.written[TWO64 - 1]) == 0;
    }
  }

  /** Stale or misplaced data passes verification only by a checksum collision: if a passing read
      returned at block `j` the `p`-th written block where the `q`-th is expected, the two blocks differ
      and their CRCs are ones the table cannot tell apart. */
  lemma StaleNeedsCollision(crc: Crc, states: seq<State>, events: seq<Event>, k: nat, j: nat, p: nat, q: nat)
    requires ExactRun(crc, states, events) && k < |events| && VerifiedRead(states[k], events[k])
    requires Reported(crc, states[k], events[k]) == SUCCESS
    requires AllWellFormed(states[k].history) && |states[k].written| < TWO64
    requires Swapped(states[k], states[k].inflight[events[k].id], events[k].buf, j, p, q)
    ensures states[k].written[p] != states[k].written[q]
    ensures SameCrc(crc(states[k].written[p]), crc(states[k].written[q]))
  {
    AllWritesStamped(crc, states, events, k);
    Detection(crc, states, events, k);
    CollisionAt(crc, states[k], states[k].inflight[events[k].id], events[k].buf, j, p, q);
  }

  lemma CollisionAt(crc: Crc, s: State, c: Command, buf: seq<Block>, j: nat, p: nat, q: nat)
    requires TokensInOrder(s) && |s.written| < TWO64 && AllWellFormed(s.history) && Nlb(c) <= |buf|
    requires PlausibleRead(crc, s, c, buf) && Swapped(s, c, buf, j, p, q)
    ensures s.written[p] != s.written[q]
    ensures SameCrc(crc(s.written[p]), crc(s.written[q]))
  {
    assert TokenOf(s.written[p]) == 1 + p && TokenOf(s.written[q]) == 1 + q;
    assert Plausible(crc, Expected(s.history, Slba(c) + j), buf[j]);
  }

  ghost predicate Swapped(s: State, c: Command, buf: seq<Block>, j: nat, p: nat, q: nat)
    requires AllWellFormed(s.history) && Nlb(c) <= |buf|
  {
    && j < Nlb(c) && Slba(c) + j < |s.table|
    && p < |s.written| && q < |s.written| && p != q
    && buf[j] == s.written[p] && Expected(s.history, Slba(c) + j) == Holds(s.written[q])
  }
}
