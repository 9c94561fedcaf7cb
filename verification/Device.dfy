/** The engine in front of a device that does what it is told: no read is ever reported corrupt. */
module Device {
  import opened Commands
  import opened CrcTable
  import opened Engine

  /** What the media holds for one LBA. */
  datatype Media = Data(block: Block) | Deallocated(last: Block) | Bad

  /** The host, the media, and what each command in flight has done so far: for a pair of command and
      LBA, the media it left there or, for a read, the data it returned. Commands work block by block,
      in any order and at any time between submission and completion. */
  datatype World = World(host: State, media: seq<Media>, acted: map<(nat, nat), Media>)

  datatype Happening = Host(e: Event) | Act(id: nat, lba: nat, m: Media)

  predicate AllWords(b: Block, w: Word) {
    forall k :: 0 <= k < |b| ==> b[k] == w
  }

  predicate Mutates(opc: nat) {
    opc == WRITE || opc == WRITE_UNCORRECTABLE || opc == WRITE_ZEROES || opc == DSM
  }

  /** A deallocated block reads as its last data, zeros or all ones; a bad one cannot be read. */
  predicate Readable(m: Media, b: Block) {
    match m
    case Data(d) => b == d
    case Deallocated(d) => b == d || AllWords(b, 0) || AllWords(b, ALL_ONES)
    case Bad => false
  }

  /** What command `c` may do to LBA `lba` whose media was `was`. */
  predicate Faithful(c: Command, lba: nat, was: Media, m: Media)
    requires WellFormed(c) && Covers(c, lba)
  {
    if c.opc == WRITE then SingleCovers(c, lba); m == Data(c.payload.blocks[lba - Slba(c)])
    else if c.opc == WRITE_UNCORRECTABLE then m == Bad
    else if c.opc == WRITE_ZEROES then m.Data? && AllWords(m.block, 0)
    else if c.opc == DSM then
      m == was || (m.Deallocated? && match was
                                     case Data(d) => m.last == d
                                     case Deallocated(d) => m.last == d
                                     case Bad => AllWords(m.last, 0))
    else if c.opc == READ then m.Data? && Readable(was, m.block)
    else m == was
  }

  ghost predicate AllActed(w: World, id: nat, c: Command)
    requires WellFormed(c)
  {
    forall lba: nat :: Covers(c, lba) ==> (id, lba) in w.acted
  }

  /** A successful command has acted on all its LBAs and a read returns what it saw; a failed one has
      changed nothing; write uncorrectable does not fail. */
  ghost predicate HonestCompletion(w: World, e: Event)
    requires CanStep(w.host, e) && e.Complete?
  {
    var c := w.host.inflight[e.id];
    && (if e.st != Status(0, 0) && c.opc in {1, 8, 9} then forall lba: nat :: (e.id, lba) !in w.acted
        else e.st == Status(0, 0) || c.opc == 4 ==> AllActed(w, e.id, c))
    && (e.st == SUCCESS && c.opc == READ ==>
          forall j :: 0 <= j < Nlb(c) ==> ReturnsSeen(w, e.id, Slba(c) + j, e.buf[j]))
  }

  predicate ReturnsSeen(w: World, id: nat, lba: nat, b: Block) {
    (id, lba) in w.acted && w.acted[(id, lba)] == Data(b)
  }

  ghost predicate CanHappen(w: World, h: Happening) {
    match h
    case Host(e) => CanStep(w.host, e) && ExactEvent(w.host, e) && (e.Complete? ==> HonestCompletion(w, e))
    case Act(id, lba, m) =>
      && Owns(w.host, id, lba) && lba < |w.media| && (id, lba) !in w.acted
      && Faithful(w.host.inflight[id], lba, w.media[lba], m)
  }

  ghost function After(crc: Crc, w: World, h: Happening): World
    requires CanHappen(w, h)
  {
    match h
    case Host(e) =>
      World(Step(crc, w.host, e), w.media,
            if e.Complete? then map p | p in w.acted && p.0 != e.id :: w.acted[p] else w.acted)
    case Act(id, lba, m) =>
      World(w.host, if Mutates(w.host.inflight[id].opc) then w.media[lba := m] else w.media,
            w.acted[(id, lba) := m])
  }

  predicate MediaHeaderOk(m: Media, lba: nat) {
    match m
    case Data(b) => HeaderOk(b, lba)
    case Deallocated(b) => HeaderOk(b, lba)
    case Bad => true
  }

  ghost predicate Start(w: World) {
    && Initial(w.host) && w.acted == map[]
    && forall l :: 0 <= l < |w.media| ==> MediaHeaderOk(w.media[l], l)
  }

  ghost predicate HappensAt(crc: Crc, worlds: seq<World>, hs: seq<Happening>, k: nat)
    requires k < |hs| && |worlds| == |hs| + 1
  {
    CanHappen(worlds[k], hs[k]) && worlds[k + 1] == After(crc, worlds[k], hs[k])
  }

  ghost predicate IsStory(crc: Crc, worlds: seq<World>, hs: seq<Happening>) {
    && |worlds| == |hs| + 1 && Start(worlds[0])
    && forall k :: 0 <= k < |hs| ==> HappensAt(crc, worlds, hs, k)
  }

  // ---------- the invariant ----------

  /** The media is consistent with a checksum. */
  predicate Agrees(crc: Crc, c: Entry, m: Media) {
    || c == NOMAPPING
    || (c == UNCORRECTABLE && m.Bad?)
    || (m.Data? && BlockChecksum(crc, m.block) == c)
  }

  ghost predicate MutatedBy(w: World, id: nat, l: nat) {
    (id, l) in w.acted && id in w.host.inflight && Mutates(w.host.inflight[id].opc)
  }

  /** Actions belong to commands in flight, on LBAs they cover. */
  ghost predicate ActsOwned(w: World) {
    forall id, l: nat :: (id, l) in w.acted ==> Owns(w.host, id, l) && l < |w.media|
  }

  /** What a mutating command left at an in-table LBA is still there and fits the entry to come. */
  ghost predicate MutationsHeld(crc: Crc, w: World) {
    forall id, l: nat :: MutatedBy(w, id, l) && l < |w.host.table| && l < |w.media| && Owns(w.host, id, l) ==>
      && w.media[l] == w.acted[(id, l)]
      && NewEntry(crc, w.host.inflight[id], l).Some?
      && Agrees(crc, NewEntry(crc, w.host.inflight[id], l).value, w.media[l])
  }

  /** What a read has returned so far passes verification. */
  ghost predicate ReadsPass(crc: Crc, w: World) {
    forall id, l: nat :: (id, l) in w.acted && id in w.host.inflight && w.host.inflight[id].opc == READ ==>
      var m := w.acted[(id, l)];
      m.Data? && HeaderOk(m.block, l) && BlockVerdict(crc, w.host.table, m.block, l) == 0
  }

  /** Where no mutation is pending the table agrees with the media. */
  ghost predicate TableAgrees(crc: Crc, w: World) {
    forall l: nat :: l < |w.host.table| && l < |w.media| && (forall id :: !MutatedBy(w, id, l)) ==>
      Agrees(crc, Checksum(w.host.table[l]), w.media[l])
  }

  ghost predicate HeadersHold(w: World) {
    forall l: nat :: l < |w.media| ==> MediaHeaderOk(w.media[l], l)
  }

  ghost predicate Consistent(crc: Crc, w: World) {
    && Sane(w.host) && LocksExact(w.host) && WritesStamped(w.host)
    && ActsOwned(w) && MutationsHeld(crc, w) && ReadsPass(crc, w) && TableAgrees(crc, w) && HeadersHold(w)
  }

  lemma ActKeepsHeader(w: World, id: nat, lba: nat, m: Media)
    requires CanHappen(w, Act(id, lba, m)) && WritesStamped(w.host) && HeadersHold(w)
    ensures MediaHeaderOk(m, lba)
  {
    var c := w.host.inflight[id];
    assert StampedWrite(w.host, c);
    if SingleRange(c.opc) {
      SingleCovers(c, lba);
    }
  }

  /** In the table, only the owner of an LBA has acted on it. */
  lemma SoleActor(w: World, id: nat, lba: nat)
    requires ActsOwned(w) && LocksExact(w.host) && Owns(w.host, id, lba) && lba < |w.host.table|
    ensures forall k :: k != id ==> !MutatedBy(w, k, lba)
  {
  }

  /** What a faithful mutation leaves fits the entry its completion will write. */
  lemma MutationFits(crc: Crc, w: World, id: nat, lba: nat, m: Media)
    requires Sane(w.host) && CanHappen(w, Act(id, lba, m)) && Mutates(w.host.inflight[id].opc)
    requires lba < |w.host.table|
    ensures var e := NewEntry(crc, w.host.inflight[id], lba); e.Some? && Agrees(crc, e.value, m)
  {
    var c := w.host.inflight[id];
    ExactUpdates(crc, c, lba, |w.host.table|);
    if c.opc == WRITE {
      SingleCovers(c, lba);
    }
  }

  lemma ActMutates(crc: Crc, w: World, id: nat, lba: nat, m: Media)
    requires Consistent(crc, w) && CanHappen(w, Act(id, lba, m)) && Mutates(w.host.inflight[id].opc)
    ensures Consistent(crc, After(crc, w, Act(id, lba, m)))
  {
    hide Sane, LocksExact, WritesStamped, Faithful;
    var w' := After(crc, w, Act(id, lba, m));
    ActKeepsHeader(w, id, lba, m);
    assert MutatedBy(w', id, lba);
    assert forall k: nat, l: nat :: (k, l) != (id, lba) ==> (MutatedBy(w', k, l) <==> MutatedBy(w, k, l));
    if lba < |w.host.table| {
      SoleActor(w, id, lba);
      MutationFits(crc, w, id, lba, m);
    }
  }

  lemma ActReads(crc: Crc, w: World, id: nat, lba: nat, m: Media)
    requires Consistent(crc, w) && CanHappen(w, Act(id, lba, m)) && !Mutates(w.host.inflight[id].opc)
    ensures Consistent(crc, After(crc, w, Act(id, lba, m)))
  {
    var w', c := After(crc, w, Act(id, lba, m)), w.host.inflight[id];
    ActKeepsHeader(w, id, lba, m);
    assert forall k, l: nat :: MutatedBy(w', k, l) <==> MutatedBy(w, k, l);
    if lba < |w.host.table| {
      assert forall k :: !MutatedBy(w, k, lba);
      assert Agrees(crc, Checksum(w.host.table[lba]), w.media[lba]);
    }
  }

  lemma QuietStep(crc: Crc, s: State, e: Event)
    requires CanStep(s, e) && !e.Complete? && s.queued.Keys !! s.inflight.Keys
    ensures var s' := Step(crc, s, e);
      && |s'.table| == |s.table|
      && (forall i: nat :: i < |s.table| ==> Checksum(s'.table[i]) == Checksum(s.table[i]))
      && (forall id :: id in s.inflight ==> id in s'.inflight && s'.inflight[id] == s.inflight[id])
  {
  }

  /** Issuing, submitting and switching verification change no checksum and no action. */
  lemma HostOther(crc: Crc, w: World, e: Event)
    requires Consistent(crc, w) && CanHappen(w, Host(e)) && !e.Complete?
    ensures Consistent(crc, After(crc, w, Host(e)))
  {
    LocksStep(crc, w.host, e);
    WritesStep(crc, w.host, e);
    QuietStep(crc, w.host, e);
    QuietKeeps(crc, w, After(crc, w, Host(e)));
  }

  /** Actions stay valid while their commands stay in flight and their entries keep their checksums. */
  lemma ActsKept(crc: Crc, w: World, w': World)
    requires ActsOwned(w) && MutationsHeld(crc, w) && ReadsPass(crc, w)
    requires w'.media == w.media && |w'.host.table| == |w.host.table|
    requires forall p :: p in w'.acted ==> p in w.acted && w'.acted[p] == w.acted[p]
    requires forall id: nat, l: nat :: (id, l) in w'.acted ==> StillOwned(w.host, w'.host, id, l)
    ensures ActsOwned(w') && MutationsHeld(crc, w') && ReadsPass(crc, w')
  {
    hide NewEntry, Agrees, HeaderOk;
    forall id: nat, l: nat | (id, l) in w'.acted
      ensures Owns(w.host, id, l) && StillOwned(w.host, w'.host, id, l)
    {
    }
    assert forall id: nat, l: nat :: MutatedBy(w', id, l) ==> MutatedBy(w, id, l);
  }

  ghost predicate StillOwned(s: State, s': State, id: nat, l: nat) {
    && Owns(s', id, l) && id in s.inflight && s'.inflight[id] == s.inflight[id]
    && (l < |s.table| && l < |s'.table| ==> Checksum(s'.table[l]) == Checksum(s.table[l]))
  }

  lemma QuietKeeps(crc: Crc, w: World, w': World)
    requires ActsOwned(w) && MutationsHeld(crc, w) && ReadsPass(crc, w) && TableAgrees(crc, w)
    requires w'.media == w.media && w'.acted == w.acted && |w'.host.table| == |w.host.table|
    requires forall i: nat :: i < |w.host.table| ==> Checksum(w'.host.table[i]) == Checksum(w.host.table[i])
    requires forall id :: id in w.host.inflight ==>
      id in w'.host.inflight && w'.host.inflight[id] == w.host.inflight[id]
    ensures ActsOwned(w') && MutationsHeld(crc, w') && ReadsPass(crc, w') && TableAgrees(crc, w')
  {
    assert forall id: nat, l: nat :: (id, l) in w.acted ==> Owns(w.host, id, l);
    ActsKept(crc, w, w');
    assert forall id: nat, l: nat :: MutatedBy(w', id, l) <==> MutatedBy(w, id, l);
  }

  /** A completion settles the LBAs it covers: what it left there fits the entry it writes. */
  lemma CoveredEntry(crc: Crc, w: World, e: Event, l: nat)
    requires Consistent(crc, w) && CanHappen(w, Host(e)) && e.Complete?
    requires l < |w.host.table| && l < |w.media| && Owns(w.host, e.id, l)
    ensures Agrees(crc, Checksum(Step(crc, w.host, e).table[l]), w.media[l])
  {
    hide LocksExact, WritesStamped, ReadsPass, HeadersHold;
    var c := w.host.inflight[e.id];
    ExactUpdates(crc, c, l, |w.host.table|);
    SoleActor(w, e.id, l);
    if (e.st == SUCCESS || c.opc == WRITE_UNCORRECTABLE) && Mutates(c.opc) {
      assert MutatedBy(w, e.id, l);
    } else {
      assert !MutatedBy(w, e.id, l);
    }
  }

  /** Elsewhere nothing changes. */
  lemma OtherEntry(crc: Crc, w: World, e: Event, l: nat)
    requires ActsOwned(w) && TableAgrees(crc, w) && CanStep(w.host, e) && e.Complete?
    requires l < |w.host.table| && l < |w.media| && !Owns(w.host, e.id, l)
    requires forall id :: id != e.id ==> !MutatedBy(w, id, l)
    ensures Agrees(crc, Checksum(Step(crc, w.host, e).table[l]), w.media[l])
  {
    assert !MutatedBy(w, e.id, l);
    assert Step(crc, w.host, e).table[l] == w.host.table[l];
  }

  /** The other commands' actions are still theirs, on entries the completion leaves alone. */
  lemma OthersUntouched(crc: Crc, w: World, e: Event, id: nat, l: nat)
    requires ActsOwned(w) && LocksExact(w.host) && CanStep(w.host, e) && e.Complete?
    requires (id, l) in w.acted && id != e.id
    ensures StillOwned(w.host, Step(crc, w.host, e), id, l)
  {
    assert Owns(w.host, id, l);
    assert l < |w.host.table| ==> !Owns(w.host, e.id, l);
  }

  lemma CompleteKeepsTable(crc: Crc, w: World, e: Event)
    requires Consistent(crc, w) && CanHappen(w, Host(e)) && e.Complete?
    ensures TableAgrees(crc, After(crc, w, Host(e)))
  {
    hide Sane, LocksExact, WritesStamped, ReadsPass, MutationsHeld, HeadersHold, Agrees;
    var w' := After(crc, w, Host(e));
    forall l: nat | l < |w'.host.table| && l < |w.media| && forall id :: !MutatedBy(w', id, l)
      ensures Agrees(crc, Checksum(w'.host.table[l]), w.media[l])
    {
      if Owns(w.host, e.id, l) {
        CoveredEntry(crc, w, e, l);
      } else {
        forall id | id != e.id
          ensures !MutatedBy(w, id, l)
        {
          assert !MutatedBy(w', id, l);
        }
        OtherEntry(crc, w, e, l);
      }
    }
  }

  lemma CompleteKeepsActs(crc: Crc, w: World, e: Event)
    requires Consistent(crc, w) && CanHappen(w, Host(e)) && e.Complete?
    ensures ActsOwned(After(crc, w, Host(e))) && MutationsHeld(crc, After(crc, w, Host(e)))
    ensures ReadsPass(crc, After(crc, w, Host(e)))
  {
    hide Sane, LocksExact, WritesStamped, TableAgrees, HeadersHold, ActsOwned, MutationsHeld, ReadsPass, Step;
    var w' := After(crc, w, Host(e));
    LocksStep(crc, w.host, e);
    forall id: nat, l: nat | (id, l) in w'.acted
      ensures StillOwned(w.host, w'.host, id, l)
    {
      OthersUntouched(crc, w, e, id, l);
    }
    ActsKept(crc, w, w');
  }

  lemma HostComplete(crc: Crc, w: World, e: Event)
    requires Consistent(crc, w) && CanHappen(w, Host(e)) && e.Complete?
    ensures Consistent(crc, After(crc, w, Host(e)))
  {
    LocksStep(crc, w.host, e);
    WritesStep(crc, w.host, e);
    CompleteKeepsTable(crc, w, e);
    CompleteKeepsActs(crc, w, e);
    hide Sane, LocksExact, WritesStamped, TableAgrees, ActsOwned, MutationsHeld, ReadsPass;
  }

  lemma {:induction false} AlwaysConsistent(crc: Crc, worlds: seq<World>, hs: seq<Happening>, k: nat)
    requires IsStory(crc, worlds, hs) && k < |worlds|
    ensures Consistent(crc, worlds[k])
  {
    if k > 0 {
      assert HappensAt(crc, worlds, hs, k - 1);
      AlwaysConsistent(crc, worlds, hs, k - 1);
      ConsistentStep(crc, worlds[k - 1], hs[k - 1]);
    }
  }

  lemma ConsistentStep(crc: Crc, w: World, h: Happening)
    requires Consistent(crc, w) && CanHappen(w, h)
    ensures Consistent(crc, After(crc, w, h))
  {
    match h
    case Host(e) =>
      if e.Complete? {
        HostComplete(crc, w, e);
      } else {
        HostOther(crc, w, e);
      }
    case Act(id, lba, m) =>
      if Mutates(w.host.inflight[id].opc) {
        ActMutates(crc, w, id, lba, m);
      } else {
        ActReads(crc, w, id, lba, m);
      }
  }

  /** No false alarm: whatever the interleaving, every completion reports the status the device gave. */
  lemma NoFalseAlarm(crc: Crc, worlds: seq<World>, hs: seq<Happening>, k: nat)
    requires IsStory(crc, worlds, hs) && k < |hs| && hs[k].Host? && hs[k].e.Complete?
    ensures CanStep(worlds[k].host, hs[k].e)
    ensures Reported(crc, worlds[k].host, hs[k].e) == hs[k].e.st
  {
    assert HappensAt(crc, worlds, hs, k);
    AlwaysConsistent(crc, worlds, hs, k);
    HonestReadPasses(crc, worlds[k], hs[k].e);
  }

  lemma HonestBlockPasses(crc: Crc, w: World, e: Event, j: nat)
    requires ReadsPass(crc, w) && CanStep(w.host, e) && e.Complete? && HonestCompletion(w, e)
    requires e.st == SUCCESS && w.host.inflight[e.id].opc == READ && j < Nlb(w.host.inflight[e.id])
    ensures var lba := Slba(w.host.inflight[e.id]) + j;
      HeaderOk(e.buf[j], lba) && BlockVerdict(crc, w.host.table, e.buf[j], Wrap64(lba)) == 0
  {
    var lba := Slba(w.host.inflight[e.id]) + j;
    assert ReturnsSeen(w, e.id, lba, e.buf[j]);
    assert Wrap64(lba) == lba;
  }

  lemma HonestReadPasses(crc: Crc, w: World, e: Event)
    requires ReadsPass(crc, w) && CanStep(w.host, e) && e.Complete? && HonestCompletion(w, e)
    ensures Reported(crc, w.host, e) == e.st
  {
    hide BlockVerdict, HeaderOk, HonestCompletion, ReadsPass;
    var c := w.host.inflight[e.id];
    if e.st == SUCCESS && c.opc == READ {
      forall j | 0 <= j < Count16(c)
        ensures HeaderOk(e.buf[j], Slba(c) + j)
        ensures BlockVerdict(crc, w.host.table, e.buf[j], Wrap64(Slba(c) + j)) == 0
      {
        HonestBlockPasses(crc, w, e, j);
      }
    }
  }

  // ---------- there are such stories ----------

  lemma StoryExtends(crc: Crc, worlds: seq<World>, hs: seq<Happening>, h: Happening)
    requires IsStory(crc, worlds, hs) && CanHappen(worlds[|hs|], h)
    ensures IsStory(crc, worlds + [After(crc, worlds[|hs|], h)], hs + [h])
  {
    hide CanHappen, After;
    var worlds', hs' := worlds + [After(crc, worlds[|hs|], h)], hs + [h];
    forall k | 0 <= k < |hs'|
      ensures HappensAt(crc, worlds', hs', k)
    {
      if k < |hs| {
        assert HappensAt(crc, worlds, hs, k);
      }
    }
  }

  /** Nothing is going on. */
  predicate Quiescent(w: World) {
    IsIdle(w.host) && w.acted == map[]
  }

  /** The life of a one-block command, from issue to success. */
  function LifeOf(e: Event, i: nat, m: Media, buf: seq<Block>): seq<Happening> {
    [Host(e), Host(Submit(0)), Act(0, i, m), Host(Complete(0, SUCCESS, buf))]
  }

  /** What it takes to live it in front of a faithful device. */
  ghost predicate CanLive(w: World, e: Event, i: nat, m: Media, buf: seq<Block>) {
    && CanStep(w.host, e) && (e.Issue? || e.IssueRaw?) && e.id == 0 && ExactEvent(w.host, e) && i < |w.media|
    && var c := Sent(w.host, e);
       && WellFormed(c) && RangesOf(c) == [Range(i, 1)] && Covers(c, i) && Faithful(c, i, w.media[i], m)
       && (c.opc == READ ==> Slba(c) == i && Nlb(c) == 1 && |buf| >= 1 && m == Data(buf[0]))
  }

  lemma Submitted(crc: Crc, w: World, e: Event, i: nat, m: Media, buf: seq<Block>) returns (w': World)
    requires Quiescent(w) && Sane(w.host) && LocksExact(w.host) && CanLive(w, e, i, m, buf)
    ensures CanHappen(w, Host(e)) && CanHappen(After(crc, w, Host(e)), Host(Submit(0)))
    ensures w' == After(crc, After(crc, w, Host(e)), Host(Submit(0)))
    ensures w'.host.queued == map[] && w'.host.inflight == map[0 := Sent(w.host, e)]
    ensures w'.media == w.media && w'.acted == map[]
  {
    IdleTableIsFree(w.host, Sent(w.host, e));
    w' := After(crc, After(crc, w, Host(e)), Host(Submit(0)));
  }

  lemma Completed(crc: Crc, w: World, i: nat, m: Media, buf: seq<Block>) returns (w': World)
    requires w.host.inflight.Keys == {0} && w.host.queued == map[] && w.acted == map[] && i < |w.media|
    requires WellFormed(w.host.inflight[0]) && RangesOf(w.host.inflight[0]) == [Range(i, 1)]
    requires Covers(w.host.inflight[0], i) && Faithful(w.host.inflight[0], i, w.media[i], m)
    requires w.host.inflight[0].opc == READ ==>
      Slba(w.host.inflight[0]) == i && Nlb(w.host.inflight[0]) == 1 && |buf| >= 1 && m == Data(buf[0])
    ensures CanHappen(w, Act(0, i, m)) && CanHappen(After(crc, w, Act(0, i, m)), Host(Complete(0, SUCCESS, buf)))
    ensures w' == After(crc, After(crc, w, Act(0, i, m)), Host(Complete(0, SUCCESS, buf))) && Quiescent(w')
    ensures w'.media == if Mutates(w.host.inflight[0].opc) then w.media[i := m] else w.media
  {
    hide Faithful;
    OneRange(Range(i, 1));
    w' := After(crc, After(crc, w, Act(0, i, m)), Host(Complete(0, SUCCESS, buf)));
  }

  lemma LiveIt(crc: Crc, worlds: seq<World>, hs: seq<Happening>, e: Event, i: nat, m: Media, buf: seq<Block>)
    returns (longer: seq<World>)
    requires IsStory(crc, worlds, hs) && Quiescent(worlds[|hs|]) && CanLive(worlds[|hs|], e, i, m, buf)
    ensures IsStory(crc, longer, hs + LifeOf(e, i, m, buf)) && |longer| == |worlds| + 4 && longer[0] == worlds[0]
    ensures Quiescent(longer[|hs| + 4])
    ensures longer[|hs| + 4].media == if Mutates(Sent(worlds[|hs|].host, e).opc) then worlds[|hs|].media[i := m]
                                      else worlds[|hs|].media
  {
    var w, life := worlds[|hs|], LifeOf(e, i, m, buf);
    AlwaysConsistent(crc, worlds, hs, |hs|);
    var w1 := After(crc, w, life[0]);
    var w2 := Submitted(crc, w, e, i, m, buf);
    var w4 := Completed(crc, w2, i, m, buf);
    var w3 := After(crc, w2, life[2]);
    hide CanHappen, After, IsStory, Consistent, CanLive, Quiescent;
    StoryExtends(crc, worlds, hs, life[0]);
    StoryExtends(crc, worlds + [w1], hs + [life[0]], life[1]);
    StoryExtends(crc, worlds + [w1] + [w2], hs + [life[0]] + [life[1]], life[2]);
    StoryExtends(crc, worlds + [w1] + [w2] + [w3], hs + [life[0]] + [life[1]] + [life[2]], life[3]);
    longer := worlds + [w1] + [w2] + [w3] + [w4];
    assert hs + [life[0]] + [life[1]] + [life[2]] + [life[3]] == hs + life;
  }

  /** A block is written and read back, with verification on: the story of `NoFalseAlarm` in its plainest
      form, for every LBA and every block. */
  lemma WriteThenRead(crc: Crc, size: nat, i: Word, raw: Block) returns (worlds: seq<World>, hs: seq<Happening>)
    requires i < size < LBA_LIMIT - 1
    ensures IsStory(crc, worlds, hs) && |hs| == 8 && worlds[0].host.verify && |worlds[0].host.table| == size
    ensures var b := Stamped(raw, i, 1);
      && hs[0] == Host(Issue(0, WRITE, i, 1, 0, [raw])) && hs[7] == Host(Complete(0, SUCCESS, [b]))
      && CanStep(worlds[7].host, hs[7].e) && Reported(crc, worlds[7].host, hs[7].e) == SUCCESS
  {
    var b := Stamped(raw, i, 1);
    var w0 := World(State(seq(size, _ => NOMAPPING), true, 1, [], map[], map[], []),
                    seq(size, _ => Deallocated([0, 0])), map[]);
    var write := Issue(0, WRITE, i, 1, 0, [raw]);
    WriteLives(w0, i, raw);
    assert IsStory(crc, [w0], []);
    var first := LiveIt(crc, [w0], [], write, i, Data(b), []);
    var read := IssueRaw(0, OneBlock(READ, i));
    var hs1 := [] + LifeOf(write, i, Data(b), []);
    ReadLives(first[4], i, b);
    worlds := LiveIt(crc, first, hs1, read, i, Data(b), [b]);
    hs := hs1 + LifeOf(read, i, Data(b), [b]);
    NoFalseAlarm(crc, worlds, hs, 7);
  }

  lemma WriteLives(w: World, i: Word, raw: Block)
    requires Quiescent(w) && w.host.token == 1 && i < |w.media| && i < LBA_LIMIT - 1
    ensures CanLive(w, Issue(0, WRITE, i, 1, 0, [raw]), i, Data(Stamped(raw, i, 1)), [])
  {
    var e := Issue(0, WRITE, i, 1, 0, [raw]);
    var blocks := Filled([raw], i, 1, 1);
    EncodeDecode(WRITE, i, 1, 0, Blocks(blocks));
    OneRange(Range(i, 1));
    NarrowCoversOne(Range(i, 1), |w.host.table|);
    var c := Sent(w.host, e);
    SingleCovers(c, i);
    assert c.payload.blocks[0] == Stamped(raw, i, 1) && Slba(c) == i;
  }

  lemma ReadLives(w: World, i: Word, b: Block)
    requires Quiescent(w) && i < |w.media| && i < LBA_LIMIT - 1 && w.media[i] == Data(b)
    ensures CanLive(w, IssueRaw(0, OneBlock(READ, i)), i, Data(b), [b])
  {
    OneBlockFacts(READ, i, |w.host.table|);
  }
}
