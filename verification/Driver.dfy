/** The in-place code, driven by issue, submission and completion, refines the state machine. */
module Driver {
  import opened Commands
  import opened CrcTable
  import opened Engine
  import LbaGenerator

  /** The namespace holds the table and the verify flag of a state. */
  ghost predicate Refines(ns: Namespace, s: State)
    reads ns, ns.data
  {
    ns.data != null && ns.data.Length < LBA_LIMIT && ns.Contents() == s.table && ns.enabled == s.verify
  }

  /** Issuing an I/O command: a write's buffer is stamped in place. The command sent, the counter and the
      blocks recorded as written are those of the issue step. */
  method OnIssue(ns: Namespace, tokens: TokenCounter, buf: array<Block>, ghost s: State, id: nat, opc: nat,
                 lba: Word, lbaCount: nat, ioFlags: nat) returns (c: Command, ghost e: Event)
    requires Refines(ns, s) && tokens.token == s.token
    requires CanStep(s, Issue(id, opc, lba, lbaCount, ioFlags, buf[..]))
    modifies tokens, buf
    ensures e == Issue(id, opc, lba, lbaCount, ioFlags, old(buf[..])) && CanStep(s, e)
    ensures c == Step(ns.crc, s, e).queued[id]
    ensures Refines(ns, Step(ns.crc, s, e)) && tokens.token == Step(ns.crc, s, e).token
    ensures Step(ns.crc, s, e).written == if opc == WRITE then s.written + buf[..lbaCount] else s.written
    ensures opc != WRITE ==> buf[..] == old(buf[..])
  {
    e := Issue(id, opc, lba, lbaCount, ioFlags, buf[..]);
    if opc == WRITE {
      tokens.FillRawData(buf, lba, lbaCount);
    }
    c := Encode(opc, lba, lbaCount, ioFlags, Blocks(buf[..]));
  }

  method OnSubmit(ns: Namespace, ghost s: State, id: nat, c: Command) returns (granted: bool)
    requires Refines(ns, s) && id in s.queued && s.queued[id] == c && WellFormed(c)
    modifies ns.data
    ensures Refines(ns, Step(ns.crc, s, Submit(id)))
    ensures granted <==> Grants(s.table, c)
  {
    granted := ns.LockLba(c);
  }

  method OnComplete(ns: Namespace, ghost s: State, id: nat, c: Command, st: Status, buf: seq<Block>)
    returns (reported: Status)
    requires Refines(ns, s) && CanStep(s, Complete(id, st, buf)) && s.inflight[id] == c
    modifies ns.data
    ensures Refines(ns, Step(ns.crc, s, Complete(id, st, buf)))
    ensures reported == Reported(ns.crc, s, Complete(id, st, buf))
  {
    reported := ns.Complete(c, st, buf);
    ns.UnlockLba(c);
  }

  /** The other order of the two completion hooks: same table, same status. */
  method OnCompleteUnlockFirst(ns: Namespace, ghost s: State, id: nat, c: Command, st: Status, buf: seq<Block>)
    returns (reported: Status)
    requires Refines(ns, s) && CanStep(s, Complete(id, st, buf)) && s.inflight[id] == c
    modifies ns.data
    ensures Refines(ns, Step(ns.crc, s, Complete(id, st, buf)))
    ensures reported == Reported(ns.crc, s, Complete(id, st, buf))
  {
    ns.UnlockLba(c);
    reported := ns.Complete(c, st, buf);
    UnlockUpdateCommute(ns.crc, s.table, c, st);
    ReportIgnoresLocks(ns.crc, s.table, SetLocks(s.table, RangesOf(c), false), s.verify, c, st, buf);
  }

  method OnSetVerify(ns: Namespace, ghost s: State, on: bool)
    requires Refines(ns, s)
    modifies ns`enabled
    ensures Refines(ns, Step(ns.crc, s, SetVerify(on)))
  {
    ns.enabled := on;
  }

  predicate SameChecksums(t: Table, t': Table) {
    |t| == |t'| && forall i :: 0 <= i < |t| ==> Checksum(t[i]) == Checksum(t'[i])
  }

  lemma {:induction false} VerdictIgnoresLocks(crc: Crc, t: Table, t': Table, buf: seq<Block>, lba: nat, n: nat)
    requires SameChecksums(t, t') && n <= |buf|
    ensures DataVerdict(crc, t, buf, lba, n) == DataVerdict(crc, t', buf, lba, n)
  {
    if n > 0 {
      VerdictIgnoresLocks(crc, t, t', buf, lba, n - 1);
    }
  }

  /** The reported status depends on checksums only. */
  lemma ReportIgnoresLocks(crc: Crc, t: Table, t': Table, verify: bool, c: Command, st: Status, buf: seq<Block>)
    requires SameChecksums(t, t') && (c.opc == READ ==> Count16(c) <= |buf|)
    ensures ReportedStatus(crc, t, verify, c, st, buf) == ReportedStatus(crc, t', verify, c, st, buf)
  {
    if c.opc == READ {
      VerdictIgnoresLocks(crc, t, t', buf, Slba(c), Count16(c));
      if Count16(c) > 0 {
        VerdictIgnoresLocks(crc, t, t', buf, buf[0][0], Count16(c));
      }
    }
  }

  // ---------- uncorrectable LBAs ----------

  /** The table does not mark the LBA as uncorrectable. */
  predicate Unmarked(ns: Namespace, i: nat)
    reads ns, ns.data
  {
    ns.data == null || i >= ns.data.Length || ns.data[i] != UNCORRECTABLE
  }

  /** How far a worker skips. A sequential command meets the condition of the LBA generator exactly when
      some LBA from its position to the aligned end of the region is not marked. */
  method MeasureSkip(ns: Namespace, w: LbaGenerator.Workload, seqLba: nat, d: LbaGenerator.Draw)
    returns (drawn: LbaGenerator.Draw)
    requires LbaGenerator.Ready(w) && (ns.data != null ==> ns.data.Length < LBA_LIMIT)
    requires ns.data != null && LbaGenerator.Position(w, seqLba) < ns.data.Length ==>
      exists i :: LbaGenerator.Position(w, seqLba) <= i < ns.data.Length && Unmarked(ns, i)
    ensures drawn == d.(skip := drawn.skip)
    ensures Unmarked(ns, LbaGenerator.Position(w, seqLba) + drawn.skip)
    ensures forall i :: LbaGenerator.Position(w, seqLba) <= i < LbaGenerator.Position(w, seqLba) + drawn.skip ==>
      !Unmarked(ns, i)
    ensures !LbaGenerator.IsRandom(w, d) ==>
      (LbaGenerator.SkipOk(w, seqLba, drawn) <==>
       exists i :: LbaGenerator.Position(w, seqLba) <= i <= LbaGenerator.AlignUp(w.regionEnd, w.aligns[LbaGenerator.SizeIndex(w, d)])
                   && Unmarked(ns, i))
    ensures var lba := LbaGenerator.Position(w, seqLba) + drawn.skip;
      !LbaGenerator.IsRandom(w, d) && w.aligns[LbaGenerator.SizeIndex(w, d)] == 1 && lba < w.regionEnd ==>
        LbaGenerator.StartOf(w, seqLba, drawn) == lba
  {
    assert forall n: nat :: LbaGenerator.AlignUp(n, 1) == n;
    hide LbaGenerator.AlignUp;
    var lba := LbaGenerator.Position(w, seqLba);
    var first := ns.SkipUncorrectable(lba);
    drawn := d.(skip := first - lba);
    assert LbaGenerator.SizeIndex(w, drawn) == LbaGenerator.SizeIndex(w, d);
    assert Unmarked(ns, first);
    assert forall i :: lba <= i < first ==> !Unmarked(ns, i);
  }
}
