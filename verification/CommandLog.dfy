/** The command log of a queue pair: a ring of entries, each linked both ways with the request it
    logs. A slot that is reused while its command is still outstanding is first copied to the heap. */
module CommandLog {
  import opened Commands

  const CMD_LOG_DEPTH: nat := 2050

  class Request {
    var cmd: Command
    var entry: LogEntry?

    constructor (cmd: Command)
      ensures this.cmd == cmd && entry == null
    {
      this.cmd, this.entry := cmd, null;
    }
  }

  class LogEntry {
    var cmd: Command
    var req: Request?
    var overlapAllocated: bool
    /** Where a table entry lies in the ring: distinct slots are distinct entries. */
    ghost const slot: int

    constructor (cmd: Command, req: Request?, overlapAllocated: bool, ghost slot: int)
      ensures this.cmd == cmd && this.req == req && this.overlapAllocated == overlapAllocated && this.slot == slot
    {
      this.cmd, this.req, this.overlapAllocated, this.slot := cmd, req, overlapAllocated, slot;
    }
  }

  class Log {
    const table: array<LogEntry>
    ghost const slots: set<LogEntry>
    var tail: nat

    /** The log as its user sees it: the command each outstanding request was logged with. */
    ghost var outstanding: map<Request, Command>
    /** The heap copies ever made: those still allocated, and those already freed. */
    ghost var copies: set<LogEntry>
    ghost var heap: set<LogEntry>
    ghost var freed: set<LogEntry>

    /** Request and entry point at each other, and the entry holds the request's command. */
    ghost predicate Linked(r: Request)
      requires r in outstanding
      reads this`outstanding, this`heap, r, slots, heap
    {
      && r.entry != null && r.entry in slots + heap
      && r.entry.req == r
      && r.entry.cmd == outstanding[r]
    }

    /** An entry in use is the one its request points at; heap copies carry the mark that frees them. */
    ghost predicate Owned(e: LogEntry)
      reads this`outstanding, this`heap, e, e.req
    {
      && e.req != null && e.req in outstanding && e.req.entry == e
      && (e.overlapAllocated <==> e in heap)
    }

    ghost predicate Valid()
      reads this, table, slots, heap, outstanding.Keys, set e | e in slots :: e.req, set e | e in heap :: e.req
    {
      tail < CMD_LOG_DEPTH && ValidBut(null)
    }

    /** The invariant, one slot being rewritten. */
    ghost predicate ValidBut(x: LogEntry?)
      reads this`outstanding, this`copies, this`heap, this`freed, table, slots, heap, outstanding.Keys, set e | e in slots :: e.req, set e | e in heap :: e.req
    {
      && table.Length == CMD_LOG_DEPTH
      && (forall i :: 0 <= i < CMD_LOG_DEPTH ==> table[i] in slots && table[i].slot == i)
      && slots !! heap && heap !! freed && slots !! freed && copies == heap + freed
      && (forall r :: r in outstanding ==> Linked(r) && r.entry != x)
      && (forall e :: e in slots && e != x && e.req != null ==> Owned(e))
      && (forall e :: e in heap ==> Owned(e))
    }

    constructor ()
      ensures Valid() && outstanding == map[] && copies == {} && tail == 0
      ensures forall j :: 0 <= j < table.Length ==> table[j].req == null
      ensures fresh(table) && fresh(slots)
    {
      var none := Command(0, 0, 0, 0, NoPayload);
      var blank := new LogEntry(none, null, false, -1);
      var t := new LogEntry[CMD_LOG_DEPTH](_ => blank);
      ghost var all: set<LogEntry> := {};
      for i := 0 to CMD_LOG_DEPTH
        invariant fresh(t) && fresh(all)
        invariant forall j :: 0 <= j < i ==> t[j] in all && t[j].slot == j
        invariant forall e :: e in all ==> e.req == null
      {
        var e := new LogEntry(none, null, false, i);
        t[i] := e;
        all := all + {e};
      }
      table, slots, tail := t, all, 0;
      outstanding, copies, heap, freed := map[], {}, {}, {};
    }

    /** Heap copies belong to outstanding requests: with none left, every copy made has been freed. */
    lemma NoneLeft()
      requires Valid() && outstanding == map[]
      ensures heap == {} && freed == copies
    {
    }

    lemma TailIsSlot()
      requires Valid()
      ensures tail < table.Length == CMD_LOG_DEPTH && table[tail] in slots
    {
    }

    /** Makes room in a slot: if its command is still outstanding, the request keeps a private copy. */
    method Relocate(entry: LogEntry)
      requires Valid() && entry in slots
      modifies this`copies, this`heap, entry, outstanding.Keys`entry
      ensures ValidBut(entry) && old(heap) <= heap && fresh(heap - old(heap))
      ensures entry.cmd == old(entry.cmd) && (old(entry.req) == null ==> copies == old(copies))
    {
      if entry.req != null {
        var owner := entry.req;
        entry.overlapAllocated := true;
        var copy := new LogEntry(entry.cmd, entry.req, entry.overlapAllocated, -1);
        owner.entry := copy;
        copies, heap := copies + {copy}, heap + {copy};
      }
    }

    /** Links a request and a vacant slot. */
    method Occupy(entry: LogEntry, req: Request)
      requires ValidBut(entry) && entry in slots && req !in outstanding
      modifies this`outstanding, entry, req`entry
      ensures ValidBut(null) && outstanding == old(outstanding)[req := req.cmd]
      ensures entry.cmd == req.cmd && entry.req == req && req.entry == entry
    {
      entry.overlapAllocated := false;
      entry.cmd := req.cmd;
      entry.req := req;
      req.entry := entry;
      outstanding := outstanding[req := req.cmd];
      forall r | r in outstanding
        ensures Linked(r)
      {
        if r != req {
          assert old(Linked(r)) && r.entry == old(r.entry) != entry;
        }
      }
    }

    /** Logs a request in a slot, vacated first. */
    method Store(entry: LogEntry, req: Request)
      requires Valid() && entry in slots && req !in outstanding
      modifies this`outstanding, this`copies, this`heap, entry, outstanding.Keys`entry, req`entry
      ensures Valid()
      ensures outstanding == old(outstanding)[req := req.cmd]
      ensures old(heap) <= heap && fresh(heap - old(heap))
      ensures entry.cmd == req.cmd && entry.req == req && req.entry == entry
      ensures old(entry.req) == null ==> copies == old(copies)
    {
      hide ValidBut;
      Relocate(entry);
      Occupy(entry, req);
    }

    lemma SlotsDiffer(i: nat)
      requires Valid() && i < CMD_LOG_DEPTH
      ensures table.Length == CMD_LOG_DEPTH && forall j :: 0 <= j < CMD_LOG_DEPTH && j != i ==> table[j] != table[i]
    {
      assert forall j :: 0 <= j < CMD_LOG_DEPTH ==> table[j].slot == j;
    }

    /** Logs a request in the slot at the tail. `head_index` is not modelled: nothing reads it. */
    method AddCmd(req: Request)
      requires Valid() && req !in outstanding
      modifies this`tail, this`outstanding, this`copies, this`heap, slots, outstanding.Keys`entry, req`entry
      ensures Valid()
      ensures outstanding == old(outstanding)[req := req.cmd]
      ensures tail == (old(tail) + 1) % CMD_LOG_DEPTH
      ensures old(heap) <= heap && fresh(heap - old(heap))
      ensures table.Length == CMD_LOG_DEPTH && old(tail) < CMD_LOG_DEPTH
      ensures forall j :: 0 <= j < CMD_LOG_DEPTH && j != old(tail) ==>
        table[j].cmd == old(table[j].cmd) && table[j].req == old(table[j].req)
      ensures req.entry == table[old(tail)] && table[old(tail)].cmd == req.cmd
      ensures old(table[tail].req) == null ==> copies == old(copies)
    {
      TailIsSlot();
      SlotsDiffer(tail);
      hide ValidBut;
      Store(table[tail], req);
      tail := tail + 1;
      if tail == CMD_LOG_DEPTH {
        tail := 0;
      }
    }

    /** Completes a request and returns the command it was logged with; the lost-entry assertion of the
        handler is the assertion in the body. */
    method CmdCpl(req: Request) returns (cmd: Command, logged: bool)
      requires Valid() && (req in outstanding || req.entry == null)
      modifies this`outstanding, this`heap, this`freed, slots, heap, req`entry
      ensures Valid()
      ensures logged <==> req in old(outstanding)
      ensures logged ==> cmd == old(outstanding[req])
      ensures outstanding == old(outstanding) - {req} && req.entry == null
      ensures if logged && old(req.entry) in old(heap)
              then heap == old(heap) - {old(req.entry)} && freed == old(freed) + {old(req.entry)}
                   && old(req.entry) !in old(freed)
              else heap == old(heap) && freed == old(freed)
      ensures forall j :: 0 <= j < table.Length ==>
        table[j].cmd == old(table[j].cmd) && (old(table[j].req) == null ==> table[j].req == null)
    {
      cmd := req.cmd;
      logged := req.entry != null;
      if !logged {
        return;
      }
      var entry := req.entry;
      assert entry.req == req;
      cmd := entry.cmd;
      entry.req := null;
      req.entry := null;
      outstanding := outstanding - {req};
      if entry.overlapAllocated {
        assert entry in heap && entry !in freed;
        heap := heap - {entry};
        freed := freed + {entry};
      }
      forall r | r in outstanding
        ensures Linked(r)
      {
        assert old(Linked(r)) && r.entry == old(r.entry) != entry;
      }
      forall e | e in slots + heap && e.req != null
        ensures Owned(e)
      {
        assert old(Owned(e)) && e.req == old(e.req) != req;
      }
    }
  }

  // ---------- runs ----------

  /** A call of the log: a request is logged, or completes. */
  datatype Call = Logs(req: Request) | Completes(req: Request)

  /** The requests outstanding after a run. */
  ghost function Live(calls: seq<Call>): set<Request> {
    if calls == [] then {}
    else match calls[|calls| - 1]
      case Logs(r) => Live(calls[..|calls| - 1]) + {r}
      case Completes(r) => Live(calls[..|calls| - 1]) - {r}
  }

  /** A request is not logged again before it completes, and only logged requests complete. */
  ghost predicate Legal(calls: seq<Call>) {
    forall k :: 0 <= k < |calls| ==>
      if calls[k].Logs? then calls[k].req !in Live(calls[..k]) else calls[k].req in Live(calls[..k])
  }

  /** The requests logged in a run, in order. */
  ghost function Logged(calls: seq<Call>): seq<Request> {
    if calls == [] then []
    else
      var before := Logged(calls[..|calls| - 1]);
      match calls[|calls| - 1]
      case Logs(r) => before + [r]
      case Completes(_) => before
  }

  /** Every outstanding request is logged with its own command. The ring holds the last commands logged, number `n` in slot `n` modulo the depth of the ring, and
      nothing was moved to the heap before the ring was full. */
  ghost predicate IsRing(log: Log, logged: seq<Request>)
    reads log, log.table, log.table[..], logged, log.outstanding.Keys
  {
    && (forall r :: r in log.outstanding ==> log.outstanding[r] == r.cmd)
    && log.table.Length == CMD_LOG_DEPTH && log.tail == |logged| % CMD_LOG_DEPTH
    && (forall n :: 0 <= n < |logged| && |logged| - CMD_LOG_DEPTH <= n ==>
          log.table[n % CMD_LOG_DEPTH].cmd == logged[n].cmd)
    && (|logged| <= CMD_LOG_DEPTH ==>
          log.copies == {} && forall j :: |logged| <= j < CMD_LOG_DEPTH ==> log.table[j].req == null)
  }

  lemma SlotsApart(n: nat, m: nat)
    requires n < m < n + CMD_LOG_DEPTH
    ensures n % CMD_LOG_DEPTH != m % CMD_LOG_DEPTH
  {
  }

  /** The requests of a run. */
  ghost function Involved(calls: seq<Call>): set<Request> {
    set c | c in calls :: c.req
  }

  method LogOne(log: Log, r: Request, ghost logged: seq<Request>, ghost reqs: set<Request>)
    requires log.Valid() && r !in log.outstanding && IsRing(log, logged) && log.outstanding.Keys <= reqs && r in reqs
    modifies log, log.slots, reqs`entry
    ensures log.Valid() && log.outstanding == old(log.outstanding)[r := r.cmd]
    ensures log.outstanding.Keys <= reqs && fresh(log.heap - old(log.heap))
    ensures IsRing(log, logged + [r])
  {
    hide Log.ValidBut;
    forall n | 0 <= n < |logged| && |logged| + 1 - CMD_LOG_DEPTH <= n
      ensures n % CMD_LOG_DEPTH != |logged| % CMD_LOG_DEPTH
    {
      SlotsApart(n, |logged|);
    }
    log.AddCmd(r);
  }

  lemma OwnCommands(log: Log, logged: seq<Request>)
    requires IsRing(log, logged)
    ensures forall r :: r in log.outstanding ==> log.outstanding[r] == r.cmd
  {
  }

  lemma RunStep(calls: seq<Call>, k: nat)
    requires k <= |calls|
    ensures Live([]) == {} && Logged([]) == [] && calls[..0] == []
    ensures k < |calls| && calls[k].Logs? ==>
      && Live(calls[..k + 1]) == Live(calls[..k]) + {calls[k].req}
      && Logged(calls[..k + 1]) == Logged(calls[..k]) + [calls[k].req]
    ensures k < |calls| && calls[k].Completes? ==>
      Live(calls[..k + 1]) == Live(calls[..k]) - {calls[k].req} && Logged(calls[..k + 1]) == Logged(calls[..k])
  {
    if k < |calls| {
      assert calls[..k + 1][..k] == calls[..k] && calls[..k + 1][k] == calls[k];
    }
  }

  method CompleteOne(log: Log, r: Request, ghost logged: seq<Request>, ghost reqs: set<Request>)
    requires log.Valid() && r in log.outstanding && IsRing(log, logged) && log.outstanding.Keys <= reqs
    modifies log, log.slots, log.heap, reqs`entry
    ensures log.Valid() && log.outstanding == old(log.outstanding) - {r}
    ensures log.outstanding.Keys <= reqs && log.heap <= old(log.heap) && IsRing(log, logged)
  {
    hide Log.ValidBut;
    var cmd, found := log.CmdCpl(r);
  }

  /** Any run, whatever its length: the ring wraps as often as it likes and always holds the last commands
      logged; every outstanding request keeps the entry that holds its own command; and every heap copy ever
      made is either such an entry or freed (once: copies that are freed are not allocated any more). */
  method Run(log: Log, calls: seq<Call>)
    requires log.Valid() && log.outstanding == map[] && log.copies == {} && Legal(calls) && IsRing(log, [])
    modifies log, log.slots, Involved(calls)`entry
    ensures log.Valid() && log.outstanding.Keys == Live(calls)
    ensures forall r :: r in Live(calls) ==> log.outstanding[r] == r.cmd
    ensures Live(calls) == {} ==> log.heap == {} && log.freed == log.copies
    ensures IsRing(log, Logged(calls))
  {
    assert log.heap == {};
    hide Log.Valid, IsRing, Live, Logged;
    RunStep(calls, 0);
    for k := 0 to |calls|
      invariant log.Valid() && log.outstanding.Keys == Live(calls[..k])
      invariant log.outstanding.Keys <= Involved(calls)
      invariant fresh(log.heap) && IsRing(log, Logged(calls[..k]))
    {
      RunStep(calls, k);
      assert calls[k].req in Involved(calls);
      match calls[k] {
        case Logs(r) => LogOne(log, r, Logged(calls[..k]), Involved(calls));
        case Completes(r) => CompleteOne(log, r, Logged(calls[..k]), Involved(calls));
      }
    }
    assert calls[..|calls|] == calls;
    OwnCommands(log, Logged(calls));
    if log.outstanding == map[] {
      log.NoneLeft();
    }
  }
}
