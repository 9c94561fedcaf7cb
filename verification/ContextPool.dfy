/** The fixed pool of I/O contexts of a worker. A context is idle, waits in the pending FIFO for its
    time, or is with the queue pair. */
module ContextPool {
  import opened Clock
  import opened Counting

  /** One insertion into the FIFO: which context, not before when, and for which trace entry. */
  datatype Insertion = Insertion(ctx: nat, due: Timeval, traceIndex: nat)

  class Pool {
    const size: nat
    var sent: nat
    var completed: nat
    var pending: seq<nat>
    var timeSent: seq<Timeval>
    var traceIndex: seq<nat>
    /** The contexts whose command the queue pair has accepted and not completed. */
    var inflight: set<nat>
    /** Commands the queue pair refused. */
    ghost var failed: nat
    /** Every insertion, and the time of every removal, in order. */
    ghost var inserted: seq<Insertion>
    ghost var dispatched: seq<Timeval>

    /** Sent commands are completed, pending, in flight or refused, and nothing else. */
    ghost predicate Conserved()
      reads this`sent, this`completed, this`pending, this`inflight, this`failed, this`inserted, this`dispatched
    {
      && sent == completed + |pending| + |inflight| + failed
      && |inserted| == sent
      && |dispatched| + |pending| == sent
    }

    /** Each context is in at most one place. */
    ghost predicate OnePlaceEach()
      reads this`pending, this`inflight
    {
      && (forall i :: 0 <= i < |pending| ==> pending[i] < size && pending[i] !in inflight)
      && (forall i, j :: 0 <= i < j < |pending| ==> pending[i] != pending[j])
      && (forall c :: c in inflight ==> c < size)
    }

    /** The FIFO holds the insertions not yet dispatched, and nothing was dispatched before its time. */
    ghost predicate InOrder()
      reads this`pending, this`timeSent, this`traceIndex, this`inserted, this`dispatched
    {
      && |timeSent| == |traceIndex| == size
      && |dispatched| + |pending| == |inserted|
      && (forall j :: 0 <= j < |pending| ==> pending[j] < size)
      && (forall j :: 0 <= j < |pending| ==>
            inserted[|dispatched| + j] == Insertion(pending[j], timeSent[pending[j]], traceIndex[pending[j]]))
      && (forall k :: 0 <= k < |dispatched| ==> Later(dispatched[k], inserted[k].due))
    }

    ghost predicate Valid()
      reads this
    {
      Conserved() && OnePlaceEach() && InOrder()
    }

    predicate Idle(c: nat)
      reads this`pending, this`inflight
    {
      c < size && c !in pending && c !in inflight
    }

    constructor (size: nat)
      ensures Valid() && this.size == size
      ensures sent == completed == failed == 0 && pending == [] && inflight == {} && inserted == [] && dispatched == []
    {
      this.size := size;
      sent, completed, failed := 0, 0, 0;
      pending, inflight, inserted, dispatched := [], {}, [], [];
      timeSent, traceIndex := seq(size, _ => Timeval(0, 0)), seq(size, _ => 0);
    }

    /** Sets when an idle context is to be sent, and for which trace entry. */
    method Schedule(c: nat, due: Timeval, index: nat)
      requires Valid() && Idle(c)
      modifies this`timeSent, this`traceIndex
      ensures Valid() && |timeSent| == |traceIndex| == size
      ensures timeSent == old(timeSent)[c := due] && traceIndex == old(traceIndex)[c := index]
    {
      timeSent := timeSent[c := due];
      traceIndex := traceIndex[c := index];
    }

    method Insert(c: nat)
      requires Valid() && Idle(c)
      modifies this`pending, this`sent, this`inserted
      ensures Valid()
      ensures pending == old(pending) + [c] && sent == old(sent) + 1
      ensures inserted == old(inserted) + [Insertion(c, timeSent[c], traceIndex[c])]
    {
      pending := pending + [c];
      sent := sent + 1;
      inserted := inserted + [Insertion(c, timeSent[c], traceIndex[c])];
    }

    /** Takes the head of the FIFO, whose time has come, to the queue pair. */
    method Dispatch(now: Timeval, accepted: bool, sentAt: Timeval) returns (c: nat)
      requires Valid() && pending != [] && Later(now, timeSent[pending[0]])
      modifies this`pending, this`inflight, this`failed, this`dispatched, this`timeSent
      ensures Valid()
      ensures c == old(pending)[0] && pending == old(pending)[1..] && dispatched == old(dispatched) + [now]
      ensures inflight == if accepted then old(inflight) + {c} else old(inflight)
      ensures failed == if accepted then old(failed) else old(failed) + 1
      ensures timeSent == if accepted then old(timeSent)[c := sentAt] else old(timeSent)
    {
      c := pending[0];
      if accepted {
        timeSent := timeSent[c := sentAt];
        inflight := inflight + {c};
      } else {
        failed := failed + 1;
      }
      pending := pending[1..];
      dispatched := dispatched + [now];
    }

    lemma Sized()
      requires Valid()
      ensures |timeSent| == |traceIndex| == size
    {
    }

    lemma InRange(c: nat)
      requires Valid() && c in inflight
      ensures c < size == |timeSent| == |traceIndex|
    {
    }

    method Reap(c: nat)
      requires Valid() && c in inflight
      modifies this`inflight, this`completed
      ensures Valid() && Idle(c)
      ensures inflight == old(inflight) - {c} && completed == old(completed) + 1
    {
      inflight := inflight - {c};
      completed := completed + 1;
    }

    /** The pool bounds the commands outstanding. */
    lemma Bounded()
      requires OnePlaceEach()
      ensures |pending| + |inflight| <= size
    {
      var waiting := set i | 0 <= i < |pending| :: pending[i];
      DistinctCount(pending);
      assert waiting !! inflight;
      assert |waiting + inflight| == |waiting| + |inflight|;
      AtMost(waiting + inflight, size);
    }
  }
}
