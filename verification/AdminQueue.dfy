/** Waiting for admin commands while asynchronous event requests (AERs) complete in between. */
module AdminQueue {
  import opened Counting

  /** A completion: of an ordinary command, or of an AER with its success. */
  datatype Cqe = Ordinary | Aer(success: bool)

  /** The completions of ordinary commands, and those of AERs with the given success. */
  function Commands(batch: seq<Cqe>): nat {
    Count(batch, Ordinary)
  }

  function Aers(batch: seq<Cqe>, success: bool): nat {
    Count(batch, Aer(success))
  }

  // ---------- when a wait ends ----------

  /** The polls that find an ordinary completion. */
  function Useful(polls: seq<seq<Cqe>>): nat {
    if polls == [] then 0 else (if Commands(polls[0]) > 0 then 1 else 0) + Useful(polls[1..])
  }

  /** After `got` completions, `commands` of them ordinary, a wait polls until it has the expected number;
      from then on each command still missing takes a poll of its own, whatever else that poll finds. */
  predicate WaitEnds(polls: seq<seq<Cqe>>, expected: nat, got: nat, commands: nat) {
    if got >= expected then commands + Useful(polls) >= expected
    else polls != [] && WaitEnds(polls[1..], expected, got + |polls[0]|, commands + Commands(polls[0]))
  }

  class Controller {
    /** The completions each future poll of the queue will find. */
    var polls: seq<seq<Cqe>>
    var reentry: bool
    var aerResend: nat
    var aerWaitdone: nat
    /** AERs at the controller. */
    var aers: int
    /** Everything reaped so far, in order. */
    ghost var reaped: seq<Cqe>

    constructor (polls: seq<seq<Cqe>>, aers: nat)
      ensures this.polls == polls && !reentry && this.aers == aers && reaped == []
    {
      this.polls, this.aers := polls, aers;
      reentry, aerResend, aerWaitdone, reaped := false, 0, 0, [];
    }

    /** Polls the queue once and runs the callback of every completion found. */
    method Poll() returns (count: nat)
      requires polls != []
      modifies this`polls, this`aerResend, this`aerWaitdone, this`aers, this`reaped
      ensures polls == old(polls)[1..] && count == |old(polls)[0]| && reaped == old(reaped) + old(polls)[0]
      ensures var b := old(polls)[0];
        && aerResend == old(aerResend) + Aers(b, true)
        && aerWaitdone == old(aerWaitdone) + Aers(b, true) + Aers(b, false)
        && aers == old(aers) - Aers(b, true) - Aers(b, false)
    {
      var b := polls[0];
      polls := polls[1..];
      count := |b|;
      for i := 0 to |b|
        modifies this`aerResend, this`aerWaitdone, this`aers
        invariant aerResend == old(aerResend) + Aers(b[..i], true)
        invariant aerWaitdone == old(aerWaitdone) + Aers(b[..i], true) + Aers(b[..i], false)
        invariant aers == old(aers) - Aers(b[..i], true) - Aers(b[..i], false)
      {
        assert b[..i + 1][..i] == b[..i];
        if b[i].Aer? {
          aerWaitdone := aerWaitdone + 1;
          aers := aers - 1;
          if b[i].success {
            aerResend := aerResend + 1;
          }
        }
      }
      assert b[..|b|] == b;
      reaped := reaped + b;
    }

    /** Polls until `expected` completions of any kind were reaped; false when the schedule ends first. */
    method Reap(expected: nat) returns (done: bool, count: nat, ghost news: seq<Cqe>)
      requires aerResend == aerWaitdone == 0
      modifies this`polls, this`aerResend, this`aerWaitdone, this`aers, this`reaped
      ensures done ==> count >= expected
      ensures Gained(old(reaped), news) && count == |news|
      ensures aerResend == Aers(news, true) && aerWaitdone == Aers(news, true) + Aers(news, false)
      ensures aers == old(aers) - Aers(news, true) - Aers(news, false)
      ensures |polls| <= |old(polls)| && (count > 0 ==> |polls| < |old(polls)|)
      ensures WaitEnds(old(polls), expected, 0, 0) <==> done && Commands(news) + Useful(polls) >= expected
      ensures done && expected == 1 ==> Useful(old(polls)) == Useful(polls) + if Commands(news) > 0 then 1 else 0
      ensures !done ==> polls == [] && (expected == 1 ==> Useful(old(polls)) == 0)
    {
      count, news := 0, [];
      while count < expected
        invariant Gained(old(reaped), news) && count == |news|
        invariant aerResend == Aers(news, true) && aerWaitdone == Aers(news, true) + Aers(news, false)
        invariant aers == old(aers) - Aers(news, true) - Aers(news, false)
        invariant |polls| <= |old(polls)| && (count > 0 ==> |polls| < |old(polls)|)
        invariant WaitEnds(old(polls), expected, 0, 0) <==> WaitEnds(polls, expected, count, Commands(news))
        invariant expected == 1 ==> Useful(old(polls)) == Useful(polls) + if Commands(news) > 0 then 1 else 0
        decreases |polls|
      {
        if polls == [] {
          return false, count, news;
        }
        CountConcat(news, polls[0], Aer(true));
        CountConcat(news, polls[0], Aer(false));
        CountConcat(news, polls[0], Ordinary);
        CountAtMost(news, Ordinary);
        news := news + polls[0];
        var found := Poll();
        count := count + found;
      }
      done := true;
    }

    ghost predicate Gained(before: seq<Cqe>, news: seq<Cqe>)
      reads this`reaped
    {
      reaped == before + news
    }

    /** `waitdone`: an AER reaped instead of an awaited command is made up for by one more wait, and a
        successful AER is sent again. False means the wait never ends; `WaitEnds` says exactly when. */
    method Waitdone(expected: nat) returns (done: bool, ghost news: seq<Cqe>)
      requires !reentry
      modifies this
      ensures Gained(old(reaped), news)
      ensures done <==> WaitEnds(old(polls), expected, 0, 0)
      ensures expected == 1 ==> (done <==> Useful(old(polls)) > 0)
      ensures done && expected == 1 ==> Useful(polls) == Useful(old(polls)) - 1
      ensures done ==> !reentry
      ensures done ==> Commands(news) >= expected
      ensures done ==> aers == old(aers) - Aers(news, false)
      ensures |polls| <= |old(polls)|
      ensures done && expected > 0 ==> |polls| < |old(polls)|
      decreases |polls|
    {
      assert !reentry;
      reentry := true;
      aerResend, aerWaitdone := 0, 0;
      var count;
      done, count, news := Reap(expected);
      if !done {
        return;
      }
      reentry := false;
      KindsAddUp(news);
      for i := 0 to aerResend
        modifies this`aers
        invariant aers == old(aers) - Aers(news, true) - Aers(news, false) + i
      {
        aers := aers + 1;
      }
      if aerWaitdone > count - expected {
        var again := aerWaitdone - (count - expected);
        assert |polls| < |old(polls)|;
        ghost var first, after: int := news, Useful(polls);
        for i := 0 to again
          invariant !reentry && Gained(old(reaped), news)
          invariant Commands(news) >= Commands(first) + i
          invariant aers == old(aers) - Aers(news, false)
          invariant |polls| < |old(polls)|
          invariant Useful(polls) == after - i
        {
          ghost var more;
          done, more := Waitdone(1);
          CountConcat(news, more, Ordinary);
          CountConcat(news, more, Aer(false));
          news := news + more;
          if !done {
            return;
          }
        }
      }
    }
  }

  lemma {:induction false} KindsAddUp(a: seq<Cqe>)
    ensures Commands(a) + Aers(a, true) + Aers(a, false) == |a|
  {
    if a != [] {
      KindsAddUp(a[..|a| - 1]);
      match a[|a| - 1] {
        case Ordinary =>
        case Aer(success) => assert success in {true, false};
      }
    }
  }

  /** A wait can hang although every awaited command completed: two AERs first, then both commands in one
      poll. The first command made up for takes that poll, the second waits for ever. */
  lemma WaitHangs()
    ensures var polls := [[Aer(true), Aer(true)], [Ordinary, Ordinary]];
      Commands(polls[0]) + Commands(polls[1]) == 2 && !WaitEnds(polls, 2, 0, 0)
  {
    var polls := [[Aer(true), Aer(true)], [Ordinary, Ordinary]];
    var b := polls[1];
    assert b[..1] == [Ordinary] && [Ordinary][..0] == [];
    var a := polls[0];
    assert a[..1] == [Aer(true)] && [Aer(true)][..0] == [];
    assert Useful(polls[1..]) == 1;
    assert !WaitEnds(polls[1..], 2, 2, 0);
  }

  /** Everything the polls find. */
  function Flattened(polls: seq<seq<Cqe>>): seq<Cqe> {
    if polls == [] then [] else polls[0] + Flattened(polls[1..])
  }

  /** If each poll finds at most one completion, a wait ends exactly when enough commands complete. */
  lemma {:induction false} OneAtATime(polls: seq<seq<Cqe>>, expected: nat, got: nat, commands: nat)
    requires forall k :: 0 <= k < |polls| ==> |polls[k]| <= 1
    requires commands <= got <= expected
    ensures WaitEnds(polls, expected, got, commands) <==> commands + Commands(Flattened(polls)) >= expected
    decreases |polls|
  {
    if got == expected {
      UsefulIsCount(polls);
    } else if polls != [] {
      CountConcat(polls[0], Flattened(polls[1..]), Ordinary);
      CountAtMost(polls[0], Ordinary);
      OneAtATime(polls[1..], expected, got + |polls[0]|, commands + Commands(polls[0]));
    }
  }

  lemma {:induction false} UsefulIsCount(polls: seq<seq<Cqe>>)
    requires forall k :: 0 <= k < |polls| ==> |polls[k]| <= 1
    ensures Useful(polls) == Commands(Flattened(polls))
  {
    if polls != [] {
      CountConcat(polls[0], Flattened(polls[1..]), Ordinary);
      CountAtMost(polls[0], Ordinary);
      UsefulIsCount(polls[1..]);
    }
  }
}
