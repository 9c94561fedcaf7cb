/** The circular log of the commands a worker completed. */
module CompletionRing {
  import opened LbaGenerator

  const BLANK := Io(0, 0, 0)

  /** The last `n` entries of a history that was preceded by blanks. */
  function LastOf(history: seq<Io>, n: nat): (r: seq<Io>)
    ensures |r| == n
  {
    (seq(n, _ => BLANK) + history)[|history|..]
  }

  /** Counted from the end, the entries are the latest ones of the history; what is left is blank. */
  lemma LastOfAt(history: seq<Io>, n: nat, j: nat)
    requires j < n
    ensures LastOf(history, n)[n - 1 - j] == if j < |history| then history[|history| - 1 - j] else Io(0, 0, 0)
  {
  }

  lemma LastOfSnoc(history: seq<Io>, n: nat, io: Io)
    requires n > 0
    ensures LastOf(history + [io], n) == LastOf(history, n)[1..] + [io]
  {
    var padded := seq(n, _ => BLANK) + history;
    assert seq(n, _ => BLANK) + (history + [io]) == padded + [io];
  }

  /** A list read from position `i` on, then from its start. */
  function Rotated(list: seq<Io>, i: nat): seq<Io>
    requires i <= |list|
  {
    list[i..] + list[..i]
  }

  /** Overwriting the oldest entry drops it and appends the new one. */
  lemma Advance(list: seq<Io>, i: nat, io: Io)
    requires i < |list|
    ensures Rotated(list[i := io], i + 1) == Rotated(list, i)[1..] + [io]
  {
  }

  class Ring {
    var list: array<Io>
    var current: nat
    /** Every command recorded so far. */
    ghost var history: seq<Io>

    ghost predicate Valid()
      reads this, list
    {
      && current <= list.Length
      && Rotated(list[..], current) == LastOf(history, list.Length)
    }

    constructor (length: nat)
      ensures Valid() && history == [] && list.Length == length && fresh(list)
    {
      list := new Io[length](_ => BLANK);
      current, history := 0, [];
      new;
      assert list[..] == seq(length, _ => BLANK);
    }

    /** Overwrites the oldest entry; the index wraps when the next entry needs it. */
    method Record(io: Io)
      requires Valid()
      modifies this`current, this`history, list
      ensures Valid() && list == old(list)
      ensures history == if list.Length == 0 then old(history) else old(history) + [io]
    {
      if list.Length != 0 {
        var index := current;
        current := current + 1;
        if index == list.Length {
          index := 0;
          current := 1;
        }
        LastOfSnoc(history, list.Length, io);
        Advance(list[..], index, io);
        assert Rotated(list[..], index) == old(Rotated(list[..], current));
        list[index] := io;
        assert list[..] == old(list[..])[index := io];
        history := history + [io];
      }
    }

    /** The final report: oldest entry first. */
    method Unroll()
      requires Valid()
      modifies list
      ensures list[..] == LastOf(history, list.Length)
    {
      hide LastOf;
      ghost var was := list[..];
      var head, length := current, list.Length;
      var tmp := new Io[length](_ => BLANK);
      Memcpy(tmp, 0, list, head, length - head);
      assert tmp[..length - head] == was[head..];
      Memcpy(tmp, length - head, list, 0, head);
      assert tmp[..] == Rotated(was, head);
      Memcpy(list, 0, tmp, 0, length);
      assert list[..] == tmp[..];
    }
  }

  method Memcpy(dst: array<Io>, at: nat, src: array<Io>, from: nat, n: nat)
    requires dst != src && at + n <= dst.Length && from + n <= src.Length
    modifies dst
    ensures dst[..] == old(dst[..at]) + src[from..from + n] + old(dst[at + n..])
  {
    for i := 0 to n
      invariant forall k :: 0 <= k < dst.Length ==>
        dst[k] == if at <= k < at + i then src[from + (k - at)] else old(dst[k])
    {
      dst[at + i] := src[from + i];
    }
  }
}
