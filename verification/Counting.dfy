/** Occurrences in a sequence, and sums. */
module Counting {

  function Count<T(==)>(s: seq<T>, v: T): nat {
    if s == [] then 0 else Count(s[..|s| - 1], v) + if s[|s| - 1] == v then 1 else 0
  }

  lemma CountSnoc<T>(s: seq<T>, x: T, v: T)
    ensures Count(s + [x], v) == Count(s, v) + if x == v then 1 else 0
  {
    assert (s + [x])[..|s|] == s;
  }

  lemma {:induction false} CountConcat<T>(a: seq<T>, b: seq<T>, v: T)
    ensures Count(a + b, v) == Count(a, v) + Count(b, v)
  {
    if b == [] {
      assert a + b == a;
    } else {
      assert (a + b)[..|a + b| - 1] == a + b[..|b| - 1];
      CountConcat(a, b[..|b| - 1], v);
    }
  }

  lemma {:induction false} CountAtMost<T>(s: seq<T>, v: T)
    ensures Count(s, v) <= |s|
  {
    if s != [] {
      CountAtMost(s[..|s| - 1], v);
    }
  }

  lemma {:induction false} CountRepeat<T>(s: seq<T>, x: T, v: T)
    requires forall k :: 0 <= k < |s| ==> s[k] == x
    ensures Count(s, v) == if x == v then |s| else 0
  {
    if s != [] {
      CountRepeat(s[..|s| - 1], x, v);
    }
  }

  lemma {:induction false} CountFirst(s: seq<bool>, n: nat)
    requires n <= |s| && forall k :: 0 <= k < |s| ==> (s[k] <==> k < n)
    ensures Count(s, true) == n
  {
    CountRepeat(s[..n], true, true);
    CountRepeat(s[n..], false, true);
    CountConcat(s[..n], s[n..], true);
    assert s == s[..n] + s[n..];
  }

  function Sum(s: seq<nat>): nat {
    if s == [] then 0 else Sum(s[..|s| - 1]) + s[|s| - 1]
  }

  lemma {:induction false} SumPrefix(s: seq<nat>, k: nat)
    requires k <= |s|
    ensures Sum(s[..k]) <= Sum(s)
    decreases |s|
  {
    if k < |s| {
      SumPrefix(s[..|s| - 1], k);
      assert s[..|s| - 1][..k] == s[..k];
    } else {
      assert s[..k] == s;
    }
  }

  lemma {:induction false} SumZero(n: nat)
    ensures Sum(seq(n, _ => 0)) == 0
  {
    if n > 0 {
      assert seq(n, _ => 0)[..n - 1] == seq(n - 1, _ => 0);
      SumZero(n - 1);
    }
  }

  lemma {:induction false} SumUpdate(s: seq<nat>, v: nat)
    requires v < |s|
    ensures Sum(s[v := s[v] + 1]) == Sum(s) + 1
  {
    var n := |s| - 1;
    if v == n {
      assert s[v := s[v] + 1][..n] == s[..n];
    } else {
      assert s[v := s[v] + 1][..n] == s[..n][v := s[v] + 1];
      SumUpdate(s[..n], v);
    }
  }

  // ---------- distinct numbers ----------

  ghost predicate Distinct(s: seq<nat>) {
    forall i, j :: 0 <= i < j < |s| ==> s[i] != s[j]
  }

  lemma {:induction false} DistinctCount(s: seq<nat>)
    requires Distinct(s)
    ensures |set i | 0 <= i < |s| :: s[i]| == |s|
  {
    var all := set i | 0 <= i < |s| :: s[i];
    if s != [] {
      var n := |s| - 1;
      var front := set i | 0 <= i < n :: s[..n][i];
      DistinctCount(s[..n]);
      assert all == front + {s[n]};
    }
  }

  lemma {:induction false} AtMost(s: set<nat>, n: nat)
    requires forall c :: c in s ==> c < n
    ensures |s| <= n
  {
    if n > 0 {
      AtMost(s - {n - 1}, n - 1);
    } else {
      assert s == {};
    }
  }

  /** `n + 1` distinct numbers up to `n` include `n`. */
  lemma LastIncluded(p: seq<nat>, n: nat) returns (j: nat)
    requires Distinct(p) && |p| == n + 1 && forall k :: 0 <= k < |p| ==> p[k] <= n
    ensures j < |p| && p[j] == n
  {
    if forall k :: 0 <= k < |p| ==> p[k] != n {
      DistinctCount(p);
      AtMost(set i | 0 <= i < |p| :: p[i], n);
      assert false;
    }
    j :| 0 <= j < |p| && p[j] == n;
  }

  function Without<T>(s: seq<T>, j: nat): (r: seq<T>)
    requires j < |s|
    ensures |r| == |s| - 1
    ensures forall k :: 0 <= k < |r| ==> r[k] == s[if k < j then k else k + 1]
  {
    s[..j] + s[j + 1..]
  }

  lemma {:induction false} CountWithout<T>(s: seq<T>, j: nat, v: T)
    requires j < |s|
    ensures Count(s, v) == Count(Without(s, j), v) + if s[j] == v then 1 else 0
  {
    hide Count;
    var a, b := s[..j], s[j + 1..];
    assert s == a + [s[j]] + b && Without(s, j) == a + b;
    CountConcat(a, b, v);
    CountSnoc(a, s[j], v);
    CountConcat(a + [s[j]], b, v);
  }

  /** Picking every element once, in any order, keeps all counts. */
  lemma {:induction false} CountPermuted<T>(s: seq<T>, p: seq<nat>, t: seq<T>, v: T)
    requires |p| == |s| == |t| && Distinct(p)
    requires forall k :: 0 <= k < |p| ==> p[k] < |s| && t[k] == s[p[k]]
    ensures Count(t, v) == Count(s, v)
  {
    if s != [] {
      var n := |s| - 1;
      var j := LastIncluded(p, n);
      hide Without;
      CountWithout(t, j, v);
      CountPermuted(s[..n], Without(p, j), Without(t, j), v);
    }
  }
}
