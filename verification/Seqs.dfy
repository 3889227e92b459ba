/** Taking one element out of a sequence. */
module Seqs {

  function Without<T>(s: seq<T>, j: nat): (r: seq<T>)
    requires j < |s|
    ensures |r| == |s| - 1
  {
    s[..j] + s[j + 1..]
  }

  lemma TakeOut<T>(s: seq<T>, j: nat)
    requires j < |s|
    ensures multiset(Without(s, j)) == multiset(s) - multiset{s[j]}
  {
    assert s == s[..j] + [s[j]] + s[j + 1..];
  }

  lemma WithoutLast<T>(s: seq<T>, j: nat)
    requires j < |s| - 1
    ensures Without(s, j)[|s| - 2] == s[|s| - 1]
    ensures Without(s, j)[..|s| - 2] == Without(s[..|s| - 1], j)
  {}

  /** The counterpart of element i of a in its permutation b. */
  lemma Match<T>(a: seq<T>, i: nat, b: seq<T>) returns (j: nat)
    requires i < |a| && multiset(a) == multiset(b)
    ensures j < |b| && b[j] == a[i] && multiset(Without(a, i)) == multiset(Without(b, j))
  {
    assert a[i] in multiset(b);
    j :| 0 <= j < |b| && b[j] == a[i];
    TakeOut(a, i);
    TakeOut(b, j);
  }

  lemma SameLength<T>(a: seq<T>, b: seq<T>)
    requires multiset(a) == multiset(b)
    ensures |a| == |b|
  {
    assert |multiset(a)| == |a| && |multiset(b)| == |b|;
  }

  /** The pieces f makes of the elements, one after the other. */
  ghost function Joined<S, T>(f: S -> seq<T>, s: seq<S>): seq<T> {
    if s == [] then [] else f(s[0]) + Joined(f, s[1..])
  }

  lemma {:induction false} JoinedAppend<S, T>(f: S -> seq<T>, s: seq<S>, x: S)
    ensures Joined(f, s + [x]) == Joined(f, s) + f(x)
  {
    if s == [] {
      assert s + [x] == [x] && Joined(f, [x][1..]) == [];
    } else {
      assert (s + [x])[1..] == s[1..] + [x];
      JoinedAppend(f, s[1..], x);
    }
  }

  ghost function Sum<T>(f: T -> nat, s: seq<T>): nat {
    if s == [] then 0 else Sum(f, s[..|s| - 1]) + f(s[|s| - 1])
  }

  /** Exchanging one element changes the sum by the difference. */
  lemma {:induction false} SumUpdate<T>(f: T -> nat, s: seq<T>, i: nat, x: T)
    requires i < |s|
    ensures Sum(f, s[i := x]) + f(s[i]) == Sum(f, s) + f(x)
  {
    var n := |s| - 1;
    if i == n {
      assert s[i := x][..n] == s[..n];
    } else {
      SumUpdate(f, s[..n], i, x);
      assert s[i := x][..n] == s[..n][i := x];
    }
  }
}
