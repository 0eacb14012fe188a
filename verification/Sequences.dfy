/** Inserting into a sequence and dropping from it, position by position. */
module Sequences {

  function Insert<T>(s: seq<T>, p: nat, x: T): (u: seq<T>)
    requires p <= |s|
    ensures |u| == |s| + 1 && u[p] == x
    ensures forall m | 0 <= m < p :: u[m] == s[m]
    ensures forall m | p < m < |u| :: u[m] == s[m - 1]
  {
    s[..p] + [x] + s[p..]
  }

  function Drop<T>(s: seq<T>, p: nat): (u: seq<T>)
    requires p < |s|
    ensures |u| == |s| - 1
    ensures forall m | 0 <= m < p :: u[m] == s[m]
    ensures forall m | p <= m < |u| :: u[m] == s[m + 1]
  {
    s[..p] + s[p + 1..]
  }

  lemma InsertMultiset<T>(s: seq<T>, p: nat, x: T)
    requires p <= |s|
    ensures multiset(Insert(s, p, x)) == multiset(s) + multiset{x}
  {
    assert s == s[..p] + s[p..];
  }

  lemma ReplaceMultiset<T>(s: seq<T>, p: nat, x: T)
    requires p < |s|
    ensures multiset(s[p := x]) == multiset(s) + multiset{x} - multiset{s[p]}
  {
    assert s == s[..p] + [s[p]] + s[p + 1..];
    assert s[p := x] == s[..p] + [x] + s[p + 1..];
  }

  lemma DropMultiset<T>(s: seq<T>, p: nat)
    requires p < |s|
    ensures multiset(s) == multiset(Drop(s, p)) + multiset{s[p]}
  {
    assert s == s[..p] + ([s[p]] + s[p + 1..]);
    assert multiset(Drop(s, p)) == multiset(s[..p]) + multiset(s[p + 1..]);
  }
}
