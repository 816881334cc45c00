/** The elements of a linked list, in order and without repetition. */
module Chains {
  ghost function Nodes<T>(c: seq<T>): set<T> {
    set m | m in c
  }

  ghost predicate Distinct<T>(c: seq<T>) {
    forall i, j :: 0 <= i < j < |c| ==> c[i] != c[j]
  }

  ghost function Removed<T>(c: seq<T>, k: nat): seq<T>
    requires k < |c|
  {
    c[..k] + c[k + 1..]
  }

  ghost function Inserted<T>(c: seq<T>, k: nat, m: T): seq<T>
    requires k <= |c|
  {
    c[..k] + [m] + c[k..]
  }

  lemma RemovedElements<T>(c: seq<T>, k: nat)
    requires Distinct(c) && k < |c|
    ensures |Removed(c, k)| == |c| - 1 && Distinct(Removed(c, k)) && Nodes(Removed(c, k)) == Nodes(c) - {c[k]}
    ensures forall i :: 0 <= i < |c| - 1 ==> Removed(c, k)[i] == if i < k then c[i] else c[i + 1]
  {
    assert c == c[..k] + [c[k]] + c[k + 1..];
  }

  lemma InsertedElements<T>(c: seq<T>, k: nat, m: T)
    requires Distinct(c) && k <= |c| && m !in c
    ensures |Inserted(c, k, m)| == |c| + 1 && Distinct(Inserted(c, k, m)) && Nodes(Inserted(c, k, m)) == Nodes(c) + {m}
    ensures forall i :: 0 <= i < |c| + 1 ==> Inserted(c, k, m)[i] == if i < k then c[i] else if i == k then m else c[i - 1]
  {
    assert c == c[..k] + c[k..];
  }
}
