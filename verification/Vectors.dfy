/** What the source does with std::vector: find an element by its id, erase, insert, reorder. */
module Vectors {
  /** The position of the first element with this id, or the length: std::find_if by id. */
  function Find<T>(s: seq<T>, id: string, idOf: T -> string): (i: nat)
    ensures i <= |s| && (i < |s| ==> idOf(s[i]) == id)
    ensures forall j | 0 <= j < i :: idOf(s[j]) != id
  {
    if s == [] || idOf(s[0]) == id then 0 else 1 + Find(s[1..], id, idOf)
  }

  function RemoveAt<T>(s: seq<T>, i: nat): (r: seq<T>)
    requires i < |s|
  {
    s[..i] + s[i + 1..]
  }

  function InsertAt<T>(s: seq<T>, i: nat, x: T): (r: seq<T>)
    requires i <= |s|
  {
    s[..i] + [x] + s[i..]
  }

  /** The i-th element taken out and put back in at `target`. */
  function Reorder<T>(s: seq<T>, i: nat, target: nat): (r: seq<T>)
    requires i < |s| && target < |s|
  {
    InsertAt(RemoveAt(s, i), target, s[i])
  }

  lemma RemovedMultiset<T>(s: seq<T>, i: nat)
    requires i < |s|
    ensures multiset(s) == multiset(RemoveAt(s, i)) + multiset{s[i]}
  {
    assert s == s[..i] + [s[i]] + s[i + 1..];
  }

  lemma InsertedMultiset<T>(s: seq<T>, i: nat, x: T)
    requires i <= |s|
    ensures multiset(InsertAt(s, i, x)) == multiset(s) + multiset{x}
  {
    assert s == s[..i] + s[i..];
  }

  lemma InsertThenRemove<T>(s: seq<T>, i: nat, x: T)
    requires i <= |s|
    ensures RemoveAt(InsertAt(s, i, x), i) == s && InsertAt(s, i, x)[i] == x
  {
  }

  lemma RemoveThenInsert<T>(s: seq<T>, i: nat)
    requires i < |s|
    ensures InsertAt(RemoveAt(s, i), i, s[i]) == s
  {
  }

  /** Reordering keeps the elements and the order of the others, and can be undone. */
  lemma ReorderKeeps<T>(s: seq<T>, i: nat, target: nat)
    requires i < |s| && target < |s|
    ensures |Reorder(s, i, target)| == |s| && Reorder(s, i, target)[target] == s[i]
    ensures RemoveAt(Reorder(s, i, target), target) == RemoveAt(s, i)
    ensures multiset(Reorder(s, i, target)) == multiset(s)
    ensures Reorder(Reorder(s, i, target), target, i) == s
  {
    RemovedMultiset(s, i);
    InsertedMultiset(RemoveAt(s, i), target, s[i]);
    InsertThenRemove(RemoveAt(s, i), target, s[i]);
    RemoveThenInsert(s, i);
  }
}
