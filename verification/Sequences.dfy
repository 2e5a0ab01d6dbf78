/** Inserting into and removing from sequences, as the lists of the repository do. */
module Sequences {

  /** The first position whose value is above v: where v goes, after its equals. */
  function FirstAbove(vals: seq<int>, v: int): (k: nat)
    ensures k <= |vals| && (forall i | 0 <= i < k :: vals[i] <= v) && (k < |vals| ==> vals[k] > v)
  {
    if vals == [] || vals[0] > v then 0 else 1 + FirstAbove(vals[1..], v)
  }

  predicate Sorted(vals: seq<int>) {
    forall i, j | 0 <= i < j < |vals| :: vals[i] <= vals[j]
  }

  function InsertAt<T>(s: seq<T>, k: nat, x: T): seq<T>
    requires k <= |s|
  {
    s[..k] + [x] + s[k..]
  }

  function RemoveAt<T>(s: seq<T>, k: nat): seq<T>
    requires k < |s|
  {
    s[..k] + s[k + 1..]
  }

  lemma InsertMembers<T>(s: seq<T>, k: nat, x: T)
    requires k <= |s|
    ensures forall y :: y in InsertAt(s, k, x) <==> y in s || y == x
  {
    assert s == s[..k] + s[k..];
  }

  lemma InsertBetween<T>(a: T, s: seq<T>, k: nat, x: T)
    requires k <= |s|
    ensures [a] + InsertAt(s, k, x) + [a] == InsertAt([a] + s + [a], k + 1, x)
  {
  }

  lemma RemoveBetween<T>(a: T, s: seq<T>, k: nat)
    requires k < |s|
    ensures [a] + RemoveAt(s, k) + [a] == RemoveAt([a] + s + [a], k + 1)
  {
  }

  lemma FirstAboveIs(vals: seq<int>, v: int, k: nat)
    requires k <= |vals| && (forall i | 0 <= i < k :: vals[i] <= v) && (k < |vals| ==> vals[k] > v)
    ensures k == FirstAbove(vals, v)
  {
  }

  /** Insertion keeps the order, and the new value comes after all its equals. */
  lemma InsertSorted(vals: seq<int>, v: int)
    requires Sorted(vals)
    ensures Sorted(InsertAt(vals, FirstAbove(vals, v), v))
    ensures forall i | FirstAbove(vals, v) <= i < |vals| :: vals[i] > v
  {
  }

  lemma InsertInOrder(vals: seq<int>, v: int)
    ensures Sorted(vals) ==> Sorted(InsertAt(vals, FirstAbove(vals, v), v))
  {
    if Sorted(vals) {
      InsertSorted(vals, v);
    }
  }

  lemma RemoveInOrder(vals: seq<int>, k: nat)
    requires k < |vals|
    ensures Sorted(vals) ==> Sorted(RemoveAt(vals, k))
  {
  }

  lemma MoveHead<T>(a: seq<T>, s: seq<T>)
    requires s != []
    ensures a + s == (a + [s[0]]) + s[1..]
  {
  }

  lemma Associates<T>(a: seq<T>, b: seq<T>, c: seq<T>)
    ensures (a + b) + c == a + (b + c)
  {
  }

  /** Where x is in s, or the length. */
  function IndexOf<T(==)>(s: seq<T>, x: T): (k: nat)
    ensures k <= |s| && (k < |s| <==> x in s) && (k < |s| ==> s[k] == x)
  {
    if s == [] || s[0] == x then 0 else 1 + IndexOf(s[1..], x)
  }

  predicate NoRepeats<T(==)>(s: seq<T>) {
    forall i, j | 0 <= i < j < |s| :: s[i] != s[j]
  }

  lemma RemoveOnly<T>(s: seq<T>, k: nat)
    requires NoRepeats(s) && k < |s|
    ensures NoRepeats(RemoveAt(s, k)) && s[k] in s && s[k] !in RemoveAt(s, k)
    ensures forall x | x != s[k] :: x in RemoveAt(s, k) <==> x in s
  {
    var us := RemoveAt(s, k);
    assert forall i | 0 <= i < |us| :: us[i] == s[if i < k then i else i + 1];
    forall x | x in s && x != s[k]
      ensures x in us
    {
      var i :| 0 <= i < |s| && s[i] == x;
      assert us[if i < k then i else i - 1] == x;
    }
  }
}
