/** list.c: the kernel's circular doubly linked list with an end marker. */
module KernelList {
  import opened Sequences

  /** portMAX_DELAY, the largest tick value. */
  const MAX_DELAY: int := 0xFFFF_FFFF

  class ListItem {
    var value: int
    var next: ListItem?
    var prev: ListItem?
    var container: List?

    constructor ()
      ensures container == null
    {
      container := null;
    }
  }

  /** Neighbours in the sequence are each other's neighbours in the links. */
  ghost predicate Chained(path: seq<ListItem>)
    reads path`next, path`prev
  {
    forall i | 0 <= i < |path| - 1 :: path[i].next == path[i + 1] && path[i + 1].prev == path[i]
  }

  /** The ends are the same item, and no item recurs otherwise. */
  ghost predicate Round(path: seq<ListItem>) {
    |path| >= 2 && path[0] == path[|path| - 1] && NoRepeats(path[1..])
  }

  lemma RoundDistinct(path: seq<ListItem>, i: nat, j: nat)
    requires Round(path) && i < j < |path| && (i > 0 || j < |path| - 1)
    ensures path[i] != path[j]
  {
    if i == 0 {
      assert path[1..][j - 1] != path[1..][|path| - 2];
    } else {
      assert path[1..][i - 1] != path[1..][j - 1];
    }
  }

  /** The four assignments that link x in after path[k]. */
  method Weave(it: ListItem, x: ListItem, ghost path: seq<ListItem>, ghost k: nat, ghost q: ListItem)
    requires Round(path) && Chained(path) && k < |path| - 1 && it == path[k] && q == path[k + 1] && x !in path
    modifies it`next, q`prev, x`next, x`prev
    ensures Round(InsertAt(path, k + 1, x)) && Chained(InsertAt(path, k + 1, x))
  {
    x.next := it.next;
    x.next.prev := x;
    x.prev := it;
    it.next := x;
    forall i | 0 <= i < |path| - 1 && i != k
      ensures path[i].next == path[i + 1] && path[i + 1].prev == path[i]
    {
      if i < k {
        RoundDistinct(path, i, k);
        RoundDistinct(path, i + 1, k + 1);
      } else {
        RoundDistinct(path, k, i);
        RoundDistinct(path, k + 1, i + 1);
      }
    }
    InsertRound(path, k, x);
    InsertChained(path, k, x);
  }

  lemma InsertRound(path: seq<ListItem>, k: nat, x: ListItem)
    requires Round(path) && k < |path| - 1 && x !in path
    ensures Round(InsertAt(path, k + 1, x))
  {
    assert InsertAt(path, k + 1, x)[1..] == InsertAt(path[1..], k, x);
  }

  /** Links that lead over x chain the path with x. */
  lemma InsertChained(path: seq<ListItem>, k: nat, x: ListItem)
    requires k < |path| - 1
    requires forall i | 0 <= i < |path| - 1 && i != k :: path[i].next == path[i + 1] && path[i + 1].prev == path[i]
    requires path[k].next == x && x.prev == path[k] && x.next == path[k + 1] && path[k + 1].prev == x
    ensures Chained(InsertAt(path, k + 1, x))
  {
    var woven := InsertAt(path, k + 1, x);
    forall i | 0 <= i < |woven| - 1
      ensures woven[i].next == woven[i + 1] && woven[i + 1].prev == woven[i]
    {
      assert i < k ==> woven[i] == path[i] && woven[i + 1] == path[i + 1];
      assert i > k + 1 ==> woven[i] == path[i - 1] && woven[i + 1] == path[i];
    }
  }

  lemma RemoveRound(path: seq<ListItem>, k: nat)
    requires Round(path) && 0 < k < |path| - 1
    ensures Round(RemoveAt(path, k))
  {
    assert RemoveAt(path, k)[1..] == RemoveAt(path[1..], k - 1);
  }

  /** Links that skip path[k] chain what is left. */
  lemma RemoveChained(path: seq<ListItem>, k: nat)
    requires 0 < k < |path| - 1
    requires forall i | 0 <= i < |path| - 1 && i != k - 1 && i != k ::
               path[i].next == path[i + 1] && path[i + 1].prev == path[i]
    requires path[k - 1].next == path[k + 1] && path[k + 1].prev == path[k - 1]
    ensures Chained(RemoveAt(path, k))
  {
    var rest := RemoveAt(path, k);
    forall i | 0 <= i < |rest| - 1
      ensures rest[i].next == rest[i + 1] && rest[i + 1].prev == rest[i]
    {
      assert rest[i] == if i < k then path[i] else path[i + 1];
      assert rest[i + 1] == if i + 1 < k then path[i + 1] else path[i + 2];
    }
  }

  /** The two assignments that link path[k] out. */
  method Unweave(x: ListItem, ghost path: seq<ListItem>, ghost k: nat, ghost p: ListItem, ghost q: ListItem)
    requires Round(path) && Chained(path) && 0 < k < |path| - 1
    requires x == path[k] && p == path[k - 1] && q == path[k + 1]
    modifies p`next, q`prev
    ensures Round(RemoveAt(path, k)) && Chained(RemoveAt(path, k))
  {
    assert path[k - 1].next == x && path[k].prev == p && path[k].next == q;
    RoundDistinct(path, k, k + 1);
    x.next.prev := x.prev;
    x.prev.next := x.next;
    forall i | 0 <= i < |path| - 1 && i != k - 1 && i != k
      ensures path[i].next == path[i + 1] && path[i + 1].prev == path[i]
    {
      if i < k {
        RoundDistinct(path, i, k - 1);
        RoundDistinct(path, i + 1, k + 1);
      } else {
        RoundDistinct(path, k - 1, i);
        RoundDistinct(path, k + 1, i + 1);
      }
    }
    RemoveRound(path, k);
    RemoveChained(path, k);
  }

  ghost function Values(items: seq<ListItem>): (vals: seq<int>)
    reads items
    ensures |vals| == |items| && forall i | 0 <= i < |items| :: vals[i] == items[i].value
  {
    seq(|items|, i requires 0 <= i < |items| reads items => items[i].value)
  }

  lemma ValuesInsert(items: seq<ListItem>, k: nat, x: ListItem)
    requires k <= |items|
    ensures Values(InsertAt(items, k, x)) == InsertAt(Values(items), k, x.value)
  {
  }

  lemma ValuesRemove(items: seq<ListItem>, k: nat)
    requires k < |items|
    ensures Values(RemoveAt(items, k)) == RemoveAt(Values(items), k)
  {
  }

  lemma OthersRemain(items: seq<ListItem>, k: nat, end: ListItem)
    requires Round([end] + items + [end]) && k < |items|
    ensures forall y :: y in RemoveAt(items, k) <==> y in items && y != items[k]
    ensures ([end] + items)[k] in [end] + RemoveAt(items, k) && items[k] != end
  {
    var path, rest := [end] + items + [end], RemoveAt(items, k);
    RoundDistinct(path, 0, k + 1);
    if k > 0 {
      assert rest[k - 1] == ([end] + items)[k];
    }
    forall i | 0 <= i < |rest|
      ensures rest[i] in items && rest[i] != items[k]
    {
      if i < k {
        RoundDistinct(path, i + 1, k + 1);
      } else {
        RoundDistinct(path, k + 1, i + 2);
      }
    }
    forall i | 0 <= i < |items| && items[i] != items[k]
      ensures items[i] in rest
    {
      assert items[i] == if i < k then rest[i] else rest[i - 1];
    }
  }

  class List {
    const end: ListItem
    var count: nat
    var index: ListItem
    ghost var items: seq<ListItem>

    ghost function Path(): seq<ListItem>
      reads this
    {
      [end] + items + [end]
    }

    ghost predicate Valid()
      reads this, end, items
    {
      var round, chained := Round(Path()), Chained(Path());
      && round && chained
      && count == |items| && index in [end] + items
      && end.value == MAX_DELAY && end.container == null
      && forall x | x in items :: x.container == this && x.value <= MAX_DELAY
    }

    constructor ()
      ensures Valid() && items == [] && fresh(end)
    {
      var e := new ListItem();
      end, index := e, e;
      count := 0;
      items := [];
      new;
      e.value := MAX_DELAY;
      e.next, e.prev := e, e;
    }

    /** Links x in after the k-th element of the circle. */
    method LinkAfter(it: ListItem, x: ListItem, ghost k: nat)
      requires Valid() && k <= |items| && it == Path()[k]
      requires x !in items && x != end && x.value <= MAX_DELAY
      modifies `count, `items, end`next, end`prev, items`next, items`prev, x`next, x`prev, x`container
      ensures Valid() && items == InsertAt(old(items), k, x)
    {
      ghost var path := Path();
      InsertMembers(items, k, x);
      InsertBetween(end, items, k, x);
      Weave(it, x, path, k, path[k + 1]);
      x.container := this;
      count := count + 1;
      items := InsertAt(items, k, x);
    }

    /** The search of vListInsert for the item to insert after. */
    method FindPlace(v: int) returns (it: ListItem, ghost k: nat)
      requires Valid() && v <= MAX_DELAY
      ensures k <= |items| && it == Path()[k]
      ensures forall i | 0 <= i < k :: items[i].value <= v
      ensures k < |items| ==> items[k].value > v
    {
      ghost var path := Path();
      if v == MAX_DELAY {
        k := |items|;
        assert path[k + 1].prev == path[k];
        it := end.prev;
      } else {
        it, k := end, 0;
        assert path[0].next == path[1];
        while it.next.value <= v
          invariant k <= |items| && it == path[k] && it.next == path[k + 1]
          invariant forall i | 0 <= i < k :: items[i].value <= v
          decreases |items| - k
        {
          it, k := it.next, k + 1;
          assert path[k].next == path[k + 1];
        }
      }
    }

    method FirstPlaceAbove(v: int) returns (it: ListItem, ghost k: nat)
      requires Valid() && v <= MAX_DELAY
      ensures k <= |items| && it == Path()[k] && k == FirstAbove(Values(items), v)
    {
      it, k := FindPlace(v);
      FirstAboveIs(Values(items), v, k);
    }

    method Place(x: ListItem) returns (ghost k: nat)
      requires Valid() && x !in items && x != end && x.value <= MAX_DELAY
      modifies `count, `items, end`next, end`prev, items`next, items`prev, x`next, x`prev, x`container
      ensures Valid() && k == FirstAbove(old(Values(items)), x.value) && items == InsertAt(old(items), k, x)
    {
      var it;
      it, k := FirstPlaceAbove(x.value);
      LinkAfter(it, x, k);
    }

    /** vListInsert: in order of the values, after any equal ones. */
    method Insert(x: ListItem)
      requires Valid() && x !in items && x != end && x.value <= MAX_DELAY
      modifies `count, `items, end`next, end`prev, items`next, items`prev, x`next, x`prev, x`container
      ensures Valid()
      ensures items == InsertAt(old(items), FirstAbove(old(Values(items)), old(x.value)), x)
      ensures old(Sorted(Values(items))) ==> Sorted(Values(items))
    {
      ghost var was, vals := items, Values(items);
      ghost var k := Place(x);
      assert Values(was) == vals;
      ValuesInsert(was, k, x);
      InsertInOrder(vals, x.value);
    }

    /** vListInsertEnd: before the item the list's index points at. */
    method InsertEnd(x: ListItem, ghost k: nat)
      requires Valid() && x !in items && x != end && x.value <= MAX_DELAY
      requires k <= |items| && Path()[k + 1] == index
      modifies `count, `items, end`next, end`prev, items`next, items`prev, x`next, x`prev, x`container
      ensures Valid() && items == InsertAt(old(items), k, x)
    {
      assert Path()[k + 1].prev == Path()[k];
      LinkAfter(index.prev, x, k);
    }

    method LinkOut(x: ListItem, ghost k: nat)
      requires Round(Path()) && Chained(Path()) && k < |items| && items[k] == x
      modifies end`next, end`prev, items`next, items`prev
      ensures Round([end] + RemoveAt(items, k) + [end]) && Chained([end] + RemoveAt(items, k) + [end])
      ensures x.prev == ([end] + items)[k]
    {
      ghost var path := Path();
      assert path[k + 1] == x && path[k].next == x && path[k + 1].prev == path[k];
      RoundDistinct(path, k + 1, k + 2);
      Unweave(x, path, k + 1, path[k], path[k + 2]);
      RemoveBetween(end, items, k);
    }

    method Drop(x: ListItem, ghost k: nat)
      requires Valid() && k < |items| && items[k] == x
      modifies `count, `index, `items, end`next, end`prev, items`next, items`prev, x`container
      ensures Valid() && items == RemoveAt(old(items), k)
      ensures x.container == null
      ensures index == if old(index) == x then old(([end] + items)[k]) else old(index)
    {
      OthersRemain(items, k, end);
      LinkOut(x, k);
      if index == x {
        index := x.prev;
      }
      x.container := null;
      count := count - 1;
      items := RemoveAt(items, k);
    }

    /** uxListRemove */
    method Remove(x: ListItem, ghost k: nat) returns (left: nat)
      requires Valid() && k < |items| && items[k] == x
      modifies `count, `index, `items, end`next, end`prev, items`next, items`prev, x`container
      ensures Valid() && items == RemoveAt(old(items), k) && left == |items|
      ensures x.container == null
      ensures index == if old(index) == x then old(([end] + items)[k]) else old(index)
      ensures old(Sorted(Values(items))) ==> Sorted(Values(items))
    {
      ghost var was := items;
      Drop(x, k);
      left := count;
      assert Values(was) == old(Values(items));
      ValuesRemove(was, k);
      RemoveInOrder(Values(was), k);
    }
  }
}
