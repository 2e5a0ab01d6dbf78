/** timers.c: the current and the overflow list of the timers as list.c keeps them. */
module TimerLists {
  import opened KernelList
  import opened Sequences

  ghost predicate InOrder(l: List)
    reads l, l.end, l.items
  {
    var valid, sorted := l.Valid(), Sorted(Values(l.items));
    valid && sorted
  }

  lemma Apart(a: List, b: List)
    requires a != b && a.Valid() && b.Valid()
    ensures a.end !in b.items && b.end !in a.items && forall x | x in a.items :: x !in b.items
  {
  }

  /** Inserting into the list a leaves another list b alone. */
  method PutIn(a: List, b: List, x: ListItem)
    requires a != b && a.end != b.end && InOrder(a) && InOrder(b)
    requires x.container == null && x != a.end && x != b.end && x.value <= MAX_DELAY
    modifies a, a.end, a.items, x
    ensures InOrder(a) && InOrder(b) && b.items == old(b.items)
    ensures a.items == InsertAt(old(a.items), FirstAbove(old(Values(a.items)), old(x.value)), x)
  {
    Apart(a, b);
    a.Insert(x);
  }

  method TakeFrom(a: List, b: List, x: ListItem, ghost k: nat)
    requires a != b && a.end != b.end && InOrder(a) && InOrder(b) && k < |a.items| && x == a.items[k]
    modifies a, a.end, a.items
    ensures InOrder(a) && InOrder(b) && b.items == old(b.items) && x.container == null
    ensures a.items == RemoveAt(old(a.items), k)
  {
    Apart(a, b);
    var _ := a.Remove(x, k);
  }

  class TwoLists {
    var current: List
    var overflow: List

    /** Both lists are linked in both directions and in the order of their values. As an
        item knows its list, none is on both. */
    ghost predicate Valid()
      reads this, current, overflow, current.end, overflow.end, current.items, overflow.items
    {
      && current != overflow && current.end != overflow.end
      && InOrder(current) && InOrder(overflow)
    }

    /** prvCheckForValidListAndQueue */
    constructor ()
      ensures Valid() && current.items == [] && overflow.items == []
    {
      current := new List();
      overflow := new List();
    }

    lemma NoneOnBoth()
      requires Valid()
      ensures forall x | x in current.items :: x !in overflow.items
    {
      Apart(current, overflow);
    }

    /** vListInsert of an item that is on no list. */
    method Put(x: ListItem, late: bool)
      requires Valid() && x.container == null && x != current.end && x != overflow.end && x.value <= MAX_DELAY
      modifies current, overflow, current.end, overflow.end, current.items, overflow.items, x
      ensures Valid() && current == old(current) && overflow == old(overflow)
      ensures current.items ==
              if late then old(current.items)
              else InsertAt(old(current.items), FirstAbove(old(Values(current.items)), old(x.value)), x)
      ensures overflow.items ==
              if late then InsertAt(old(overflow.items), FirstAbove(old(Values(overflow.items)), old(x.value)), x)
              else old(overflow.items)
    {
      if late {
        PutIn(overflow, current, x);
      } else {
        PutIn(current, overflow, x);
      }
    }

    /** uxListRemove of the k-th item of either list. */
    method Take(x: ListItem, late: bool, ghost k: nat)
      requires Valid() && k < |(if late then overflow else current).items|
      requires x == (if late then overflow else current).items[k]
      modifies current, overflow, current.end, overflow.end, current.items, overflow.items
      ensures Valid() && current == old(current) && overflow == old(overflow) && x.container == null
      ensures current.items == if late then old(current.items) else RemoveAt(old(current.items), k)
      ensures overflow.items == if late then RemoveAt(old(overflow.items), k) else old(overflow.items)
    {
      if late {
        TakeFrom(overflow, current, x, k);
      } else {
        TakeFrom(current, overflow, x, k);
      }
    }

    /** The end of prvSwitchTimerLists. */
    method Switch()
      requires Valid()
      modifies this
      ensures Valid() && current == old(overflow) && overflow == old(current)
    {
      current, overflow := overflow, current;
    }
  }
}
