/** event_groups.c: bits that tasks set, clear, wait for and meet at. */
module EventGroups {
  import opened Sequences

  /** A word is the set of the positions of its one bits. */
  type Bits = set<nat>

  const CLEAR_ON_EXIT: nat := 24
  const UNBLOCKED: nat := 25
  const WAIT_FOR_ALL: nat := 26
  const IN_USE: nat := 31

  /** The bits below the control byte, which are the ones tasks may use. */
  predicate Plain(b: Bits) {
    forall i | i in b :: i < 24
  }

  function Uncontrolled(b: Bits): Bits {
    set i | i in b && i < 24
  }

  /** prvTestWaitCondition */
  predicate Met(current: Bits, want: Bits, all: bool) {
    if all then want <= current else want * current != {}
  }

  /** The event list item of a task that set bits woke. */
  function Snapshot(b: Bits): Bits {
    b + {UNBLOCKED, IN_USE}
  }

  datatype Waiter = Waiter(task: nat, item: Bits) {
    function Want(): Bits {
      Uncontrolled(item)
    }

    predicate Holds(b: Bits) {
      Met(b, Want(), WAIT_FOR_ALL in item)
    }

    predicate Clears(b: Bits) {
      Holds(b) && CLEAR_ON_EXIT in item
    }
  }

  /** The waiters whose condition does not hold on the bits b, in order. */
  function Staying(ws: seq<Waiter>, b: Bits): (us: seq<Waiter>)
    ensures |us| <= |ws| && forall w :: w in us <==> w in ws && !w.Holds(b)
  {
    if ws == [] then []
    else Staying(ws[..|ws| - 1], b) + (if ws[|ws| - 1].Holds(b) then [] else [ws[|ws| - 1]])
  }

  /** The tasks whose condition holds: all get the same snapshot. */
  function Woken(ws: seq<Waiter>, b: Bits): set<nat> {
    set w | w in ws && w.Holds(b) :: w.task
  }

  /** A bit is cleared when a woken task that clears on exit waited for it. */
  function Cleared(ws: seq<Waiter>, b: Bits): Bits {
    set w, i | w in ws && w.Clears(b) && i in w.Want() :: i
  }

  /** The walk along the list has dealt with the first k of the waiters ws. */
  ghost predicate Halfway(ws: seq<Waiter>, k: nat, b: Bits, was: map<nat, Bits>,
                          waiting: seq<Waiter>, items: map<nat, Bits>, clear: Bits, i: nat)
    requires k <= |ws|
  {
    var listed, removed := waiting == Staying(ws[..k], b) + ws[k..], items == was + Snapshots(Woken(ws[..k], b), b);
    var placed, cleared := i == |Staying(ws[..k], b)|, clear == Cleared(ws[..k], b);
    listed && removed && placed && cleared
  }

  /** A waiter whose condition holds is taken off the list. */
  lemma WalkedMet(ws: seq<Waiter>, k: nat, b: Bits, was: map<nat, Bits>,
                  waiting: seq<Waiter>, items: map<nat, Bits>, clear: Bits, i: nat)
    requires k < |ws| && Halfway(ws, k, b, was, waiting, items, clear, i) && ws[k].Holds(b)
    ensures i < |waiting| && waiting[i] == ws[k]
    ensures Halfway(ws, k + 1, b, was, RemoveAt(waiting, i), items[ws[k].task := Snapshot(b)],
                    if ws[k].Clears(b) then clear + ws[k].Want() else clear, i)
  {
    Walked(ws, k, b);
    assert waiting[i] == ws[k] && RemoveAt(waiting, i) == Staying(ws[..k + 1], b) + ws[k + 1..] by {
      TakeNext(Staying(ws[..k], b), ws, k);
    }
    assert items[ws[k].task := Snapshot(b)] == was + Snapshots(Woken(ws[..k + 1], b), b) by {
      OneMore(was, Woken(ws[..k], b), b, ws[k].task);
    }
  }

  lemma WalkedPast(ws: seq<Waiter>, k: nat, b: Bits, was: map<nat, Bits>,
                   waiting: seq<Waiter>, items: map<nat, Bits>, clear: Bits, i: nat)
    requires k < |ws| && Halfway(ws, k, b, was, waiting, items, clear, i) && !ws[k].Holds(b)
    ensures i < |waiting| && waiting[i] == ws[k]
    ensures Halfway(ws, k + 1, b, was, waiting, items, clear, i + 1)
  {
    Walked(ws, k, b);
    TakeNext(Staying(ws[..k], b), ws, k);
  }

  /** The walk is over exactly when all have been looked at. */
  lemma WalkEnds(ws: seq<Waiter>, k: nat, b: Bits, was: map<nat, Bits>,
                 waiting: seq<Waiter>, items: map<nat, Bits>, clear: Bits, i: nat)
    requires k <= |ws| && Halfway(ws, k, b, was, waiting, items, clear, i)
    ensures i < |waiting| <==> k < |ws|
    ensures k == |ws| ==> waiting == Staying(ws, b) && clear == Cleared(ws, b)
    ensures k == |ws| ==> items == was + Snapshots(Woken(ws, b), b)
  {
    assert ws[..|ws|] == ws;
  }

  lemma WalkStarts(ws: seq<Waiter>, b: Bits, was: map<nat, Bits>)
    ensures Halfway(ws, 0, b, was, ws, was, {}, 0)
  {
    assert was + Snapshots({}, b) == was;
  }

  /** One more waiter looked at. */
  lemma Walked(ws: seq<Waiter>, k: nat, b: Bits)
    requires k < |ws|
    ensures Staying(ws[..k + 1], b) == Staying(ws[..k], b) + (if ws[k].Holds(b) then [] else [ws[k]])
    ensures Woken(ws[..k + 1], b) == if ws[k].Holds(b) then Woken(ws[..k], b) + {ws[k].task} else Woken(ws[..k], b)
    ensures Cleared(ws[..k + 1], b)
      == if ws[k].Clears(b) then Cleared(ws[..k], b) + ws[k].Want() else Cleared(ws[..k], b)
  {
    assert ws[..k + 1][..k] == ws[..k];
    assert forall w :: w in ws[..k + 1] <==> w in ws[..k] || w == ws[k];
  }

  /** The items the tasks ts have when all of them are woken on the bits b. */
  function Snapshots(ts: set<nat>, b: Bits): map<nat, Bits> {
    map t | t in ts :: Snapshot(b)
  }

  lemma OneMore(items: map<nat, Bits>, ts: set<nat>, b: Bits, t: nat)
    ensures (items + Snapshots(ts, b))[t := Snapshot(b)] == items + Snapshots(ts + {t}, b)
  {
  }

  lemma TakeNext<T>(a: seq<T>, s: seq<T>, k: nat)
    requires k < |s|
    ensures RemoveAt(a + s[k..], |a|) == a + s[k + 1..] && a + s[k..] == (a + [s[k]]) + s[k + 1..]
  {
  }

  function Tasks(ws: seq<Waiter>): set<nat> {
    set w | w in ws :: w.task
  }

  function Position(ws: seq<Waiter>, t: nat): (k: nat)
    requires t in Tasks(ws)
    ensures k < |ws| && ws[k].task == t
  {
    if ws[0].task == t then 0 else
      assert forall w | w in ws :: w == ws[0] || w in ws[1..];
      1 + Position(ws[1..], t)
  }

  predicate DistinctTasks(ws: seq<Waiter>) {
    forall i, j | 0 <= i < j < |ws| :: ws[i].task != ws[j].task
  }

  /** What a task waits for, and whether it takes the bits with it. */
  datatype Call = Call(want: Bits, clear: bool, all: bool) {
    /** The event list item of the task while it is blocked. */
    function Item(): Bits {
      want + (if clear then {CLEAR_ON_EXIT} else {}) + (if all then {WAIT_FOR_ALL} else {}) + {IN_USE}
    }
  }

  /** The item is a snapshot of bits that met the call's condition. */
  predicate WokenBy(item: Bits, call: Call) {
    var b := Uncontrolled(item);
    item == Snapshot(b) && Met(b, call.want, call.all)
  }

  datatype Group = Group(bits: Bits, waiting: seq<Waiter>, items: map<nat, Bits>) {
    /** xEventGroupSetBits */
    function Set(bitsToSet: Bits): Group {
      var b := bits + bitsToSet;
      Group(b - Cleared(waiting, b), Staying(waiting, b),
            items + Snapshots(Woken(waiting, b), b))
    }

    /** The part of xEventGroupWaitBits before the task blocks, if it does. */
    function Wait(task: nat, call: Call, mayBlock: bool): Group {
      if Met(bits, call.want, call.all) then Drop(call)
      else if mayBlock then Block(task, call)
      else this
    }

    /** The part of xEventGroupSync before the task blocks, if it does. */
    function Sync(task: nat, bitsToSet: Bits, want: Bits, mayBlock: bool): Group {
      var g, call := Set(bitsToSet), Call(want, true, true);
      if want <= bits + bitsToSet then g.Drop(call)
      else if mayBlock then g.Block(task, call)
      else g
    }

    function Drop(call: Call): Group {
      if call.clear then this.(bits := bits - call.want) else this
    }

    /** The part of either call after the task blocked: a task that was woken takes
        its snapshot, a task that timed out looks at the bits once more. */
    function Finish(task: nat, call: Call): Group
      requires task in items
    {
      var g := this.(items := items - {task});
      if UNBLOCKED !in items[task] && Met(bits, call.want, call.all) then g.Drop(call) else g
    }

    function Answer(task: nat): Bits
      requires task in items
    {
      if UNBLOCKED in items[task] then Uncontrolled(items[task]) else bits
    }

    /** vTaskPlaceOnUnorderedEventList */
    function Block(task: nat, call: Call): Group {
      this.(waiting := waiting + [Waiter(task, call.Item())])
    }

    /** The tick interrupt takes a task that timed out off the list. */
    function Expire(k: nat): Group
      requires k < |waiting|
    {
      this.(waiting := RemoveAt(waiting, k), items := items[waiting[k].task := waiting[k].item])
    }

    /** No blocked task's condition holds on the current bits. */
    predicate Quiet() {
      forall w | w in waiting :: !w.Holds(bits)
    }

    predicate Sound() {
      && Plain(bits) && DistinctTasks(waiting)
      && forall w | w in waiting :: w.task !in items
    }
  }

  lemma HoldsMeans(w: Waiter, b: Bits)
    ensures w.Holds(b) <==>
            if 26 in w.item then forall i | i in w.item && i < 24 :: i in b
            else exists i :: i in w.item && i < 24 && i in b
  {
    if 26 in w.item {
      assert w.Holds(b) ==> forall i | i in w.Want() :: i in b;
      assert forall i | i in w.item && i < 24 :: i in w.Want();
    } else {
      assert forall i | i in w.item && i < 24 && i in b :: i in w.Want() * b;
      if w.Holds(b) {
        var i :| i in w.Want() * b;
        assert i in w.item && i < 24 && i in b;
      }
    }
  }

  /** What setting bits leaves: a bit goes only if a task waits for it that clears on
      exit and whose condition on the bits below 24 is met. */
  lemma SetLeavesBit(g: Group, b: Bits, i: nat)
    requires g.Sound() && Plain(b)
    ensures i in g.Set(b).bits <==>
      i in g.bits + b && forall w | w in g.waiting && 24 in w.item && i in w.item ::
        if 26 in w.item then exists j :: j in w.item && j < 24 && j !in g.bits + b
        else forall j | j in w.item && j < 24 :: j !in g.bits + b
  {
    var all := g.bits + b;
    if i in Cleared(g.waiting, all) {
      var w :| w in g.waiting && w.Clears(all) && i in w.Want();
      HoldsMeans(w, all);
      assert 24 in w.item && i in w.item;
      assert i !in g.Set(b).bits;
    } else if i in all {
      assert i in g.Set(b).bits;
      forall w | w in g.waiting && 24 in w.item && i in w.item
        ensures if 26 in w.item then exists j :: j in w.item && j < 24 && j !in all
                else forall j | j in w.item && j < 24 :: j !in all
      {
        assert i in w.Want() && !w.Clears(all);
        HoldsMeans(w, all);
      }
    }
  }

  lemma SetLeavesBits(g: Group, b: Bits)
    requires g.Sound() && Plain(b)
    ensures forall i :: i in g.Set(b).bits <==>
      i in g.bits + b && forall w | w in g.waiting && 24 in w.item && i in w.item ::
        if 26 in w.item then exists j :: j in w.item && j < 24 && j !in g.bits + b
        else forall j | j in w.item && j < 24 :: j !in g.bits + b
  {
    forall i: nat {
      SetLeavesBit(g, b, i);
    }
  }

  /** Who goes and who stays, and what those who go take with them. */
  lemma SetWakesTasks(g: Group, b: Bits)
    requires g.Sound() && Plain(b)
    ensures forall w | w in g.waiting ::
      if (if 26 in w.item then forall j | j in w.item && j < 24 :: j in g.bits + b
          else exists j :: j in w.item && j < 24 && j in g.bits + b)
      then w !in g.Set(b).waiting && w.task in g.Set(b).items && g.Set(b).items[w.task] == g.bits + b + {25, 31}
      else w in g.Set(b).waiting
    ensures forall w | w in g.Set(b).waiting :: w in g.waiting && w.task !in g.Set(b).items
    ensures forall t | t !in Tasks(g.waiting) ::
      && (t in g.Set(b).items <==> t in g.items)
      && (t in g.items ==> g.Set(b).items[t] == g.items[t])
  {
    var all := g.bits + b;
    forall w | w in g.waiting
      ensures w.Holds(all) <==>
              if 26 in w.item then forall j | j in w.item && j < 24 :: j in all
              else exists j :: j in w.item && j < 24 && j in all
      ensures w.task in Woken(g.waiting, all) <==> w.Holds(all)
    {
      HoldsMeans(w, all);
    }
  }

  class EventGroup {
    var bits: Bits
    var waiting: seq<Waiter>
    /** The event list items of tasks that are in a call but off the list. */
    var items: map<nat, Bits>

    function State(): Group
      reads this
    {
      Group(bits, waiting, items)
    }

    constructor ()
      ensures State() == Group({}, [], map[])
    {
      bits, waiting, items := {}, [], map[];
    }

    /** One step of the walk of xEventGroupSetBits along the list. */
    method Visit(i: nat, bitsToClear: Bits) returns (next: nat, clear: Bits)
      requires i < |waiting|
      modifies `waiting, `items
      ensures var w := old(waiting[i]); var met := w.Holds(bits);
        && waiting == (if met then RemoveAt(old(waiting), i) else old(waiting))
        && items == (if met then old(items)[w.task := Snapshot(bits)] else old(items))
        && next == (if met then i else i + 1)
        && clear == (if w.Clears(bits) then bitsToClear + w.Want() else bitsToClear)
    {
      var w := waiting[i];
      var want := Uncontrolled(w.item);
      next, clear := i + 1, bitsToClear;
      var matchFound := false;
      if WAIT_FOR_ALL !in w.item {
        if want * bits != {} {
          matchFound := true;
        }
      } else if want * bits == want {
        matchFound := true;
      }
      if matchFound {
        if CLEAR_ON_EXIT in w.item {
          clear := bitsToClear + want;
        }
        items := items[w.task := Snapshot(bits)];
        waiting := RemoveAt(waiting, i);
        next := i;
      }
    }

    /** The next of the waiters ws, on the way along the list. */
    method VisitNext(i: nat, bitsToClear: Bits, ghost ws: seq<Waiter>, ghost k: nat, ghost was: map<nat, Bits>)
      returns (next: nat, clear: Bits)
      requires k < |ws| && i < |waiting| && Halfway(ws, k, bits, was, waiting, items, bitsToClear, i)
      modifies `waiting, `items
      ensures Halfway(ws, k + 1, bits, was, waiting, items, clear, next)
    {
      if ws[k].Holds(bits) {
        WalkedMet(ws, k, bits, was, waiting, items, bitsToClear, i);
      } else {
        WalkedPast(ws, k, bits, was, waiting, items, bitsToClear, i);
      }
      next, clear := Visit(i, bitsToClear);
    }

    /** The walk of xEventGroupSetBits, with what comes before and after it. */
    method SetAndWalk(bitsToSet: Bits)
      requires State().Sound() && Plain(bitsToSet)
      modifies this
      ensures State() == old(State()).Set(bitsToSet)
    {
      ghost var ws, was, k := waiting, items, 0;
      bits := bits + bitsToSet;
      var i: nat, bitsToClear := 0, {};
      WalkStarts(ws, bits, was);
      WalkEnds(ws, 0, bits, was, waiting, items, {}, 0);
      while i < |waiting|
        invariant k <= |ws| && bits == old(bits) + bitsToSet
        invariant Halfway(ws, k, bits, was, waiting, items, bitsToClear, i)
        invariant i < |waiting| <==> k < |ws|
        decreases |ws| - k
      {
        i, bitsToClear := VisitNext(i, bitsToClear, ws, k, was);
        k := k + 1;
        WalkEnds(ws, k, bits, was, waiting, items, bitsToClear, i);
      }
      WalkEnds(ws, k, bits, was, waiting, items, bitsToClear, i);
      bits := bits - bitsToClear;
    }

    /** xEventGroupSetBits */
    method SetBits(bitsToSet: Bits) returns (r: Bits)
      requires State().Sound() && Plain(bitsToSet)
      modifies this
      ensures State() == old(State()).Set(bitsToSet) && r == bits
      ensures var all := old(bits) + bitsToSet;
        forall i :: i in bits <==>
          i in all && forall w | w in old(waiting) && 24 in w.item && i in w.item ::
            if 26 in w.item then exists j :: j in w.item && j < 24 && j !in all
            else forall j | j in w.item && j < 24 :: j !in all
      ensures var all := old(bits) + bitsToSet;
        forall w | w in old(waiting) ::
          if (if 26 in w.item then forall j | j in w.item && j < 24 :: j in all
              else exists j :: j in w.item && j < 24 && j in all)
          then w !in waiting && w.task in items && items[w.task] == all + {25, 31}
          else w in waiting
      ensures forall w | w in waiting :: w in old(waiting) && w.task !in items
      ensures forall t | t !in Tasks(old(waiting)) ::
        (t in items <==> t in old(items)) && (t in items ==> items[t] == old(items)[t])
    {
      ghost var g := State();
      SetAndWalk(bitsToSet);
      SetLeavesBits(g, bitsToSet);
      SetWakesTasks(g, bitsToSet);
      r := bits;
    }

    /** xEventGroupClearBits */
    method ClearBits(bitsToClear: Bits) returns (r: Bits)
      requires Plain(bitsToClear)
      modifies `bits
      ensures r == old(bits) && bits == old(bits) - bitsToClear
    {
      r := bits;
      bits := bits - bitsToClear;
    }

    /** xEventGroupWaitBits, up to the point where the task blocks. */
    method WaitBits(task: nat, call: Call, ticks: nat) returns (blocks: bool, r: Bits)
      requires Plain(call.want) && call.want != {}
      modifies this
      ensures State() == old(State()).Wait(task, call, ticks != 0)
      ensures blocks <==> waiting != old(waiting)
      ensures !blocks ==> r == old(bits)
      ensures var met := if call.all then call.want <= old(bits) else call.want * old(bits) != {};
        && (blocks <==> !met && ticks != 0)
        && bits == (if met && call.clear then old(bits) - call.want else old(bits))
      ensures waiting == old(waiting) + if !blocks then [] else
        [Waiter(task, call.want + (if call.clear then {24} else {}) + (if call.all then {26} else {}) + {31})]
      ensures items == old(items)
    {
      var current := bits;
      blocks, r := false, current;
      if Met(current, call.want, call.all) {
        if call.clear {
          bits := bits - call.want;
        }
      } else if ticks != 0 {
        var control: Bits := {};
        if call.clear {
          control := control + {CLEAR_ON_EXIT};
        }
        if call.all {
          control := control + {WAIT_FOR_ALL};
        }
        assert call.want + control + {IN_USE} == call.Item();
        waiting := waiting + [Waiter(task, call.want + control + {IN_USE})];
        blocks := true;
      }
    }

    /** xEventGroupSync, up to the point where the task blocks. */
    method Sync(task: nat, bitsToSet: Bits, want: Bits, ticks: nat) returns (blocks: bool, r: Bits)
      requires State().Sound() && Plain(bitsToSet) && Plain(want) && want != {}
      modifies this
      ensures State() == old(State()).Sync(task, bitsToSet, want, ticks != 0)
      ensures blocks <==> !(want <= old(bits) + bitsToSet) && ticks != 0
      ensures want <= old(bits) + bitsToSet ==> r == old(bits) + bitsToSet
      ensures !blocks && !(want <= old(bits) + bitsToSet) ==> r == bits
      ensures var set1 := old(State()).Set(bitsToSet);
        && bits == (if want <= old(bits) + bitsToSet then set1.bits - want else set1.bits) && items == set1.items
        && waiting == set1.waiting + if blocks then [Waiter(task, want + {24, 26, 31})] else []
    {
      var original := bits;
      blocks, r := false, {};
      var after := SetBits(bitsToSet);
      if (original + bitsToSet) * want == want {
        r := original + bitsToSet;
        bits := bits - want;
      } else if ticks != 0 {
        assert want + {CLEAR_ON_EXIT} + {WAIT_FOR_ALL} + {IN_USE} == want + {24, 26, 31};
        waiting := waiting + [Waiter(task, want + {CLEAR_ON_EXIT} + {WAIT_FOR_ALL} + {IN_USE})];
        blocks := true;
      } else {
        r := bits;
      }
    }

    /** The rest of xEventGroupWaitBits and of xEventGroupSync after blocking. */
    method Finish(task: nat, call: Call) returns (r: Bits, timedOut: bool)
      requires State().Sound() && task in items
      modifies this
      ensures State() == old(State()).Finish(task, call) && r == old(State().Answer(task))
      ensures timedOut <==> 25 !in old(items[task])
      ensures !timedOut ==> bits == old(bits) && forall i :: i in r <==> i in old(items[task]) && i < 24
      ensures timedOut ==> r == old(bits)
      ensures var met := if call.all then call.want <= old(bits) else call.want * old(bits) != {};
        bits == if timedOut && met && call.clear then old(bits) - call.want else old(bits)
      ensures items == old(items) - {task} && waiting == old(waiting)
    {
      r, timedOut := items[task], false;
      items := items - {task};
      if UNBLOCKED !in r {
        r := bits;
        if Met(r, call.want, call.all) {
          if call.clear {
            bits := bits - call.want;
          }
        }
        timedOut := true;
      }
      r := Uncontrolled(r);
      assert Plain(old(bits)) ==> Uncontrolled(old(bits)) == old(bits);
    }
  }
}
