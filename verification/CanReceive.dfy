/** hal_can_core.c, the receiving side: message nodes move between the free list, the
    used list and the lists of the filters that their messages matched. */
module CanReceive {
  import opened CanFifo
  import opened Sequences

  /** What recv_msg reports: a failure, or a frame and the slot of its filter bank. */
  datatype Hardware = Failed | NoSlot | Got(slot: nat, frame: Frame)

  /** The messages that belong to the filter f, in order. */
  function Of(ms: seq<Msg>, f: int): (r: seq<Msg>)
    ensures |r| <= |ms|
  {
    if ms == [] then []
    else Of(ms[..|ms| - 1], f) + (if ms[|ms| - 1].owner == f then [ms[|ms| - 1]] else [])
  }

  lemma {:induction false} OfJoin(a: seq<Msg>, b: seq<Msg>, f: int)
    ensures Of(a + b, f) == Of(a, f) + Of(b, f)
  {
    if b == [] {
      assert a + b == a;
    } else {
      var front, last := b[..|b| - 1], b[|b| - 1];
      assert (a + b)[..|a + b| - 1] == a + front && (a + b)[|a + b| - 1] == last;
      OfJoin(a, front, f);
    }
  }

  /** The position of the first message of the filter f, or the length. */
  function First(ms: seq<Msg>, f: int): (k: nat)
    ensures k <= |ms| && (k < |ms| ==> ms[k].owner == f)
    ensures forall i | 0 <= i < k :: ms[i].owner != f
  {
    if ms == [] || ms[0].owner == f then 0 else 1 + First(ms[1..], f)
  }

  lemma {:induction false} NoneOf(ms: seq<Msg>, f: int)
    requires forall i | 0 <= i < |ms| :: ms[i].owner != f
    ensures Of(ms, f) == []
  {
    if ms == [] {
    } else {
      NoneOf(ms[..|ms| - 1], f);
    }
  }

  lemma OfOne(m: Msg, f: int)
    ensures Of([m], f) == if m.owner == f then [m] else []
  {
  }

  lemma OfMiddle(a: seq<Msg>, m: Msg, b: seq<Msg>, f: int)
    ensures Of(a + ([m] + b), f) == Of(a, f) + ((if m.owner == f then [m] else []) + Of(b, f))
  {
    OfJoin(a, [m] + b, f);
    OfJoin([m], b, f);
    OfOne(m, f);
  }

  lemma OfSplit(ms: seq<Msg>, k: nat, f: int)
    requires k < |ms|
    ensures Of(RemoveAt(ms, k), f) == Of(ms[..k], f) + Of(ms[k + 1..], f)
    ensures Of(ms, f) == Of(ms[..k], f) + ((if ms[k].owner == f then [ms[k]] else []) + Of(ms[k + 1..], f))
  {
    assert ms == ms[..k] + ([ms[k]] + ms[k + 1..]);
    OfMiddle(ms[..k], ms[k], ms[k + 1..], f);
    OfJoin(ms[..k], ms[k + 1..], f);
  }

  /** A filter's oldest message is the first of its own among all. */
  lemma OldestOf(ms: seq<Msg>, f: int)
    ensures Of(ms, f) == [] <==> First(ms, f) == |ms|
    ensures Of(ms, f) != [] ==> Of(ms, f)[0] == ms[First(ms, f)]
    ensures Of(ms, f) != [] ==> Of(RemoveAt(ms, First(ms, f)), f) == Of(ms, f)[1..]
  {
    var k := First(ms, f);
    NoneOf(ms[..k], f);
    if k < |ms| {
      OfSplit(ms, k, f);
    } else {
      assert ms[..k] == ms;
    }
  }

  /** Removing another filter's message leaves a filter's messages as they are. */
  lemma OthersOf(ms: seq<Msg>, k: nat, f: int)
    requires k < |ms| && ms[k].owner != f
    ensures Of(RemoveAt(ms, k), f) == Of(ms, f)
  {
    OfSplit(ms, k, f);
  }

  lemma AppendOf(ms: seq<Msg>, m: Msg, f: int)
    ensures Of(ms + [m], f) == if m.owner == f then Of(ms, f) + [m] else Of(ms, f)
  {
    OfJoin(ms, [m], f);
  }

  /** Each filter's list is its share of the used list, and its count the length. */
  predicate Shares(matched: seq<seq<Msg>>, msgCount: seq<nat>, used: seq<Msg>) {
    && |matched| == |msgCount| && (forall m | m in used :: 0 <= m.owner < |matched|)
    && forall f | 0 <= f < |matched| :: matched[f] == Of(used, f) && msgCount[f] == |matched[f]|
  }

  lemma OwnersStay(used: seq<Msg>, k: nat, filters: nat)
    requires k < |used| && forall m | m in used :: 0 <= m.owner < filters
    ensures 0 <= used[k].owner < filters && forall m | m in RemoveAt(used, k) :: 0 <= m.owner < filters
  {
    assert used[k] in used && forall i | 0 <= i < |used| - 1 :: RemoveAt(used, k)[i] in used;
  }

  /** A filter's oldest message goes. */
  lemma TakeShares(matched: seq<seq<Msg>>, msgCount: seq<nat>, used: seq<Msg>, f: int)
    requires Shares(matched, msgCount, used) && 0 <= f < |matched| && First(used, f) < |used|
    ensures msgCount[f] > 0 && matched[f] != [] && matched[f][0] == used[First(used, f)]
    ensures Shares(matched[f := matched[f][1..]], msgCount[f := msgCount[f] - 1], RemoveAt(used, First(used, f)))
  {
    var k, us := First(used, f), RemoveAt(used, First(used, f));
    OldestOf(used, f);
    OwnersStay(used, k, |matched|);
    forall g | 0 <= g < |matched|
      ensures Of(us, g) == if g == f then matched[f][1..] else matched[g]
    {
      if g != f {
        OthersOf(used, k, g);
      }
    }
  }

  /** A message comes in. */
  lemma PutShares(matched: seq<seq<Msg>>, msgCount: seq<nat>, used: seq<Msg>, m: Msg)
    requires Shares(matched, msgCount, used) && 0 <= m.owner < |matched|
    ensures Shares(matched[m.owner := matched[m.owner] + [m]], msgCount[m.owner := msgCount[m.owner] + 1], used + [m])
  {
    forall g | 0 <= g < |matched|
      ensures Of(used + [m], g) == if g == m.owner then matched[g] + [m] else matched[g]
    {
      AppendOf(used, m, g);
    }
  }

  /** What the driver counts: messages put on the used list, overflows and failures. */
  datatype Counts = Counts(received: nat, overflows: nat, failed: nat)

  /** The receiver as a plain queue: what is pending in order of arrival, and which
      nodes are free. */
  datatype Box = Box(overwrite: bool, filters: nat, free: seq<Msg>, used: seq<Msg>, counts: Counts) {
    /** With overwriting, a receiver that has lost every node waits for ever. */
    predicate Alive() {
      overwrite ==> free != [] || used != []
    }

    /** A node for a frame: a free one, or that of the oldest message of all. */
    function Room(): Msg
      requires free != [] || used != []
    {
      if free != [] then free[0] else used[0].(owner := NONE)
    }

    function Emptied(): Box {
      if free != [] then this.(free := free[1..])
      else if used != [] && overwrite then this.(used := RemoveAt(used, 0))
      else this
    }

    /** A frame comes. If there is no room it is discarded, or with overwriting the
        oldest message of all gives way, even to a frame that is not kept. */
    function Arrive(hw: Hardware): Box {
      if !Alive() then this
      else if free != [] then Emptied().Put(Room(), hw)
      else if overwrite then Emptied().Overflowed().Put(Room(), hw)
      else Overflowed()
    }

    function Overflowed(): Box {
      this.(counts := counts.(overflows := counts.overflows + 1))
    }

    /** What becomes of the node that is to take the frame. */
    function Put(m: Msg, hw: Hardware): Box {
      if Keeps(hw) then
        this.(used := used + [Msg(m.node, hw.slot, hw.frame)], counts := counts.(received := counts.received + 1))
      else
        this.(free := if hw.Failed? then free else free + [m], counts := counts.(failed := counts.failed + 1))
    }

    predicate Keeps(hw: Hardware) {
      hw.Got? && hw.slot < filters
    }

    /** The filter's oldest message is read. */
    function Read(f: int): Box
      requires First(used, f) < |used|
    {
      var k := First(used, f);
      this.(used := RemoveAt(used, k), free := free + [used[k].(owner := NONE)])
    }
  }

  class RxHandler {
    const overwrite: bool
    /** How many nodes there are. */
    ghost const total: nat
    var free: seq<Msg>
    var freeCount: nat
    var used: seq<Msg>
    var matched: seq<seq<Msg>>
    var msgCount: seq<nat>
    var rxMsgCount: nat
    var rxSoftOverFlowCnt: nat
    var rxFailCnt: nat
    /** Nodes that a failed reception took and gave back to no list. */
    ghost var lost: nat

    /** Every node is in exactly one place; each filter's list is its share of the used
        list, and the counts are right. `hand` is the node in the driver's hands. */
    ghost predicate Holding(hand: set<nat>)
      reads `free, `freeCount, `used, `matched, `msgCount, `lost
    {
      var placed, shared := Placed(free, used, hand), Shares(matched, msgCount, used);
      placed && shared && freeCount == |free| && |free| + |used| + |hand| + lost == total
    }

    ghost predicate Valid()
      reads this
    {
      Holding({})
    }

    function State(): Box
      reads this
    {
      Box(overwrite, |matched|, free, used, Counts(rxMsgCount, rxSoftOverFlowCnt, rxFailCnt))
    }

    /** _can_fifo_init and _can_filter_init */
    constructor (nodes: seq<Msg>, filters: nat, overwrite: bool)
      requires Placed(nodes, [], {})
      ensures Valid() && State() == Box(overwrite, filters, nodes, [], Counts(0, 0, 0))
      ensures lost == 0 && total == |nodes|
    {
      this.overwrite, total := overwrite, |nodes|;
      free, freeCount, used := nodes, |nodes|, [];
      matched, msgCount := seq(filters, i => []), seq(filters, i => 0);
      rxMsgCount, rxSoftOverFlowCnt, rxFailCnt := 0, 0, 0;
      lost := 0;
    }

    /** _can_get_free_msg_list: a free node, or with overwriting that of the oldest
        message of all. If there is neither, it loops for ever: the driver is stuck. */
    method TakeNode() returns (m: Msg, overflow: bool, none: bool, stuck: bool)
      requires Holding({})
      modifies `free, `freeCount, `used
      ensures stuck <==> !old(State()).Alive()
      ensures none <==> old(free) == [] && !overwrite
      ensures none || stuck ==> unchanged(this) && m.owner == NONE
      ensures overflow <==> old(free) == [] && !stuck
      ensures freeCount == |free| && State() == old(State()).Emptied()
      ensures !none && !stuck ==> Placed(free, used, {m.node}) && |free| + |used| + 1 == old(|free| + |used|)
      ensures !none && !stuck ==> m == if overflow then old(used)[0] else old(free)[0]
    {
      m, overflow, none, stuck := Msg(0, NONE, Frame(0, [])), false, false, false;
      if free != [] {
        m := free[0];
        FreeToHand(free, used);
        free, freeCount := free[1..], freeCount - 1;
      } else if used != [] && overwrite {
        overflow := true;
        m := used[0];
        UsedToHand(free, used, 0);
        used := RemoveAt(used, 0);
      } else if !overwrite {
        overflow, none := true, true;
      } else {
        stuck := true;
      }
    }

    /** The node of the first used message leaves its filter. */
    method LeaveFilter(m: Msg, overflow: bool, ghost us: seq<Msg>) returns (n: Msg)
      requires us != [] && m == us[0] && used == RemoveAt(us, 0) && overflow
      requires var shared := Shares(matched, msgCount, us); shared
      modifies `matched, `msgCount
      ensures n == m.(owner := NONE) && |matched| == old(|matched|)
      ensures var shared := Shares(matched, msgCount, used); shared
    {
      assert us[0] in us && First(us, m.owner) == 0;
      TakeShares(matched, msgCount, us, m.owner);
      matched := matched[m.owner := matched[m.owner][1..]];
      if overflow {
        msgCount := msgCount[m.owner := msgCount[m.owner] - 1];
      }
      n := m.(owner := NONE);
    }

    /** _canrx_get_free_msg_list: the node leaves its filter too. */
    method GetFree() returns (m: Msg, overflow: bool, none: bool, stuck: bool)
      requires Holding({})
      modifies `free, `freeCount, `used, `matched, `msgCount
      ensures stuck <==> !old(State()).Alive()
      ensures none <==> old(free) == [] && !overwrite
      ensures none || stuck ==> unchanged(this)
      ensures overflow <==> old(free) == [] && !stuck
      ensures !none && !stuck ==> Holding({m.node}) && m == old(State()).Room() && m.owner == NONE
      ensures |matched| == old(|matched|) && State() == old(State()).Emptied()
    {
      ghost var us := used;
      if free != [] {
        FreeToHand(free, used);
      }
      m, overflow, none, stuck := TakeNode();
      assert overflow && !none ==> us != [] && used == RemoveAt(us, 0) && m == us[0];
      if m.owner != NONE {
        m := LeaveFilter(m, overflow, us);
      }
    }

    /** _canrx_add_free_msg_list */
    method AddFree(m: Msg)
      requires Holding({m.node}) && m.owner == NONE
      modifies `free, `freeCount
      ensures Holding({}) && free == old(free) + [m]
    {
      HandToFree(free, used, m);
      free, freeCount := free + [m], freeCount + 1;
    }

    /** _canrx_add_used_msg_list */
    method AddUsed(node: nat, slot: nat, frame: Frame)
      requires Holding({node}) && slot < |matched|
      modifies `used, `matched, `msgCount
      ensures Holding({}) && |matched| == old(|matched|)
      ensures used == old(used) + [Msg(node, slot, frame)]
    {
      var m := Msg(node, slot, frame);
      PutShares(matched, msgCount, used, m);
      HandToUsed(free, used, m);
      matched := matched[slot := matched[slot] + [m]];
      msgCount := msgCount[slot := msgCount[slot] + 1];
      used := used + [m];
    }

    /** What becomes of the node in hand: lost, given back, or used. */
    method Store(m: Msg, hw: Hardware)
      requires Holding({m.node}) && m.owner == NONE
      modifies this
      ensures Holding({}) && State() == old(State()).Put(m, hw)
      ensures lost == old(lost) + if hw.Failed? then 1 else 0
      ensures hw.Got? && hw.slot < |old(matched)| ==>
        && used == old(used) + [Msg(m.node, hw.slot, hw.frame)] && free == old(free)
        && rxMsgCount == old(rxMsgCount) + 1 && rxFailCnt == old(rxFailCnt)
      ensures !(hw.Got? && hw.slot < |old(matched)|) ==>
        && used == old(used) && free == (if hw.Failed? then old(free) else old(free) + [m])
        && rxMsgCount == old(rxMsgCount) && rxFailCnt == old(rxFailCnt) + 1
      ensures |matched| == old(|matched|) && rxSoftOverFlowCnt == old(rxSoftOverFlowCnt)
    {
      if hw.Got? && hw.slot < |matched| {
        AddUsed(m.node, hw.slot, hw.frame);
        rxMsgCount := rxMsgCount + 1;
      } else {
        if hw.Failed? {
          lost := lost + 1;
        } else {
          AddFree(m);
        }
        rxFailCnt := rxFailCnt + 1;
      }
    }

    /** hal_can_isr when a frame has come. With a node for it, a frame of a filter is kept
        as the newest message, and any other is a failure. A failed recv_msg costs the
        node it was for, and when all nodes are lost an overwriting receiver is stuck. */
    method Receive(hw: Hardware) returns (stuck: bool)
      requires Valid()
      modifies this
      ensures Valid() && State() == old(State()).Arrive(hw)
      ensures stuck <==> overwrite && old(lost) == total
      ensures stuck ==> unchanged(this)
      ensures !stuck ==> lost == old(lost) + if hw.Failed? && (old(free) != [] || overwrite) then 1 else 0
      ensures stuck <==> overwrite && old(free) == [] && old(used) == []
      ensures |matched| == old(|matched|)
      ensures rxSoftOverFlowCnt == old(rxSoftOverFlowCnt) + if old(free) == [] && !stuck then 1 else 0
      ensures var room := old(free) != [] || (overwrite && old(used) != []);
        var good := hw.Got? && hw.slot < |old(matched)|;
        && rxMsgCount == old(rxMsgCount) + (if room && good then 1 else 0)
        && rxFailCnt == old(rxFailCnt) + if room && !good then 1 else 0
      ensures old(free) != [] ==> var m := old(free)[0];
        if hw.Got? && hw.slot < |old(matched)|
        then free == old(free)[1..] && used == old(used) + [Msg(m.node, hw.slot, hw.frame)]
        else used == old(used) && free == old(free)[1..] + if hw.Failed? then [] else [m]
      ensures old(free) == [] && overwrite && old(used) != [] ==> var m := old(used)[0];
        if hw.Got? && hw.slot < |old(matched)|
        then free == [] && used == old(used)[1..] + [Msg(m.node, hw.slot, hw.frame)]
        else used == old(used)[1..] && free == if hw.Failed? then [] else [m.(owner := -1)]
      ensures old(free) == [] && !overwrite ==> free == [] && used == old(used)
    {
      var m, overflow, none;
      m, overflow, none, stuck := GetFree();
      if overflow {
        rxSoftOverFlowCnt := rxSoftOverFlowCnt + 1;
      }
      if !none && !stuck {
        Store(m, hw);
      }
    }

    /** canrx_get_used_msg_list */
    method GetUsed(f: nat) returns (m: Msg, ghost k: nat)
      requires Holding({}) && f < |matched| && msgCount[f] > 0
      modifies `used, `matched, `msgCount
      ensures k == First(old(used), f) && k < |old(used)| && m == old(used)[k] && used == RemoveAt(old(used), k)
      ensures Holding({m.node}) && |matched| == old(|matched|)
    {
      m := matched[f][0];
      k := First(used, f);
      OldestOf(used, f);
      TakeShares(matched, msgCount, used, f);
      UsedToHand(free, used, k);
      msgCount := msgCount[f := msgCount[f] - 1];
      used := RemoveAt(used, Position(used, m.node));
      matched := matched[f := matched[f][1..]];
    }

    /** The part of canrx_msg_get_noblock after its test. */
    method TakeOldest(f: nat) returns (frame: Frame, ghost k: nat)
      requires Holding({}) && f < |matched| && msgCount[f] > 0
      modifies `free, `freeCount, `used, `matched, `msgCount
      ensures Valid() && |matched| == old(|matched|)
      ensures k == First(old(used), f) && k < |old(used)| && frame == old(used)[k].frame
      ensures used == RemoveAt(old(used), k) && free == old(free) + [old(used)[k].(owner := NONE)]
    {
      var m;
      m, k := GetUsed(f);
      frame := m.frame;
      AddFree(m.(owner := NONE));
    }

    /** canrx_msg_get_noblock: a filter has nothing to read exactly when its count is
        zero, and otherwise its oldest message is read. */
    method Read(f: nat) returns (empty: bool, frame: Frame)
      requires Valid() && f < |matched|
      modifies this
      ensures Valid() && |matched| == old(|matched|) && lost == old(lost)
      ensures empty <==> First(old(used), f) == |old(used)|
      ensures empty ==> State() == old(State())
      ensures !empty ==> State() == old(State()).Read(f) && frame == old(used)[First(old(used), f)].frame
      ensures empty <==> forall m | m in old(used) :: m.owner != f
      ensures !empty ==> exists k ::
        && 0 <= k < |old(used)| && old(used)[k].owner == f && frame == old(used)[k].frame
        && (forall i | 0 <= i < k :: old(used)[i].owner != f)
        && used == old(used)[..k] + old(used)[k + 1..] && free == old(free) + [old(used)[k].(owner := -1)]
      ensures unchanged(`rxMsgCount) && unchanged(`rxSoftOverFlowCnt) && unchanged(`rxFailCnt)
    {
      OldestOf(used, f);
      empty, frame := true, Frame(0, []);
      if msgCount[f] == 0 {
        return;
      } else if used == [] {
        return;
      }
      ghost var k;
      frame, k := TakeOldest(f);
      empty := false;
    }
  }
}
