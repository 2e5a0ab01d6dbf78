/** hal_can_core.c, the sending side: message nodes move between the free list, the
    list of messages that wait, and the hardware's mailboxes. */
module CanTransmit {
  import opened CanFifo
  import opened Sequences

  datatype Option<T> = None | Some(value: T)

  datatype Mailbox = Mailbox(isBusy: bool, held: Option<Msg>)

  /** What send_msg_mailbox answers: the mailbox it used, or that it refused, because
      the mailboxes are full or for another reason. */
  datatype Answer = Sent(box: nat) | Refused(full: bool)

  /** The counters of the status manager: txMsgCount, txFailCnt, txSoftOverFlowCnt and
      txMailboxFullCnt. */
  datatype Tally = Tally(sent: nat, failed: nat, overflowed: nat, full: nat) {
    /** n messages are lost to an overflow. */
    function Lose(n: nat): Tally {
      this.(failed := failed + n, overflowed := overflowed + n)
    }
  }

  const EMPTY := Mailbox(false, None)

  /** A mailbox is on the idle list, once, or busy with a node that it owns. */
  predicate Boxed(boxes: seq<Mailbox>, idle: seq<nat>) {
    && NoRepeats(idle) && (forall b | b in idle :: b < |boxes| && boxes[b] == EMPTY)
    && forall b | 0 <= b < |boxes| && b !in idle :: Busy(boxes[b], b)
  }

  predicate Busy(box: Mailbox, b: int) {
    box.isBusy && box.held.Some? && box.held.value.owner == b
  }

  function BusyCount(boxes: seq<Mailbox>): (n: nat)
    ensures n <= |boxes|
  {
    if boxes == [] then 0 else BusyCount(boxes[..|boxes| - 1]) + if boxes[|boxes| - 1].isBusy then 1 else 0
  }

  lemma {:induction false} BusyChange(boxes: seq<Mailbox>, b: nat, box: Mailbox)
    requires b < |boxes|
    ensures BusyCount(boxes[b := box])
      == BusyCount(boxes) - (if boxes[b].isBusy then 1 else 0) + if box.isBusy then 1 else 0
  {
    var k := |boxes| - 1;
    if b == k {
      assert boxes[b := box][..k] == boxes[..k];
    } else {
      BusyChange(boxes[..k], b, box);
      assert boxes[b := box][..k] == boxes[..k][b := box];
    }
  }

  lemma {:induction false} NoneBusy(boxes: seq<Mailbox>)
    requires forall b | 0 <= b < |boxes| :: !boxes[b].isBusy
    ensures BusyCount(boxes) == 0
  {
    if boxes == [] {
    } else {
      NoneBusy(boxes[..|boxes| - 1]);
    }
  }

  /** The driver's assumption about the hardware: it uses mailboxes that are idle. */
  predicate Fair(idle: seq<nat>, answers: seq<Answer>) {
    answers != [] && answers[0].Sent? ==>
      answers[0].box in idle && Fair(Without(idle, answers[0].box), answers[1..])
  }

  predicate AllBelow(chosen: seq<nat>, n: nat) {
    forall i | 0 <= i < |chosen| :: chosen[i] < n
  }

  /** The mailboxes when the first of the waiting messages are in those chosen. */
  function Loaded(boxes: seq<Mailbox>, waiting: seq<Msg>, chosen: seq<nat>): (r: seq<Mailbox>)
    requires |chosen| <= |waiting| && AllBelow(chosen, |boxes|)
    ensures |r| == |boxes|
  {
    if chosen == [] then boxes
    else
      var k := |chosen| - 1;
      Loaded(boxes, waiting, chosen[..k])[chosen[k] := Mailbox(true, Some(waiting[k].(owner := chosen[k])))]
  }

  function Without(idle: seq<nat>, b: nat): (r: seq<nat>)
    ensures |r| == if b in idle then |idle| - 1 else |idle|
  {
    if b in idle then RemoveAt(idle, IndexOf(idle, b)) else idle
  }

  lemma IsWithout(idle: seq<nat>, b: nat)
    requires NoRepeats(idle)
    ensures NoRepeats(Without(idle, b)) && b !in Without(idle, b)
    ensures forall x | x != b :: x in Without(idle, b) <==> x in idle
  {
    if b in idle {
      RemoveOnly(idle, IndexOf(idle, b));
    }
  }

  /** The idle mailboxes less those chosen. */
  function Idle(idle: seq<nat>, chosen: seq<nat>): (r: seq<nat>)
    ensures |r| >= |idle| - |chosen|
  {
    if chosen == [] then idle else Without(Idle(idle, chosen[..|chosen| - 1]), chosen[|chosen| - 1])
  }

  lemma {:induction false} IdleIs(idle: seq<nat>, chosen: seq<nat>)
    requires NoRepeats(idle)
    ensures NoRepeats(Idle(idle, chosen))
    ensures forall b :: b in Idle(idle, chosen) <==> b in idle && b !in chosen
  {
    if chosen == [] {
    } else {
      var front, last := chosen[..|chosen| - 1], chosen[|chosen| - 1];
      assert chosen == front + [last];
      IdleIs(idle, front);
      IsWithout(Idle(idle, front), last);
    }
  }

  /** What the scheduler moves: the messages that wait, the mailboxes, the idle ones. */
  datatype Outbox = Outbox(used: seq<Msg>, boxes: seq<Mailbox>, idle: seq<nat>) {
    /** The hardware has put the first messages into the mailboxes it chose, and is
        fair about the rest. */
    predicate After(chosen: seq<nat>, was: Outbox, answers: seq<Answer>) {
      var sized := |chosen| <= |was.used| && |chosen| <= |answers| && |boxes| == |was.boxes|;
      sized && AllBelow(chosen, |boxes|) &&
      var taken := forall i | 0 <= i < |chosen| :: answers[i] == Sent(chosen[i]);
      var left := used == was.used[|chosen|..] && idle == Idle(was.idle, chosen) && |idle| == |was.idle| - |chosen|;
      var loaded, fair := boxes == Loaded(was.boxes, was.used, chosen), Fair(idle, answers[|chosen|..]);
      taken && left && loaded && fair
    }

    function Launch(b: nat): Outbox
      requires used != [] && b in idle && b < |boxes|
    {
      Outbox(RemoveAt(used, 0), boxes[b := Mailbox(true, Some(used[0].(owner := b)))], Without(idle, b))
    }
  }

  lemma NoneTaken(o: Outbox, answers: seq<Answer>)
    requires Fair(o.idle, answers)
    ensures o.After([], o, answers)
  {
    assert answers[0..] == answers && o.used[0..] == o.used;
  }

  lemma OneMoreTaken(o: Outbox, chosen: seq<nat>, was: Outbox, answers: seq<Answer>)
    requires o.After(chosen, was, answers) && o.used != []
    requires |chosen| < |answers| && answers[|chosen|].Sent? && forall b | b in o.idle :: b < |o.boxes|
    ensures var b := answers[|chosen|].box; b in o.idle && o.Launch(b).After(chosen + [b], was, answers)
  {
    var k, b := |chosen|, answers[|chosen|].box;
    assert answers[k..][1..] == answers[k + 1..];
    assert RemoveAt(was.used[k..], 0) == was.used[k + 1..];
    assert (chosen + [b])[..k] == chosen;
  }

  /** The mailboxes chosen were idle, and no two of them are the same. */
  lemma {:induction false} ChosenApart(idle: seq<nat>, chosen: seq<nat>)
    requires NoRepeats(idle) && |Idle(idle, chosen)| == |idle| - |chosen|
    ensures NoRepeats(chosen) && forall b | b in chosen :: b in idle
  {
    if chosen == [] {
    } else {
      var front, last := chosen[..|chosen| - 1], chosen[|chosen| - 1];
      assert chosen == front + [last];
      assert last in Idle(idle, front);
      ChosenApart(idle, front);
      IdleIs(idle, front);
    }
  }

  /** Each of the messages taken is alone in the mailbox chosen for it, and no other
      mailbox has changed. */
  lemma {:induction false} EachInItsBox(boxes: seq<Mailbox>, waiting: seq<Msg>, chosen: seq<nat>)
    requires |chosen| <= |waiting| && NoRepeats(chosen) && AllBelow(chosen, |boxes|)
    ensures forall i | 0 <= i < |chosen| ::
      Loaded(boxes, waiting, chosen)[chosen[i]] == Mailbox(true, Some(waiting[i].(owner := chosen[i])))
    ensures forall b | 0 <= b < |boxes| && b !in chosen :: Loaded(boxes, waiting, chosen)[b] == boxes[b]
  {
    if chosen == [] {
    } else {
      var front, last := chosen[..|chosen| - 1], chosen[|chosen| - 1];
      assert chosen == front + [last];
      EachInItsBox(boxes, waiting, front);
    }
  }

  lemma Moved(now: Outbox, chosen: seq<nat>, was: Outbox, answers: seq<Answer>)
    requires now.After(chosen, was, answers) && NoRepeats(was.idle)
    ensures |chosen| <= |was.used| && now.used == was.used[|chosen|..] && |chosen| <= |answers|
    ensures |now.boxes| == |was.boxes| && forall i | 0 <= i < |chosen| ::
      && answers[i] == Sent(chosen[i]) && chosen[i] < |now.boxes| && chosen[i] in was.idle
      && now.boxes[chosen[i]] == Mailbox(true, Some(was.used[i].(owner := chosen[i])))
    ensures NoRepeats(chosen) && forall b | 0 <= b < |now.boxes| && b !in chosen :: now.boxes[b] == was.boxes[b]
    ensures forall b :: b in now.idle <==> b in was.idle && b !in chosen
  {
    ChosenApart(was.idle, chosen);
    EachInItsBox(was.boxes, was.used, chosen);
    IdleIs(was.idle, chosen);
    assert forall i | 0 <= i < |chosen| :: chosen[i] in chosen;
  }

  /** No node is in two mailboxes, or in a mailbox and somewhere else. */
  predicate Apart(boxes: seq<Mailbox>, ms: seq<Msg>, hand: set<nat>) {
    && (forall a, b | 0 <= a < b < |boxes| && boxes[a].held.Some? && boxes[b].held.Some? ::
          boxes[a].held.value.node != boxes[b].held.value.node)
    && forall b | 0 <= b < |boxes| && boxes[b].held.Some? ::
        boxes[b].held.value.node !in hand && forall m | m in ms :: m.node != boxes[b].held.value.node
  }

  /** Messages that wait have no owner: none of them is in a mailbox. */
  predicate Unowned(ms: seq<Msg>) {
    forall m | m in ms :: m.owner == NONE
  }

  lemma TakeFromBox(boxes: seq<Mailbox>, idle: seq<nat>, ms: seq<Msg>, b: nat)
    requires Boxed(boxes, idle) && Apart(boxes, ms, {}) && b < |boxes| && boxes[b].isBusy
    ensures b !in idle && Busy(boxes[b], b)
    ensures Boxed(boxes[b := EMPTY], idle + [b]) && Apart(boxes[b := EMPTY], ms, {boxes[b].held.value.node})
    ensures forall m | m in ms :: m.node != boxes[b].held.value.node
  {
    assert forall i | 0 <= i < |idle| :: idle[i] in idle;
  }

  /** A message goes into the idle mailbox b. */
  lemma PutInBox(boxes: seq<Mailbox>, idle: seq<nat>, m: Msg, b: nat)
    requires Boxed(boxes, idle) && b in idle && b < |boxes| && m.owner == b
    ensures Boxed(boxes[b := Mailbox(true, Some(m))], Without(idle, b))
    ensures BusyCount(boxes[b := Mailbox(true, Some(m))]) == BusyCount(boxes) + 1
  {
    var after, left := boxes[b := Mailbox(true, Some(m))], Without(idle, b);
    IsWithout(idle, b);
    BusyChange(boxes, b, Mailbox(true, Some(m)));
    forall x | 0 <= x < |after| && x !in left
      ensures Busy(after[x], x)
    {
      assert x == b || x !in idle;
    }
    forall x | x in left
      ensures x < |after| && after[x] == EMPTY
    {
      assert x in idle && x != b;
    }
  }

  /** It was in no other mailbox, and is gone from the list of those that wait. */
  lemma StaysApart(boxes: seq<Mailbox>, ms: seq<Msg>, rest: seq<Msg>, m: Msg, b: nat)
    requires Apart(boxes, ms, {}) && b < |boxes| && m in ms && forall x | x in rest :: x in ms && x.node != m.node
    ensures Apart(boxes[b := Mailbox(true, Some(m.(owner := b)))], rest, {})
  {
  }

  lemma RestApart(free: seq<Msg>, used: seq<Msg>)
    requires used != [] && Off(free, {used[0].node}) && Off(RemoveAt(used, 0), {used[0].node})
    ensures forall x | x in free + RemoveAt(used, 0) :: x in free + used && x.node != used[0].node
    ensures used[0] in free + used
  {
    forall x | x in free + RemoveAt(used, 0)
      ensures x in free + used && x.node != used[0].node
    {
      assert x in free || x in RemoveAt(used, 0);
    }
  }

  /** The contents of the nodes. */
  function Frames(ms: seq<Msg>): (fs: seq<Frame>)
    ensures |fs| == |ms|
  {
    if ms == [] then [] else Frames(ms[..|ms| - 1]) + [ms[|ms| - 1].frame]
  }

  lemma {:induction false} FramesAre(ms: seq<Msg>)
    ensures forall i | 0 <= i < |ms| :: Frames(ms)[i] == ms[i].frame
  {
    if ms == [] {
    } else {
      FramesAre(ms[..|ms| - 1]);
    }
  }

  lemma {:induction false} FramesTail(ms: seq<Msg>)
    requires ms != []
    ensures Frames(RemoveAt(ms, 0)) == Frames(ms)[1..]
  {
    if |ms| == 1 {
    } else {
      var front := ms[..|ms| - 1];
      FramesTail(front);
      assert RemoveAt(ms, 0)[..|ms| - 2] == RemoveAt(front, 0);
    }
  }

  lemma {:induction false} FramesDrop(ms: seq<Msg>, k: nat)
    requires k <= |ms|
    ensures Frames(ms[k..]) == Frames(ms)[k..]
  {
    if k == 0 {
      assert ms[0..] == ms;
    } else {
      FramesDrop(ms, k - 1);
      FramesTail(ms[k - 1..]);
      assert RemoveAt(ms[k - 1..], 0) == ms[k..];
    }
  }

  lemma FramesAppend(ms: seq<Msg>, m: Msg)
    ensures Frames(ms + [m]) == Frames(ms) + [m.frame]
  {
    assert (ms + [m])[..|ms|] == ms;
  }

  /** What waits after the frames fs came for a queue with room for `room` more: the
      first ones that fit, or with overwriting the last ones. */
  function Written(waiting: seq<Frame>, fs: seq<Frame>, room: nat, overwrite: bool): seq<Frame> {
    if |fs| <= room then waiting + fs
    else if !overwrite then waiting + fs[..room]
    else (waiting + fs)[|fs| - room..]
  }

  /** What is left when the first n are gone. */
  function Rest(free: seq<Msg>, n: nat): seq<Msg> {
    if n <= |free| then free[n..] else []
  }

  lemma RestNext(free: seq<Msg>, n: nat)
    ensures Rest(free, 0) == free && Rest(Rest(free, n), 1) == Rest(free, n + 1)
  {
  }

  function Excess(fs: nat, room: nat): nat {
    if fs <= room then 0 else fs - room
  }

  /** The write has stored the first n frames, or stopped there; `now` waits, there is
      room for `free` more, and `lost` messages are counted as lost. */
  predicate PutSoFar(n: nat, stored: bool, frames: seq<Frame>, waiting: seq<Frame>, room: nat, overwrite: bool,
                     now: seq<Frame>, free: nat, lost: nat)
  {
    && n <= |frames|
    && var written, counted := now == Written(waiting, frames[..n], room, overwrite), free == Excess(room, n);
      var stops := !overwrite ==> if stored then n <= room else n == room;
      written && counted && stops && (stored || !overwrite) && lost == if stored then Excess(n, room) else |frames| - n
  }

  lemma PutStep(n: nat, frames: seq<Frame>, waiting: seq<Frame>, room: nat, overwrite: bool,
                now: seq<Frame>, free: nat, lost: nat)
    requires PutSoFar(n, true, frames, waiting, room, overwrite, now, free, lost) && n < |frames|
    requires overwrite ==> |waiting| + room > 0
    ensures free > 0 ==>
      PutSoFar(n + 1, true, frames, waiting, room, overwrite, now + [frames[n]], free - 1, lost)
    ensures free == 0 && overwrite ==>
      now != [] && PutSoFar(n + 1, true, frames, waiting, room, overwrite, now[1..] + [frames[n]], 0, lost + 1)
    ensures free == 0 && !overwrite ==>
      PutSoFar(n, false, frames, waiting, room, overwrite, now, 0, lost + (|frames| - n))
  {
    OneMoreWritten(waiting, frames[..n], frames[n], room, overwrite);
    assert frames[..n] + [frames[n]] == frames[..n + 1];
  }

  lemma PutEnd(n: nat, stored: bool, frames: seq<Frame>, waiting: seq<Frame>, room: nat, overwrite: bool,
               now: seq<Frame>, free: nat, lost: nat)
    requires PutSoFar(n, stored, frames, waiting, room, overwrite, now, free, lost) && (n == |frames| || !stored)
    ensures now == Written(waiting, frames, room, overwrite) && lost == Excess(|frames|, room)
    ensures n == if overwrite then |frames| else |frames| - Excess(|frames|, room)
  {
    assert frames[..|frames|] == frames;
  }

  lemma OneMoreWritten(waiting: seq<Frame>, fs: seq<Frame>, f: Frame, room: nat, overwrite: bool)
    requires overwrite ==> |waiting| + room > 0
    ensures var was, now := Written(waiting, fs, room, overwrite), Written(waiting, fs + [f], room, overwrite);
      if |fs| < room then now == was + [f]
      else if overwrite then was != [] && now == was[1..] + [f]
      else now == was
  {
    if |fs| < room {
      assert waiting + (fs + [f]) == (waiting + fs) + [f];
    } else if overwrite {
      assert waiting + (fs + [f]) == (waiting + fs) + [f];
      assert waiting + fs == (waiting + fs)[0..];
    } else {
      assert (fs + [f])[..room] == fs[..room];
    }
  }

  class TxHandler {
    const overwrite: bool
    /** How many nodes there are. */
    ghost const total: nat
    var free: seq<Msg>
    var freeCount: nat
    var used: seq<Msg>
    var boxes: seq<Mailbox>
    /** The mailboxes that can take a message. */
    var idle: seq<nat>
    var tally: Tally

    /** Every node is in one place: free, waiting, in one busy mailbox or in hand. */
    ghost predicate Holding(hand: set<nat>)
      reads `free, `freeCount, `used, `boxes, `idle
    {
      var placed, boxed := Placed(free, used, hand), Boxed(boxes, idle);
      var apart, unowned := Apart(boxes, free + used, hand), Unowned(used);
      && placed && boxed && apart && unowned && freeCount == |free|
      && |free| + |used| + BusyCount(boxes) + |hand| == total
    }

    ghost predicate Valid()
      reads `free, `freeCount, `used, `boxes, `idle
    {
      var held := Holding({});
      held
    }

    /** A write finds a node, or can give up without one. */
    predicate Alive()
      reads `free, `used
    {
      overwrite ==> free != [] || used != []
    }

    function State(): Outbox
      reads `used, `boxes, `idle
    {
      Outbox(used, boxes, idle)
    }

    /** _can_txhandler_init */
    constructor (nodes: seq<Msg>, mailboxNum: nat, overwrite: bool)
      requires Placed(nodes, [], {})
      ensures Valid() && free == nodes && used == [] && |boxes| == |idle| == mailboxNum
      ensures this.overwrite == overwrite && total == |nodes| && NoRepeats(idle)
      ensures forall b | 0 <= b < |boxes| :: b in idle && boxes[b] == EMPTY
      ensures tally == Tally(0, 0, 0, 0)
    {
      this.overwrite, total := overwrite, |nodes|;
      free, freeCount, used := nodes, |nodes|, [];
      tally := Tally(0, 0, 0, 0);
      boxes, idle := seq(mailboxNum, i => EMPTY), seq(mailboxNum, i => i);
      new;
      forall b | 0 <= b < |boxes|
        ensures b in idle
      {
        assert idle[b] == b;
      }
      NoneBusy(boxes);
    }

    /** _cantx_get_free_msg_list over _can_get_free_msg_list: a free node, or with
        overwriting that of the message that has waited longest. Its owner is never a
        mailbox. If there is neither, it loops for ever: the driver is stuck. */
    method GetFree() returns (m: Msg, overflow: bool, none: bool, stuck: bool)
      requires Valid()
      modifies `free, `freeCount, `used
      ensures stuck <==> !old(Alive())
      ensures none <==> old(free) == [] && !overwrite
      ensures none || stuck ==> unchanged(this)
      ensures overflow <==> old(free) == [] && !stuck
      ensures !none && !stuck ==> Holding({m.node}) && m.owner == NONE
      ensures !none && !stuck ==>
                if overflow then m == old(used[0]) && used == RemoveAt(old(used), 0) && free == []
                else m == old(free[0]) && used == old(used) && free == old(free[1..])
    {
      m, overflow, none, stuck := Msg(0, NONE, Frame(0, [])), false, false, false;
      if free != [] {
        m := free[0];
        FreeToHand(free, used);
        free, freeCount := free[1..], freeCount - 1;
      } else if used != [] && overwrite {
        overflow := true;
        m := used[0];
        UsedToHand(free, used, 0);
        used := RemoveAt(used, 0);
      } else if !overwrite {
        overflow, none := true, true;
      } else {
        stuck := true;
      }
      if m.owner != NONE {
        assert false;
      }
    }

    /** A node for the frame, which then waits, if there is one. */
    method Take(frame: Frame) returns (stored: bool, overflow: bool, stuck: bool)
      requires Valid()
      modifies `free, `freeCount, `used
      ensures Valid() && (stuck <==> !old(Alive())) && (stored <==> old(Alive()) && (old(free) != [] || overwrite))
      ensures overflow <==> old(free) == [] && !stuck
      ensures !stored ==> unchanged(this)
      ensures stored ==> free == Rest(old(free), 1) && used != []
      ensures stored && !overflow ==> Frames(used) == old(Frames(used)) + [frame]
      ensures stored && overflow ==> old(used) != [] && Frames(used) == old(Frames(used))[1..] + [frame]
    {
      var m, none;
      m, overflow, none, stuck := GetFree();
      stored := !none && !stuck;
      if stored {
        if overflow {
          FramesTail(old(used));
        }
        FramesAppend(used, m.(frame := frame));
        AddUsed(m.(frame := frame));
      }
    }

    /** One message of cantx_msg_put_nonblock, of which there are `left`: what is not
        stored or gives way is counted. */
    method PutOne(frame: Frame, left: nat) returns (stored: bool, stuck: bool)
      requires Valid()
      modifies `free, `freeCount, `used, `tally
      ensures Valid() && (stuck <==> !old(Alive())) && (stored <==> old(Alive()) && (old(free) != [] || overwrite))
      ensures stuck ==> unchanged(this)
      ensures !stored ==> free == old(free) && used == old(used)
      ensures stored ==> free == Rest(old(free), 1) && used != []
      ensures stored && old(free) != [] ==> Frames(used) == old(Frames(used)) + [frame]
      ensures stored && old(free) == [] ==> old(used) != [] && Frames(used) == old(Frames(used))[1..] + [frame]
      ensures var lost := if old(free) != [] || stuck then 0 else if stored then 1 else left;
        tally == old(tally).Lose(lost)
    {
      var overflow;
      stored, overflow, stuck := Take(frame);
      if overflow {
        if !overwrite {
          tally := tally.Lose(left);
        } else {
          tally := tally.Lose(1);
        }
      }
    }

    /** One turn of the loop below; the ghost result is how many messages are lost now. */
    method PutNext(n: nat, frames: seq<Frame>, ghost waiting: seq<Frame>, ghost all: seq<Msg>, ghost lost: nat)
      returns (next: nat, stored: bool, ghost gone: nat)
      requires Valid() && Alive() && n < |frames| && free == Rest(all, n) && (overwrite ==> |waiting| + |all| > 0)
      requires PutSoFar(n, true, frames, waiting, |all|, overwrite, Frames(used), |free|, lost)
      modifies `free, `freeCount, `used, `tally
      ensures Valid() && Alive() && free == Rest(all, next) && n <= next <= |frames| && (stored ==> n < next)
      ensures PutSoFar(next, stored, frames, waiting, |all|, overwrite, Frames(used), |free|, gone)
      ensures gone >= lost && tally == old(tally).Lose(gone - lost)
    {
      RestNext(all, n);
      PutStep(n, frames, waiting, |all|, overwrite, Frames(used), |free|, lost);
      gone := lost + if free != [] then 0 else if overwrite then 1 else |frames| - n;
      var stuck;
      stored, stuck := PutOne(frames[n], |frames| - n);
      next := if stored then n + 1 else n;
    }

    /** The loop of cantx_msg_put_nonblock: it stores the messages that fit, or with
        overwriting all of them, and counts each message that is thereby lost. */
    method PutAll(frames: seq<Frame>) returns (n: nat)
      requires Valid() && (Alive() || frames == [])
      modifies `free, `freeCount, `used, `tally
      ensures Valid() && free == Rest(old(free), n)
      ensures n == if overwrite then |frames| else |frames| - Excess(|frames|, |old(free)|)
      ensures Frames(used) == Written(old(Frames(used)), frames, |old(free)|, overwrite)
      ensures tally == old(tally).Lose(Excess(|frames|, |old(free)|))
    {
      ghost var waiting, all := Frames(used), free;
      ghost var lost: nat := 0;
      n := 0;
      var stored := true;
      assert frames[..0] == [];
      while n < |frames| && stored
        invariant Valid() && (Alive() || frames == []) && free == Rest(all, n)
        invariant PutSoFar(n, stored, frames, waiting, |all|, overwrite, Frames(used), |free|, lost)
        invariant tally == old(tally).Lose(lost)
        decreases |frames| - n, stored
      {
        n, stored, lost := PutNext(n, frames, waiting, all, lost);
      }
      PutEnd(n, stored, frames, waiting, |all|, overwrite, Frames(used), |free|, lost);
    }

    /** The loop of cantx_msg_put_nonblock. If there is neither a free node nor one to
        overwrite, its first turn never ends. */
    method Put(frames: seq<Frame>) returns (n: nat, stuck: bool)
      requires Valid()
      modifies `free, `freeCount, `used, `tally
      ensures Valid() && (stuck <==> overwrite && frames != [] && BusyCount(boxes) == total)
      ensures stuck ==> unchanged(this) && n == 0
      ensures !stuck ==> n == if overwrite || |frames| <= |old(free)| then |frames| else |old(free)|
      ensures !stuck ==>
                var stored := Frames(used) == Written(old(Frames(used)), frames, |old(free)|, overwrite); stored
      ensures !stuck ==> var all := old(Frames(used)) + frames;
        Frames(used) == if |frames| <= |old(free)| then all
                else if overwrite then all[|frames| - |old(free)|..]
                else all[..|all| - (|frames| - |old(free)|)]
      ensures free == if n <= |old(free)| then old(free)[n..] else []
      ensures !stuck ==> var lost := if |frames| <= |old(free)| then 0 else |frames| - |old(free)|;
        && tally.failed == old(tally).failed + lost && tally.overflowed == old(tally).overflowed + lost
        && tally.sent == old(tally).sent && tally.full == old(tally).full
    {
      NodeForWrite();
      n, stuck := 0, false;
      if Alive() || frames == [] {
        n := PutAll(frames);
      } else {
        var stored;
        stored, stuck := PutOne(frames[0], |frames|);
      }
    }

    /** _can_add_used_msg_list */
    method AddUsed(m: Msg)
      requires Holding({m.node}) && m.owner == NONE
      modifies `used
      ensures Valid() && used == old(used) + [m]
    {
      HandToUsed(free, used, m);
      used := used + [m];
    }

    /** The oldest message that waits goes into the mailbox b. */
    method Launch(b: nat)
      requires Valid() && used != [] && b in idle && b < |boxes|
      modifies `used, `boxes, `idle
      ensures Valid() && State() == old(State()).Launch(b)
    {
      var m := used[0];
      UsedToHand(free, used, 0);
      PutInBox(boxes, idle, m.(owner := b), b);
      RestApart(free, used);
      StaysApart(boxes, free + used, free + RemoveAt(used, 0), m, b);
      used := RemoveAt(used, 0);
      idle := Without(idle, b);
      boxes := boxes[b := Mailbox(true, Some(m.(owner := b)))];
    }

    method LaunchNext(b: nat, ghost chosen: seq<nat>, ghost was: Outbox, ghost answers: seq<Answer>)
      requires Valid() && State().After(chosen, was, answers) && used != []
      requires |chosen| < |answers| && answers[|chosen|] == Sent(b)
      modifies `used, `boxes, `idle
      ensures Valid() && State().After(chosen + [b], was, answers)
      ensures |idle| < |old(idle)|
    {
      OneMoreTaken(State(), chosen, was, answers);
      Launch(b);
    }

    /** _can_tx_scheduler: the messages that have waited longest go into mailboxes, in
        order, until none waits, no mailbox is idle or the hardware refuses. */
    method Schedule(answers: seq<Answer>) returns (chosen: seq<nat>)
      requires Valid() && Fair(idle, answers) && |answers| >= |idle|
      modifies `used, `boxes, `idle, `tally
      ensures Valid() && var after := State().After(chosen, old(State()), answers); after
      ensures |chosen| <= |old(used)| && used == old(used)[|chosen|..] && |chosen| <= |answers|
      ensures |boxes| == |old(boxes)| && forall i | 0 <= i < |chosen| ::
        && answers[i] == Sent(chosen[i]) && chosen[i] < |boxes| && chosen[i] in old(idle)
        && boxes[chosen[i]] == Mailbox(true, Some(old(used)[i].(owner := chosen[i])))
      ensures forall i, j | 0 <= i < j < |chosen| :: chosen[i] != chosen[j]
      ensures forall b | 0 <= b < |boxes| && b !in chosen :: boxes[b] == old(boxes)[b]
      ensures forall b :: b in idle <==> b in old(idle) && b !in chosen
      ensures used == [] || idle == [] || (|chosen| < |answers| && answers[|chosen|].Refused?)
      ensures var full := used != [] && idle != [] && |chosen| < |answers| && answers[|chosen|] == Refused(true);
        tally == old(tally).(full := old(tally).full + if full then 1 else 0)
    {
      chosen := TakeTurns(answers);
      Moved(State(), chosen, old(State()), answers);
    }

    /** Its loop. */
    method TakeTurns(answers: seq<Answer>) returns (chosen: seq<nat>)
      requires Valid() && Fair(idle, answers) && |answers| >= |idle|
      modifies `used, `boxes, `idle, `tally
      ensures Valid() && var after := State().After(chosen, old(State()), answers); after
      ensures Stops(chosen, answers)
      ensures tally == old(tally).(full := old(tally).full + FullCount(chosen, answers))
    {
      chosen := [];
      NoneTaken(State(), answers);
      if used == [] {
        return;
      }
      while idle != []
        invariant Valid() && State().After(chosen, old(State()), answers)
        invariant used != [] && tally == old(tally)
        decreases |idle|
      {
        var ret := answers[|chosen|];
        if ret.Sent? {
          LaunchNext(ret.box, chosen, old(State()), answers);
          chosen := chosen + [ret.box];
        } else {
          if ret.full {
            tally := tally.(full := tally.full + 1);
          }
          return;
        }
        if used == [] {
          return;
        }
      }
    }

    predicate Stops(chosen: seq<nat>, answers: seq<Answer>)
      reads `used, `idle
    {
      used == [] || idle == [] || (|chosen| < |answers| && answers[|chosen|].Refused?)
    }

    /** A refusal is counted if there was a message to send and a mailbox for it. */
    function FullCount(chosen: seq<nat>, answers: seq<Answer>): nat
      reads `used, `idle
    {
      if used != [] && idle != [] && |chosen| < |answers| && answers[|chosen|] == Refused(true) then 1 else 0
    }

    /** cantx_msg_put_nonblock: outside interrupts the scheduler runs at once. The ghost
        result is what waited when it did. With overwriting, the driver is stuck exactly
        when every node is in a busy mailbox. */
    method Write(frames: seq<Frame>, inIsr: bool, answers: seq<Answer>)
      returns (n: nat, stuck: bool, chosen: seq<nat>, ghost waiting: seq<Msg>)
      requires Valid() && Fair(idle, answers) && |answers| >= |idle|
      modifies this
      ensures Valid() && (stuck <==> overwrite && frames != [] && old(BusyCount(boxes)) == total)
      ensures stuck ==> unchanged(this) && n == 0
      ensures !stuck ==> n == if overwrite || |frames| <= |old(free)| then |frames| else |old(free)|
      ensures !stuck ==>
                var stored := Frames(waiting) == Written(old(Frames(used)), frames, |old(free)|, overwrite); stored
      ensures !stuck ==> var all := old(Frames(used)) + frames;
        Frames(waiting) == if |frames| <= |old(free)| then all
                   else if overwrite then all[|frames| - |old(free)|..]
                   else all[..|all| - (|frames| - |old(free)|)]
      ensures !stuck ==> var after := State().After(chosen, Outbox(waiting, old(boxes), old(idle)), answers); after
      ensures !stuck ==> used == waiting[|chosen|..] && if inIsr then chosen == [] else
                used == [] || idle == [] || (|chosen| < |answers| && answers[|chosen|].Refused?)
      ensures free == if n <= |old(free)| then old(free)[n..] else []
      ensures !stuck ==>
                var lost := if |frames| <= |old(free)| then 0 else |frames| - |old(free)|;
                && tally.failed == old(tally).failed + lost && tally.overflowed == old(tally).overflowed + lost
      ensures !stuck ==>
                var full := !inIsr && used != [] && idle != [] && |chosen| < |answers| &&
                            answers[|chosen|] == Refused(true);
                tally.sent == old(tally).sent && tally.full == old(tally).full + if full then 1 else 0
    {
      n, stuck := Put(frames);
      chosen, waiting := [], used;
      if stuck {
        return;
      }
      ghost var was := State();
      assert was == Outbox(waiting, old(boxes), old(idle));
      chosen := ScheduleUnless(inIsr, answers);
      ghost var after := State().After(chosen, was, answers);
      assert after;
    }

    /** In an interrupt the scheduler need not be called. */
    method ScheduleUnless(inIsr: bool, answers: seq<Answer>) returns (chosen: seq<nat>)
      requires Valid() && Fair(idle, answers) && |answers| >= |idle|
      modifies `used, `boxes, `idle, `tally
      ensures Valid() && var after := State().After(chosen, old(State()), answers); after
      ensures if inIsr then chosen == [] else Stops(chosen, answers)
      ensures tally == old(tally).(full := old(tally).full + if inIsr then 0 else FullCount(chosen, answers))
    {
      chosen := [];
      NoneTaken(State(), answers);
      if !inIsr {
        chosen := Schedule(answers);
      }
    }

    /** hal_can_isr when the mailbox b has sent its message: its node becomes free. */
    method SendDone(b: nat, answers: seq<Answer>) returns (chosen: seq<nat>)
      requires Valid() && b < |boxes| && boxes[b].isBusy
      requires Fair(idle + [b], answers) && |answers| > |idle|
      modifies this
      ensures Valid() && free == old(free) + [old(boxes[b].held.value).(owner := NONE)]
      ensures var after := State().After(chosen, old(Outbox(used, boxes[b := EMPTY], idle + [b])), answers); after
      ensures used == [] || idle == [] || (|chosen| < |answers| && answers[|chosen|].Refused?)
      ensures var full := used != [] && idle != [] && |chosen| < |answers| && answers[|chosen|] == Refused(true);
        tally == old(tally).(sent := old(tally).sent + 1, full := old(tally).full + if full then 1 else 0)
    {
      Release(b);
      tally := tally.(sent := tally.sent + 1);
      ghost var was := State();
      assert was == old(Outbox(used, boxes[b := EMPTY], idle + [b]));
      chosen := Schedule(answers);
      ghost var after := State().After(chosen, was, answers);
      assert after;
    }

    /** _cantx_add_free_msg_list */
    method Release(b: nat)
      requires Valid() && b < |boxes| && boxes[b].isBusy
      modifies `free, `freeCount, `boxes, `idle
      ensures Valid() && free == old(free) + [old(boxes[b].held.value).(owner := NONE)]
      ensures State() == old(Outbox(used, boxes[b := EMPTY], idle + [b]))
    {
      var m := boxes[b].held.value;
      TakeFromBox(boxes, idle, free + used, b);
      BusyChange(boxes, b, EMPTY);
      boxes := boxes[b := EMPTY];
      m := m.(owner := NONE);
      idle := idle + [b];
      HandToFree(free, used, m);
      free, freeCount := free + [m], freeCount + 1;
    }

    /** cantx_soft_retransmit: the message of the mailbox b goes before all that wait. */
    method Retransmit(b: nat, answers: seq<Answer>) returns (chosen: seq<nat>)
      requires Valid() && b < |boxes| && boxes[b].isBusy
      requires Fair(idle + [b], answers) && |answers| > |idle|
      modifies this
      ensures Valid() && free == old(free)
      ensures var was := old(Outbox([boxes[b].held.value.(owner := NONE)] + used, boxes[b := EMPTY], idle + [b]));
        State().After(chosen, was, answers)
      ensures used == [] || idle == [] || (|chosen| < |answers| && answers[|chosen|].Refused?)
      ensures var full := used != [] && idle != [] && |chosen| < |answers| && answers[|chosen|] == Refused(true);
        tally == old(tally).(full := old(tally).full + if full then 1 else 0)
    {
      TakeBack(b);
      chosen := Schedule(answers);
    }

    method TakeBack(b: nat)
      requires Valid() && b < |boxes| && boxes[b].isBusy
      modifies `used, `boxes, `idle
      ensures Valid()
      ensures State() == old(Outbox([boxes[b].held.value.(owner := NONE)] + used, boxes[b := EMPTY], idle + [b]))
    {
      var m := boxes[b].held.value;
      TakeFromBox(boxes, idle, free + used, b);
      BusyChange(boxes, b, EMPTY);
      m := m.(owner := NONE);
      HandToFront(free, used, m);
      used := [m] + used;
      boxes := boxes[b := EMPTY];
      idle := idle + [b];
    }

    /** What the boxes and the idle list are, and will be when a busy one is emptied. */
    lemma BoxesOf(b: nat)
      requires Valid()
      ensures Boxed(boxes, idle)
      ensures b < |boxes| && boxes[b].isBusy ==> boxes[b].held.Some? && Boxed(boxes[b := EMPTY], idle + [b])
    {
      if b < |boxes| && boxes[b].isBusy {
        TakeFromBox(boxes, idle, free + used, b);
      }
    }

    /** An overwriting write has no node exactly when every node is in a busy mailbox;
        with more nodes than mailboxes that cannot be. */
    lemma NodeForWrite()
      requires Valid()
      ensures !Alive() <==> overwrite && BusyCount(boxes) == total
      ensures total > |boxes| ==> Alive()
    {
    }
  }

  /** That is within reach: one node and one mailbox, a message on its way, and the
      next write never returns. */
  method WriteStuck() returns (stuck: bool)
    ensures stuck
  {
    var h := new TxHandler([Msg(7, NONE, Frame(0, []))], 1, true);
    var n, first, chosen, waiting := h.Write([Frame(1, [])], false, [Sent(0)]);
    assert !first && n == 1 && h.free == [] && |waiting| == 1;
    assert |chosen| == 1 && h.used == [];
    var more;
    more, stuck, chosen, waiting := h.Write([Frame(2, [])], false, [Refused(true)]);
  }
}
