/** Runs of the CAN sender: messages are written, sent and sent again in any order. */
module CanTransmitRuns {
  import opened CanFifo
  import opened CanTransmit
  import opened Sequences

  datatype Event =
    | Writes(frames: seq<Frame>, inIsr: bool, answers: seq<Answer>)
    | SendsDone(box: nat, answers: seq<Answer>)
    | Retransmits(box: nat, answers: seq<Answer>)

  /** What has become of a message that a write took. */
  datatype Fate = Waiting | InBox(box: nat) | Gone | Overwritten

  /** Messages are numbered as writes took them. Those from `next` on wait and have
      been in no mailbox; `back` wait in front of them since they are to be sent again;
      `boxed` are in mailboxes. The other lists log, in order, what went into mailboxes,
      was sent, was overwritten and came back from a mailbox to be sent again. */
  datatype Story = Story(taken: seq<Frame>, fates: seq<Fate>, next: nat, back: seq<nat>, boxed: map<nat, nat>,
                         entered: seq<nat>, sent: seq<nat>, overwritten: seq<nat>, returned: seq<nat>) {

    predicate Waits() {
      back != [] || next < |taken|
    }

    /** The message that is next to go into a mailbox, or to be overwritten. */
    function Head(): nat {
      if back != [] then back[0] else next
    }

    function Pop(fate: Fate): Story
      requires Waits() && Head() < |fates|
    {
      this.(fates := fates[Head() := fate],
            back := if back != [] then back[1..] else [], next := if back != [] then next else next + 1)
    }

    function Accept(f: Frame): Story {
      this.(taken := taken + [f], fates := fates + [Waiting])
    }

    function Overwrite(): Story {
      if Waits() && Head() < |fates| then Pop(Overwritten).(overwritten := overwritten + [Head()]) else this
    }

    function Launch(b: nat): Story {
      if Waits() && Head() < |fates|
      then Pop(InBox(b)).(boxed := boxed[b := Head()], entered := entered + [Head()])
      else this
    }

    function Leave(b: nat): Story
      requires b in boxed && boxed[b] < |fates|
    {
      this.(fates := fates[boxed[b] := Gone], boxed := boxed - {b}, sent := sent + [boxed[b]])
    }

    function Return(b: nat): Story
      requires b in boxed && boxed[b] < |fates|
    {
      this.(fates := fates[boxed[b] := Waiting], boxed := boxed - {b}, back := [boxed[b]] + back,
            returned := returned + [boxed[b]])
    }

    /** Every message taken has one fate, and the lists agree with it. */
    predicate Placed() {
      && |fates| == |taken| && next <= |taken|
      && (forall k | 0 <= k < |fates| :: fates[k] == Waiting <==> k in back || k >= next)
      && (forall k | 0 <= k < |fates| :: fates[k] == Gone <==> k in sent)
      && (forall k | 0 <= k < |fates| :: fates[k] == Overwritten <==> k in overwritten)
      && (forall k | 0 <= k < |fates| && fates[k].InBox? :: fates[k].box in boxed && boxed[fates[k].box] == k)
      && (forall b | b in boxed :: boxed[b] < |fates| && fates[boxed[b]] == InBox(b))
    }

    predicate Once() {
      && NoRepeats(back) && NoRepeats(sent) && NoRepeats(overwritten)
      && (forall k | k in back :: k < next)
      && (forall k | k in sent :: k < |fates|) && (forall k | k in overwritten :: k < |fates|)
    }

    /** Messages first go into mailboxes in the order in which they were taken, and
        none is passed over unless it was overwritten. */
    predicate InOrder() {
      && FirstsRise(entered)
      && (forall k | k in entered :: k < next)
      && (forall k | 0 <= k < next :: k in entered || k in overwritten)
    }

    /** Only what was in a mailbox is sent or comes back. */
    predicate Entered() {
      && (forall k | k in back :: k in entered) && (forall b | b in boxed :: boxed[b] in entered)
      && (forall k | k in sent :: k in entered)
    }

    /** Without retransmission nothing goes into a mailbox twice. */
    predicate Straight() {
      returned == [] ==> back == [] && forall i, j | 0 <= i < j < |entered| :: entered[i] < entered[j]
    }

    predicate AddsUp() {
      next == |sent| + |overwritten| + |back| + |boxed|
    }

    ghost predicate Inv() {
      var placed, once, order, entered, straight := Placed(), Once(), InOrder(), Entered(), Straight();
      var sums := AddsUp();
      placed && once && order && entered && straight && sums
    }

    ghost predicate Knows(queue: seq<Frame>) {
      var inv, tells := Inv(), TellsQueue(queue);
      inv && tells
    }

    /** The frames that wait in the driver are these, in this order. */
    predicate TellsQueue(queue: seq<Frame>) {
      && next <= |taken| && |back| <= |queue| && queue[|back|..] == taken[next..]
      && forall i | 0 <= i < |back| :: back[i] < |taken| && queue[i] == taken[back[i]]
    }

    predicate TellsBoxes(boxes: seq<Mailbox>) {
      && (forall b | b in boxed :: b < |boxes| && boxes[b].held.Some?)
      && forall b | 0 <= b < |boxes| && boxes[b].held.Some? ::
          b in boxed && boxed[b] < |taken| && boxes[b].held.value.frame == taken[boxed[b]]
    }
  }

  /** The messages with these numbers have these frames. */
  predicate Reads(ids: seq<nat>, taken: seq<Frame>, frames: seq<Frame>) {
    |ids| == |frames| && forall i | 0 <= i < |ids| :: ids[i] < |taken| && taken[ids[i]] == frames[i]
  }

  /** A log has grown by messages with these frames. */
  predicate LogOf(was: seq<nat>, now: seq<nat>, taken: seq<Frame>, frames: seq<Frame>) {
    |was| <= |now| && now[..|was|] == was && Reads(now[|was|..], taken, frames)
  }

  lemma LogNone(log: seq<nat>, taken: seq<Frame>)
    ensures LogOf(log, log, taken, [])
  {
  }

  lemma LogMore(was: seq<nat>, now: seq<nat>, taken: seq<Frame>, frames: seq<Frame>, k: nat)
    requires LogOf(was, now, taken, frames) && k < |taken|
    ensures LogOf(was, now + [k], taken, frames + [taken[k]])
  {
    assert (now + [k])[|was|..] == now[|was|..] + [k];
  }

  lemma LogNext(was: seq<nat>, now: seq<nat>, taken: seq<Frame>, frames: seq<Frame>, n: nat, k: nat)
    requires n < |frames| && LogOf(was, now, taken, frames[..n]) && k < |taken| && taken[k] == frames[n]
    ensures LogOf(was, now + [k], taken, frames[..n + 1])
  {
    LogMore(was, now, taken, frames[..n], k);
    assert frames[..n + 1] == frames[..n] + [frames[n]];
  }

  lemma LogGrows(was: seq<nat>, now: seq<nat>, taken: seq<Frame>, frames: seq<Frame>, more: seq<Frame>)
    requires LogOf(was, now, taken, frames)
    ensures LogOf(was, now, taken + more, frames)
  {
  }

  lemma ReadsOn(was: seq<nat>, taken: seq<Frame>, frames: seq<Frame>, more: seq<Frame>,
                now: seq<nat>, others: seq<Frame>)
    requires Reads(was, taken, frames) && LogOf(was, now, taken + more, others)
    ensures Reads(now, taken + more, frames + others)
  {
    assert now == now[..|was|] + now[|was|..];
  }

  /** What is new in the sequence is above all that came before it. */
  predicate FirstsRise(s: seq<nat>) {
    forall i, j | 0 <= i < j < |s| :: s[i] < s[j] || s[j] in s[..j]
  }

  lemma OneMoreRises(s: seq<nat>, k: nat)
    requires FirstsRise(s) && (k in s || forall e | e in s :: e < k)
    ensures FirstsRise(s + [k])
  {
    var t := s + [k];
    forall i, j | 0 <= i < j < |t|
      ensures t[i] < t[j] || t[j] in t[..j]
    {
      assert t[..j] == s[..j] && s[..|s|] == s && t[i] == s[i] && s[i] in s;
    }
  }

  lemma AcceptKeeps(s: Story, f: Frame, queue: seq<Frame>)
    requires s.Inv() && s.TellsQueue(queue)
    ensures s.Accept(f).Inv() && s.Accept(f).TellsQueue(queue + [f])
  {
    assert (queue + [f])[|s.back|..] == queue[|s.back|..] + [f];
    assert (s.taken + [f])[s.next..] == s.taken[s.next..] + [f];
  }

  lemma PopOrder(s: Story, fate: Fate)
    requires s.Inv() && s.Waits()
    ensures s.Head() < |s.fates| && s.fates[s.Head()] == Waiting
    ensures var n := s.Pop(fate);
      && NoRepeats(n.back) && s.Head() !in n.back
      && forall k :: k in s.back <==> k in n.back || (s.back != [] && k == s.Head())
  {
    if s.back != [] {
      assert s.back == [s.back[0]] + s.back[1..];
      RemoveOnly(s.back, 0);
      assert RemoveAt(s.back, 0) == s.back[1..];
    }
  }

  lemma PopQueue(s: Story, fate: Fate, queue: seq<Frame>)
    requires s.Inv() && s.TellsQueue(queue) && queue != []
    ensures s.Waits() && s.Head() < |s.taken| && queue[0] == s.taken[s.Head()]
    ensures s.Pop(fate).TellsQueue(queue[1..])
  {
    if s.back == [] {
      assert queue == s.taken[s.next..];
    } else {
      assert queue[1..][|s.back| - 1..] == queue[|s.back|..];
    }
  }

  lemma PopPlaced(s: Story, fate: Fate)
    requires s.Inv() && s.Waits()
    ensures s.Head() < |s.fates|
    ensures var n := s.Pop(fate);
      forall k | 0 <= k < |n.fates| && k != s.Head() :: n.fates[k] == Waiting <==> k in n.back || k >= n.next
  {
    PopOrder(s, fate);
  }

  lemma OverwritePlaced(s: Story)
    requires s.Inv() && s.Waits()
    ensures s.Overwrite().Placed()
  {
    PopOrder(s, Overwritten);
    PopPlaced(s, Overwritten);
  }

  lemma OverwriteOnce(s: Story)
    requires s.Inv() && s.Waits()
    ensures s.Overwrite().Once() && s.Overwrite().Entered()
  {
    PopOrder(s, Overwritten);
  }

  lemma OverwriteOrder(s: Story)
    requires s.Inv() && s.Waits()
    ensures s.Overwrite().InOrder() && s.Overwrite().Straight()
  {
    PopOrder(s, Overwritten);
  }

  lemma OverwriteKeeps(s: Story, queue: seq<Frame>)
    requires s.Inv() && s.TellsQueue(queue) && queue != []
    ensures s.Overwrite().Inv() && s.Overwrite().TellsQueue(queue[1..])
  {
    PopQueue(s, Overwritten, queue);
    OverwritePlaced(s);
    OverwriteOnce(s);
    OverwriteOrder(s);
    PopSums(s, 0);
  }

  lemma LaunchPlaced(s: Story, b: nat)
    requires s.Inv() && s.Waits() && b !in s.boxed
    ensures s.Launch(b).Placed()
  {
    PopOrder(s, InBox(b));
    PopPlaced(s, InBox(b));
  }

  lemma LaunchOnce(s: Story, b: nat)
    requires s.Inv() && s.Waits() && b !in s.boxed
    ensures s.Launch(b).Once() && s.Launch(b).Entered()
  {
    PopOrder(s, InBox(b));
  }

  lemma LaunchOrder(s: Story, b: nat)
    requires s.Inv() && s.Waits() && b !in s.boxed
    ensures s.Launch(b).InOrder() && s.Launch(b).Straight()
  {
    PopOrder(s, InBox(b));
    OneMoreRises(s.entered, s.Head());
  }

  lemma LaunchKeeps(s: Story, queue: seq<Frame>, b: nat)
    requires s.Inv() && s.TellsQueue(queue) && queue != [] && b !in s.boxed
    ensures s.Launch(b).Inv() && s.Launch(b).TellsQueue(queue[1..])
  {
    PopQueue(s, InBox(b), queue);
    LaunchPlaced(s, b);
    LaunchOnce(s, b);
    LaunchOrder(s, b);
    PopSums(s, b);
  }

  /** The sums after each change. */
  lemma PopSums(s: Story, b: nat)
    requires s.AddsUp() && s.Waits() && s.Head() < |s.fates|
    ensures s.Overwrite().AddsUp() && (b !in s.boxed ==> s.Launch(b).AddsUp())
  {
    if b !in s.boxed {
      assert |s.boxed[b := s.Head()]| == |s.boxed| + 1;
    }
  }

  lemma TakeSums(s: Story, b: nat)
    requires s.AddsUp() && b in s.boxed && s.boxed[b] < |s.fates|
    ensures s.Leave(b).AddsUp() && s.Return(b).AddsUp()
  {
    var rest := s.boxed - {b};
    assert s.boxed == rest[b := s.boxed[b]];
    assert |s.boxed| == |rest| + 1;
  }

  lemma LeavePlaced(s: Story, b: nat)
    requires s.Inv() && b in s.boxed
    ensures s.Leave(b).Placed()
  {
  }

  lemma LeaveOnce(s: Story, b: nat)
    requires s.Inv() && b in s.boxed
    ensures s.Leave(b).Once() && s.Leave(b).Entered() && s.Leave(b).InOrder() && s.Leave(b).Straight()
  {
  }

  lemma LeaveKeeps(s: Story, queue: seq<Frame>, b: nat)
    requires s.Inv() && s.TellsQueue(queue) && b in s.boxed
    ensures s.Leave(b).Inv() && s.Leave(b).TellsQueue(queue)
  {
    LeavePlaced(s, b);
    LeaveOnce(s, b);
    TakeSums(s, b);
  }

  lemma ReturnPlaced(s: Story, b: nat)
    requires s.Inv() && b in s.boxed
    ensures s.Return(b).Placed()
  {
  }

  lemma ReturnOnce(s: Story, b: nat)
    requires s.Inv() && b in s.boxed
    ensures s.Return(b).Once() && s.Return(b).Entered() && s.Return(b).InOrder() && s.Return(b).Straight()
  {
  }

  lemma ReturnQueue(s: Story, queue: seq<Frame>, b: nat)
    requires s.TellsQueue(queue) && b in s.boxed && s.boxed[b] < |s.fates| && s.boxed[b] < |s.taken|
    ensures s.Return(b).TellsQueue([s.taken[s.boxed[b]]] + queue)
  {
    assert ([s.taken[s.boxed[b]]] + queue)[|s.back| + 1..] == queue[|s.back|..];
  }

  lemma ReturnKeeps(s: Story, queue: seq<Frame>, b: nat)
    requires s.Inv() && s.TellsQueue(queue) && b in s.boxed
    ensures s.Return(b).Inv() && s.Return(b).TellsQueue([s.taken[s.boxed[b]]] + queue)
  {
    ReturnPlaced(s, b);
    ReturnOnce(s, b);
    TakeSums(s, b);
    ReturnQueue(s, queue, b);
  }

  /** What a write takes of its frames. */
  function Accepted(fs: seq<Frame>, room: nat, overwrite: bool): seq<Frame> {
    if overwrite || |fs| <= room then fs else fs[..room]
  }

  /** What is overwritten of those that waited and of the frames themselves. */
  function Lost(queue: seq<Frame>, fs: seq<Frame>, room: nat, overwrite: bool): seq<Frame>
  {
    if overwrite && |fs| > room then (queue + fs)[..|fs| - room] else []
  }

  lemma LostMore(queue: seq<Frame>, fs: seq<Frame>, f: Frame, room: nat, overwrite: bool)
    requires overwrite ==> |queue| + room > 0
    ensures Lost(queue, fs + [f], room, overwrite) ==
      Lost(queue, fs, room, overwrite)
        + if overwrite && |fs| >= room then [Written(queue, fs, room, overwrite)[0]] else []
  {
    if overwrite && |fs| >= room {
      var all, k := queue + fs, |fs| - room;
      assert queue + (fs + [f]) == all + [f];
      assert (all + [f])[..k + 1] == all[..k] + [all[k]];
      assert |fs| == room ==> Written(queue, fs, room, overwrite) == all;
    }
  }

  /** What a write changes of the story besides what waits. */
  predicate Wrote(s: Story, n: Story, queue: seq<Frame>, fs: seq<Frame>, room: nat, overwrite: bool) {
    && n.taken == s.taken + Accepted(fs, room, overwrite) && n.boxed == s.boxed
    && n.sent == s.sent && n.entered == s.entered && n.returned == s.returned
    && LogOf(s.overwritten, n.overwritten, n.taken, Lost(queue, fs, room, overwrite))
  }

  /** One message of a write. */
  function WriteOne(s: Story, f: Frame, fits: bool, overwrite: bool): Story {
    if fits then s.Accept(f) else if overwrite then s.Overwrite().Accept(f) else s
  }

  lemma OneMoreAccepted(fs: seq<Frame>, f: Frame, room: nat, overwrite: bool)
    ensures Accepted(fs + [f], room, overwrite)
      == Accepted(fs, room, overwrite) + if overwrite || |fs| < room then [f] else []
  {
  }

  lemma WriteOneWrote(s: Story, m: Story, queue: seq<Frame>, fs: seq<Frame>, f: Frame, room: nat, overwrite: bool)
    requires Wrote(s, m, queue, fs, room, overwrite) && (overwrite ==> |queue| + room > 0)
    requires var was := Written(queue, fs, room, overwrite); overwrite && |fs| >= room ==>
      was != [] && m.Waits() && m.Head() < |m.fates| && m.Head() < |m.taken| && m.taken[m.Head()] == was[0]
    ensures Wrote(s, WriteOne(m, f, |fs| < room, overwrite), queue, fs + [f], room, overwrite)
  {
    OneMoreAccepted(fs, f, room, overwrite);
    LostMore(queue, fs, f, room, overwrite);
    var lost := Lost(queue, fs, room, overwrite);
    LogGrows(s.overwritten, m.overwritten, m.taken, lost, [f]);
    if overwrite && |fs| >= room {
      LogMore(s.overwritten, m.overwritten, m.taken + [f], lost, m.Head());
    }
  }

  lemma WriteOneKnows(s: Story, queue: seq<Frame>, f: Frame, fits: bool, overwrite: bool)
    requires s.Knows(queue) && (!fits && overwrite ==> queue != [])
    ensures var after := if fits then queue + [f] else if overwrite then queue[1..] + [f] else queue;
      WriteOne(s, f, fits, overwrite).Knows(after)
    ensures !fits && overwrite ==>
      s.Waits() && s.Head() < |s.fates| && s.Head() < |s.taken| && s.taken[s.Head()] == queue[0]
  {
    if fits {
      AcceptKeeps(s, f, queue);
    } else if overwrite {
      PopQueue(s, Overwritten, queue);
      PopOrder(s, Overwritten);
      OverwriteKeeps(s, queue);
      AcceptKeeps(s.Overwrite(), f, queue[1..]);
    }
  }

  lemma {:induction false} WriteAll(s: Story, queue: seq<Frame>, fs: seq<Frame>, room: nat, overwrite: bool)
    returns (n: Story)
    requires s.Knows(queue) && (overwrite && fs != [] ==> |queue| + room > 0)
    ensures n.Knows(Written(queue, fs, room, overwrite)) && Wrote(s, n, queue, fs, room, overwrite)
  {
    if fs == [] {
      assert queue + fs == queue && s.taken + fs == s.taken;
      LogNone(s.overwritten, s.taken);
      n := s;
    } else {
      var front, f := fs[..|fs| - 1], fs[|fs| - 1];
      assert fs == front + [f];
      var m := WriteAll(s, queue, front, room, overwrite);
      OneMoreWritten(queue, front, f, room, overwrite);
      WriteOneKnows(m, Written(queue, front, room, overwrite), f, |front| < room, overwrite);
      WriteOneWrote(s, m, queue, front, f, room, overwrite);
      n := WriteOne(m, f, |front| < room, overwrite);
    }
  }

  /** The mailboxes chosen were empty, and none is chosen twice. */
  predicate Free(boxes: seq<Mailbox>, chosen: seq<nat>) {
    NoRepeats(chosen) && forall b | b in chosen :: b < |boxes| && boxes[b] == EMPTY
  }

  /** What the scheduler leaves of the story as it is. */
  predicate Launched(s: Story, n: Story) {
    n.taken == s.taken && n.sent == s.sent && n.overwritten == s.overwritten && n.returned == s.returned
  }

  lemma LaunchOne(s: Story, boxes: seq<Mailbox>, queue: seq<Frame>, m: Msg, b: nat)
    requires s.Knows(queue) && queue != [] && m.frame == queue[0]
    requires s.TellsBoxes(boxes) && b < |boxes| && boxes[b] == EMPTY
    ensures var n := s.Launch(b);
      n.Knows(queue[1..]) && n.TellsBoxes(boxes[b := Mailbox(true, Some(m.(owner := b)))]) && Launched(s, n)
    ensures s.Head() < |s.taken| && s.taken[s.Head()] == queue[0] && s.Launch(b).entered == s.entered + [s.Head()]
  {
    PopQueue(s, InBox(b), queue);
    PopOrder(s, InBox(b));
    LaunchKeeps(s, queue, b);
    LaunchBoxes(s, boxes, m, b);
  }

  lemma StaysEmpty(boxes: seq<Mailbox>, waiting: seq<Msg>, chosen: seq<nat>, b: nat)
    requires |chosen| <= |waiting| && AllBelow(chosen, |boxes|) && NoRepeats(chosen)
    requires b < |boxes| && b !in chosen && boxes[b] == EMPTY
    ensures Loaded(boxes, waiting, chosen)[b] == EMPTY
  {
    EachInItsBox(boxes, waiting, chosen);
  }

  lemma DropOne<T>(s: seq<T>, k: nat)
    requires k < |s|
    ensures s[k..][1..] == s[k + 1..] && s[k..] != [] && s[k..][0] == s[k]
  {
  }

  /** The story s, with the scheduler come as far as the chosen mailboxes, is n. */
  ghost predicate Loading(s: Story, n: Story, boxes: seq<Mailbox>, waiting: seq<Msg>, chosen: seq<nat>)
    requires |chosen| <= |waiting| && AllBelow(chosen, |boxes|)
  {
    var knows, tells := n.Knows(Frames(waiting)[|chosen|..]), n.TellsBoxes(Loaded(boxes, waiting, chosen));
    var log := LogOf(s.entered, n.entered, n.taken, Frames(waiting)[..|chosen|]);
    knows && tells && log && Launched(s, n)
  }

  lemma LoadNext(s: Story, m: Story, boxes: seq<Mailbox>, waiting: seq<Msg>, front: seq<nat>, b: nat)
    requires |front| < |waiting| && AllBelow(front, |boxes|) && NoRepeats(front)
    requires b < |boxes| && b !in front && boxes[b] == EMPTY && Loading(s, m, boxes, waiting, front)
    ensures AllBelow(front + [b], |boxes|) && Loading(s, m.Launch(b), boxes, waiting, front + [b])
  {
    StaysEmpty(boxes, waiting, front, b);
    FrameAt(waiting, |front|);
    DropOne(Frames(waiting), |front|);
    LaunchOne(m, Loaded(boxes, waiting, front), Frames(waiting)[|front|..], waiting[|front|], b);
    assert (front + [b])[..|front|] == front;
    LogNext(s.entered, m.entered, m.taken, Frames(waiting), |front|, m.Head());
  }

  lemma LoadNone(s: Story, boxes: seq<Mailbox>, waiting: seq<Msg>)
    requires s.Knows(Frames(waiting)) && s.TellsBoxes(boxes)
    ensures Loading(s, s, boxes, waiting, [])
  {
    assert Frames(waiting)[0..] == Frames(waiting);
    LogNone(s.entered, s.taken);
  }

  lemma {:induction false} LoadAll(s: Story, boxes: seq<Mailbox>, waiting: seq<Msg>, chosen: seq<nat>)
    returns (n: Story)
    requires s.Knows(Frames(waiting)) && s.TellsBoxes(boxes)
    requires |chosen| <= |waiting| && AllBelow(chosen, |boxes|) && Free(boxes, chosen)
    ensures Loading(s, n, boxes, waiting, chosen)
  {
    if chosen == [] {
      LoadNone(s, boxes, waiting);
      n := s;
    } else {
      var front, b := chosen[..|chosen| - 1], chosen[|chosen| - 1];
      assert chosen == front + [b];
      n := LoadAll(s, boxes, waiting, front);
      LoadNext(s, n, boxes, waiting, front, b);
      n := n.Launch(b);
    }
  }

  lemma {:induction false} FrameAt(ms: seq<Msg>, k: nat)
    requires k < |ms|
    ensures Frames(ms)[k] == ms[k].frame
  {
    if k == |ms| - 1 {
    } else {
      FrameAt(ms[..|ms| - 1], k);
    }
  }

  lemma LaunchBoxes(s: Story, boxes: seq<Mailbox>, m: Msg, b: nat)
    requires s.Inv() && s.Waits() && s.TellsBoxes(boxes) && b < |boxes| && b !in s.boxed
    requires s.Head() < |s.taken| && m.frame == s.taken[s.Head()]
    ensures s.Launch(b).TellsBoxes(boxes[b := Mailbox(true, Some(m.(owner := b)))])
  {
  }

  /** The frames in the mailboxes chosen. */
  function InBoxes(boxes: seq<Mailbox>, chosen: seq<nat>): (fs: seq<Frame>)
    requires AllHeld(boxes, chosen)
    ensures |fs| == |chosen| && forall i | 0 <= i < |fs| :: fs[i] == boxes[chosen[i]].held.value.frame
  {
    if chosen == [] then []
    else InBoxes(boxes, chosen[..|chosen| - 1]) + [boxes[chosen[|chosen| - 1]].held.value.frame]
  }

  predicate AllHeld(boxes: seq<Mailbox>, chosen: seq<nat>) {
    forall i | 0 <= i < |chosen| :: chosen[i] < |boxes| && boxes[chosen[i]].held.Some?
  }

  lemma InBoxesAre(boxes: seq<Mailbox>, waiting: seq<Msg>, chosen: seq<nat>)
    requires |chosen| <= |waiting| && NoRepeats(chosen) && AllBelow(chosen, |boxes|)
    ensures var now := Loaded(boxes, waiting, chosen);
      AllHeld(now, chosen) && InBoxes(now, chosen) == Frames(waiting)[..|chosen|]
  {
    EachInItsBox(boxes, waiting, chosen);
    forall i | 0 <= i < |chosen|
      ensures Frames(waiting)[i] == waiting[i].frame
    {
      FrameAt(waiting, i);
    }
  }

  /** The scheduler has run: the log has grown by what is in the mailboxes chosen. */
  lemma Scheduled(s: Story, was: Outbox, now: Outbox, chosen: seq<nat>, answers: seq<Answer>) returns (n: Story)
    requires var after, boxed := now.After(chosen, was, answers), Boxed(was.boxes, was.idle); after && boxed
    requires var knows, tells := s.Knows(Frames(was.used)), s.TellsBoxes(was.boxes); knows && tells
    ensures var knows, tells, launched := n.Knows(Frames(now.used)), n.TellsBoxes(now.boxes), Launched(s, n);
      knows && tells && launched
    ensures AllHeld(now.boxes, chosen) && LogOf(s.entered, n.entered, n.taken, InBoxes(now.boxes, chosen))
  {
    ChosenApart(was.idle, chosen);
    n := LoadAll(s, was.boxes, was.used, chosen);
    FramesDrop(was.used, |chosen|);
    InBoxesAre(was.boxes, was.used, chosen);
  }

  lemma HeldAfter(was: Outbox, now: Outbox, chosen: seq<nat>, answers: seq<Answer>)
    requires now.After(chosen, was, answers) && Boxed(was.boxes, was.idle)
    ensures AllHeld(now.boxes, chosen)
  {
    ChosenApart(was.idle, chosen);
    InBoxesAre(was.boxes, was.used, chosen);
  }

  /** The mailbox b is emptied. */
  lemma LeaveBoxes(s: Story, n: Story, boxes: seq<Mailbox>, b: nat)
    requires s.TellsBoxes(boxes) && b in s.boxed && n.boxed == s.boxed - {b} && n.taken == s.taken
    ensures n.TellsBoxes(boxes[b := EMPTY])
  {
  }

  /** The driver's lists, mailboxes and counters are what the story says. */
  ghost predicate Tells(s: Story, o: Outbox, tally: Tally, overwrite: bool) {
    var queue, boxes := s.Knows(Frames(o.used)), s.TellsBoxes(o.boxes);
    var counts := |s.sent| == tally.sent && |s.overwritten| == if overwrite then tally.failed else 0;
    queue && boxes && counts
  }

  ghost predicate Fits(h: TxHandler, s: Story)
    reads h
  {
    var tells := Tells(s, h.State(), h.tally, h.overwrite);
    tells
  }

  lemma AcceptedIs(fs: seq<Frame>, room: nat, overwrite: bool)
    ensures Accepted(fs, room, overwrite) == fs[..if overwrite then |fs| else |fs| - Excess(|fs|, room)]
  {
  }

  /** What can be seen of a sender: the frames that writes took, that went into
      mailboxes, that were sent, that were overwritten, and that came back. */
  datatype Trace = Trace(taken: seq<Frame>, loaded: seq<Frame>, sent: seq<Frame>, lost: seq<Frame>, back: seq<Frame>) {
    function Then(w: Trace): Trace {
      Trace(taken + w.taken, loaded + w.loaded, sent + w.sent, lost + w.lost, back + w.back)
    }
  }

  /** The logs of the story name the messages of what was seen, in the order seen. */
  predicate Agrees(v: Trace, s: Story) {
    && v.taken == s.taken && Reads(s.entered, s.taken, v.loaded) && Reads(s.sent, s.taken, v.sent)
    && Reads(s.overwritten, s.taken, v.lost) && Reads(s.returned, s.taken, v.back)
  }

  /** The story t is s with what was seen since. */
  predicate Grew(s: Story, t: Story, w: Trace) {
    var loaded, sent := LogOf(s.entered, t.entered, t.taken, w.loaded), LogOf(s.sent, t.sent, t.taken, w.sent);
    var lost, back :=
      LogOf(s.overwritten, t.overwritten, t.taken, w.lost), LogOf(s.returned, t.returned, t.taken, w.back);
    t.taken == s.taken + w.taken && loaded && sent && lost && back
  }

  lemma AgreesOn(v: Trace, s: Story, w: Trace, t: Story)
    requires Agrees(v, s) && Grew(s, t, w)
    ensures Agrees(v.Then(w), t)
  {
    ReadsOn(s.entered, s.taken, v.loaded, w.taken, t.entered, w.loaded);
    ReadsOn(s.sent, s.taken, v.sent, w.taken, t.sent, w.sent);
    ReadsOn(s.overwritten, s.taken, v.lost, w.taken, t.overwritten, w.lost);
    ReadsOn(s.returned, s.taken, v.back, w.taken, t.returned, w.back);
  }

  const NOTHING := Trace([], [], [], [], [])

  lemma SameStory(s: Story)
    ensures Grew(s, s, NOTHING)
  {
    LogNone(s.entered, s.taken);
    LogNone(s.sent, s.taken);
    LogNone(s.overwritten, s.taken);
    LogNone(s.returned, s.taken);
  }

  lemma WriteCounts(s: Story, m: Story, queue: seq<Frame>, fs: seq<Frame>, room: nat, overwrite: bool)
    requires Wrote(s, m, queue, fs, room, overwrite) && (overwrite && fs != [] ==> |queue| + room > 0)
    ensures |m.overwritten| == |s.overwritten| + if overwrite then Excess(|fs|, room) else 0
    ensures m.sent == s.sent
  {
  }

  lemma WriteGrew(s: Story, m: Story, n: Story, queue: seq<Frame>, fs: seq<Frame>, room: nat, overwrite: bool,
                  loaded: seq<Frame>)
    requires Wrote(s, m, queue, fs, room, overwrite) && Launched(m, n) && LogOf(m.entered, n.entered, n.taken, loaded)
    ensures Grew(s, n, Trace(Accepted(fs, room, overwrite), loaded, [], Lost(queue, fs, room, overwrite), []))
  {
    LogNone(s.sent, n.taken);
    LogNone(s.returned, n.taken);
  }

  lemma LeaveGrew(s: Story, n: Story, b: nat, loaded: seq<Frame>)
    requires b in s.boxed && s.boxed[b] < |s.fates| && s.boxed[b] < |s.taken|
    requires Launched(s.Leave(b), n) && LogOf(s.entered, n.entered, n.taken, loaded)
    ensures Grew(s, n, Trace([], loaded, [s.taken[s.boxed[b]]], [], []))
  {
    LogNone(s.sent, s.taken);
    LogMore(s.sent, s.sent, s.taken, [], s.boxed[b]);
    LogNone(s.overwritten, s.taken);
    LogNone(s.returned, s.taken);
  }

  lemma ReturnGrew(s: Story, n: Story, b: nat, loaded: seq<Frame>)
    requires b in s.boxed && s.boxed[b] < |s.fates| && s.boxed[b] < |s.taken|
    requires Launched(s.Return(b), n) && LogOf(s.entered, n.entered, n.taken, loaded)
    ensures Grew(s, n, Trace([], loaded, [], [], [s.taken[s.boxed[b]]]))
  {
    LogNone(s.returned, s.taken);
    LogMore(s.returned, s.returned, s.taken, [], s.boxed[b]);
    LogNone(s.overwritten, s.taken);
    LogNone(s.sent, s.taken);
  }

  lemma WroteBoxes(s: Story, m: Story, queue: seq<Frame>, fs: seq<Frame>, room: nat, overwrite: bool,
                   boxes: seq<Mailbox>)
    requires Wrote(s, m, queue, fs, room, overwrite) && s.TellsBoxes(boxes)
    ensures var tells := m.TellsBoxes(boxes); tells
  {
  }

  /** A write has stored what it could, and then the scheduler has run or not. */
  lemma WriteLoads(s: Story, was: Outbox, waiting: seq<Msg>, now: Outbox, fs: seq<Frame>, room: nat, overwrite: bool,
                   chosen: seq<nat>, answers: seq<Answer>) returns (m: Story, n: Story)
    requires var knows, tells, boxed := s.Knows(Frames(was.used)), s.TellsBoxes(was.boxes), Boxed(was.boxes, was.idle);
      knows && tells && boxed
    requires overwrite && fs != [] ==> |was.used| + room > 0
    requires Frames(waiting) == Written(Frames(was.used), fs, room, overwrite)
    requires var after := now.After(chosen, Outbox(waiting, was.boxes, was.idle), answers); after
    ensures var wrote, launched := Wrote(s, m, Frames(was.used), fs, room, overwrite), Launched(m, n); wrote && launched
    ensures var knows, tells := n.Knows(Frames(now.used)), n.TellsBoxes(now.boxes); knows && tells
    ensures AllHeld(now.boxes, chosen)
    ensures var log := LogOf(m.entered, n.entered, n.taken, InBoxes(now.boxes, chosen)); log
  {
    m := WriteAll(s, Frames(was.used), fs, room, overwrite);
    WroteBoxes(s, m, Frames(was.used), fs, room, overwrite, was.boxes);
    n := Scheduled(m, Outbox(waiting, was.boxes, was.idle), now, chosen, answers);
  }

  /** What a write that returns does to the driver's lists and counters, and what is
      seen of it. */
  ghost predicate Driven(was: Outbox, was': Tally, now: Outbox, now': Tally, overwrite: bool, fs: seq<Frame>, room: nat,
                         waiting: seq<Msg>, chosen: seq<nat>, answers: seq<Answer>, w: Trace)
  {
    var roomy := overwrite && fs != [] ==> |was.used| + room > 0;
    var stored := Frames(waiting) == Written(Frames(was.used), fs, room, overwrite);
    var boxed, sent := Boxed(was.boxes, was.idle), now.After(chosen, Outbox(waiting, was.boxes, was.idle), answers);
    var counted := now'.sent == was'.sent && now'.failed == was'.failed + Excess(|fs|, room);
    roomy && stored && boxed && sent && counted && AllHeld(now.boxes, chosen) &&
    var seen := w == Trace(fs[..if overwrite then |fs| else |fs| - Excess(|fs|, room)], InBoxes(now.boxes, chosen), [],
                           Lost(Frames(was.used), fs, room, overwrite), []);
    seen
  }

  lemma WriteTold(s: Story, was: Outbox, was': Tally, waiting: seq<Msg>, now: Outbox, now': Tally, overwrite: bool,
                  fs: seq<Frame>, room: nat, chosen: seq<nat>, answers: seq<Answer>, w: Trace) returns (n: Story)
    requires var tells := Tells(s, was, was', overwrite); tells
    requires var driven := Driven(was, was', now, now', overwrite, fs, room, waiting, chosen, answers, w); driven
    ensures var tells, grew := Tells(n, now, now', overwrite), Grew(s, n, w); tells && grew
  {
    var m;
    m, n := WriteLoads(s, was, waiting, now, fs, room, overwrite, chosen, answers);
    AcceptedIs(fs, room, overwrite);
    WriteCounts(s, m, Frames(was.used), fs, room, overwrite);
    WriteGrew(s, m, n, Frames(was.used), fs, room, overwrite, InBoxes(now.boxes, chosen));
  }

  lemma IsDriven(was: Outbox, was': Tally, now: Outbox, now': Tally, overwrite: bool, fs: seq<Frame>, room: nat,
                 waiting: seq<Msg>, chosen: seq<nat>, answers: seq<Answer>, n: nat)
    requires overwrite && fs != [] ==> |was.used| + room > 0
    requires var stored := Frames(waiting) == Written(Frames(was.used), fs, room, overwrite); stored
    requires var boxed := Boxed(was.boxes, was.idle); boxed
    requires var after := now.After(chosen, Outbox(waiting, was.boxes, was.idle), answers); after
    requires now'.sent == was'.sent && now'.failed == was'.failed + Excess(|fs|, room)
    requires n == if overwrite || |fs| <= room then |fs| else room
    ensures n <= |fs| && AllHeld(now.boxes, chosen)
    ensures var lost := Lost(Frames(was.used), fs, room, overwrite);
      var driven := Driven(was, was', now, now', overwrite, fs, room, waiting, chosen, answers,
                           Trace(fs[..n], InBoxes(now.boxes, chosen), [], lost, []));
      driven
  {
    HeldAfter(Outbox(waiting, was.boxes, was.idle), now, chosen, answers);
  }

  /** A write, in terms of what waits and of what the scheduler has done about it. */
  method CallWrite(h: TxHandler, frames: seq<Frame>, inIsr: bool, answers: seq<Answer>)
    returns (n: nat, stuck: bool, chosen: seq<nat>, ghost waiting: seq<Msg>)
    requires h.Valid() && Fair(h.idle, answers) && |answers| >= |h.idle|
    modifies h
    ensures var valid := h.Valid(); valid && (stuck ==> unchanged(h))
    ensures stuck <==> h.overwrite && frames != [] && old(BusyCount(h.boxes)) == h.total
    ensures !stuck ==> n == if h.overwrite || |frames| <= |old(h.free)| then |frames| else |old(h.free)|
    ensures !stuck ==>
              var stored := Frames(waiting) == Written(old(Frames(h.used)), frames, |old(h.free)|, h.overwrite);
              var after := h.State().After(chosen, Outbox(waiting, old(h.boxes), old(h.idle)), answers);
              stored && after
    ensures !stuck ==> h.tally.sent == old(h.tally).sent
    ensures !stuck ==> h.tally.failed == old(h.tally).failed + Excess(|frames|, |old(h.free)|)
    ensures !stuck ==> var rests := inIsr || Rests(Standing(h), |chosen|, answers); rests
  {
    n, stuck, chosen, waiting := h.Write(frames, inIsr, answers);
  }

  method Drive(h: TxHandler, frames: seq<Frame>, inIsr: bool, answers: seq<Answer>)
    returns (w: Trace, stuck: bool, chosen: seq<nat>, ghost waiting: seq<Msg>)
    requires h.Valid() && Fair(h.idle, answers) && |answers| >= |h.idle|
    modifies h
    ensures var valid := h.Valid(); valid && (stuck ==> unchanged(h) && w == NOTHING)
    ensures !stuck ==> var driven := Driven(old(h.State()), old(h.tally), h.State(), h.tally, h.overwrite, frames,
                                            |old(h.free)|, waiting, chosen, answers, w); driven
    ensures stuck <==> h.overwrite && frames != [] && old(BusyCount(h.boxes)) == h.total
    ensures !stuck ==> w.taken == frames[..if h.overwrite || |frames| <= |old(h.free)| then |frames| else |old(h.free)|]
    ensures !stuck ==> |w.loaded| == |chosen| && var rests := inIsr || Rests(Standing(h), |chosen|, answers); rests
  {
    ghost var was, was', room := h.State(), h.tally, |h.free|;
    h.BoxesOf(0);
    h.NodeForWrite();
    var n, lost := 0, Lost(Frames(h.used), frames, |h.free|, h.overwrite);
    n, stuck, chosen, waiting := CallWrite(h, frames, inIsr, answers);
    w := NOTHING;
    if !stuck {
      IsDriven(was, was', h.State(), h.tally, h.overwrite, frames, room, waiting, chosen, answers, n);
      w := Trace(frames[..n], InBoxes(h.boxes, chosen), [], lost, []);
    }
  }

  /** What went into mailboxes is what the mailboxes chosen hold now. */
  predicate Loads(boxes: seq<Mailbox>, chosen: seq<nat>, w: Trace) {
    AllHeld(boxes, chosen) && w.loaded == InBoxes(boxes, chosen)
  }

  /** A write, told on. */
  method Write(h: TxHandler, frames: seq<Frame>, inIsr: bool, answers: seq<Answer>, ghost s: Story)
    returns (w: Trace, stuck: bool, chosen: seq<nat>, ghost t: Story)
    requires h.Valid() && Fits(h, s) && Fair(h.idle, answers) && |answers| >= |h.idle|
    modifies h
    ensures h.Valid() && w.sent == w.back == [] && (!stuck ==> Loads(h.boxes, chosen, w)) && (stuck ==> w == NOTHING)
    ensures var fits, grew := Fits(h, t), Grew(s, t, w); fits && grew
    ensures stuck <==> h.overwrite && frames != [] && old(BusyCount(h.boxes)) == h.total
    ensures stuck ==> unchanged(h)
    ensures !stuck ==> w.taken == frames[..if h.overwrite || |frames| <= |old(h.free)| then |frames| else |old(h.free)|]
    ensures !stuck ==> |w.loaded| == |chosen| && var rests := inIsr || Rests(Standing(h), |chosen|, answers); rests
  {
    ghost var was, was', room := h.State(), h.tally, |h.free|;
    ghost var waiting;
    w, stuck, chosen, waiting := Drive(h, frames, inIsr, answers);
    if stuck {
      t := s;
      SameStory(s);
    } else {
      t := WriteTold(s, was, was', waiting, h.State(), h.tally, h.overwrite, frames, room, chosen, answers, w);
    }
  }

  /** A message left the mailbox b, to be sent again or not, and the scheduler has run. */
  lemma LeaveTold(s: Story, was: Outbox, was': Tally, now: Outbox, now': Tally, overwrite: bool,
                  b: nat, chosen: seq<nat>, answers: seq<Answer>)
    returns (n: Story)
    requires Tells(s, was, was', overwrite) && b < |was.boxes| && was.boxes[b].held.Some?
    requires now'.sent == was'.sent + 1 && now'.failed == was'.failed
    requires Boxed(was.boxes[b := EMPTY], was.idle + [b])
    requires now.After(chosen, Outbox(was.used, was.boxes[b := EMPTY], was.idle + [b]), answers)
    ensures AllHeld(now.boxes, chosen) && var tells := Tells(n, now, now', overwrite); tells
    ensures Grew(s, n, Trace([], InBoxes(now.boxes, chosen), [was.boxes[b].held.value.frame], [], []))
  {
    LeaveKeeps(s, Frames(was.used), b);
    LeaveBoxes(s, s.Leave(b), was.boxes, b);
    n := Scheduled(s.Leave(b), Outbox(was.used, was.boxes[b := EMPTY], was.idle + [b]), now, chosen, answers);
    LeaveGrew(s, n, b, InBoxes(now.boxes, chosen));
  }

  lemma ReturnTold(s: Story, was: Outbox, was': Tally, now: Outbox, now': Tally, overwrite: bool,
                   b: nat, m: Msg, chosen: seq<nat>, answers: seq<Answer>)
    returns (n: Story)
    requires Tells(s, was, was', overwrite) && b < |was.boxes| && was.boxes[b].held.Some?
    requires now'.sent == was'.sent && now'.failed == was'.failed
    requires Boxed(was.boxes[b := EMPTY], was.idle + [b]) && m.frame == was.boxes[b].held.value.frame
    requires now.After(chosen, Outbox([m] + was.used, was.boxes[b := EMPTY], was.idle + [b]), answers)
    ensures AllHeld(now.boxes, chosen) && var tells := Tells(n, now, now', overwrite); tells
    ensures Grew(s, n, Trace([], InBoxes(now.boxes, chosen), [], [], [m.frame]))
  {
    ReturnKeeps(s, Frames(was.used), b);
    FramesFirst(m, was.used);
    LeaveBoxes(s, s.Return(b), was.boxes, b);
    n := Scheduled(s.Return(b), Outbox([m] + was.used, was.boxes[b := EMPTY], was.idle + [b]), now, chosen, answers);
    ReturnGrew(s, n, b, InBoxes(now.boxes, chosen));
  }

  lemma {:induction false} FramesFirst(m: Msg, ms: seq<Msg>)
    ensures Frames([m] + ms) == [m.frame] + Frames(ms)
  {
    FramesTail([m] + ms);
    assert RemoveAt([m] + ms, 0) == ms;
    FrameAt([m] + ms, 0);
  }

  /** A mailbox has sent its message, told on. */
  method SendDone(h: TxHandler, b: nat, answers: seq<Answer>, ghost s: Story)
    returns (w: Trace, chosen: seq<nat>, ghost t: Story)
    requires h.Valid() && Fits(h, s) && b < |h.boxes| && h.boxes[b].isBusy && h.boxes[b].held.Some?
    requires Fair(h.idle + [b], answers) && |answers| > |h.idle|
    modifies h
    ensures h.Valid() && w.taken == w.lost == w.back == [] && w.sent == [old(h.boxes[b]).held.value.frame]
    ensures Loads(h.boxes, chosen, w) && var fits, grew := Fits(h, t), Grew(s, t, w); fits && grew
    ensures |w.loaded| == |chosen| && Rests(Standing(h), |chosen|, answers)
  {
    ghost var was, was' := h.State(), h.tally;
    h.BoxesOf(b);
    var frame := h.boxes[b].held.value.frame;
    chosen := h.SendDone(b, answers);
    t := LeaveTold(s, was, was', h.State(), h.tally, h.overwrite, b, chosen, answers);
    w := Trace([], InBoxes(h.boxes, chosen), [frame], [], []);
  }

  /** A message is to be sent again, told on. */
  method Retransmit(h: TxHandler, b: nat, answers: seq<Answer>, ghost s: Story)
    returns (w: Trace, chosen: seq<nat>, ghost t: Story)
    requires h.Valid() && Fits(h, s) && b < |h.boxes| && h.boxes[b].isBusy && h.boxes[b].held.Some?
    requires Fair(h.idle + [b], answers) && |answers| > |h.idle|
    modifies h
    ensures h.Valid() && w.taken == w.lost == w.sent == [] && w.back == [old(h.boxes[b]).held.value.frame]
    ensures Loads(h.boxes, chosen, w) && var fits, grew := Fits(h, t), Grew(s, t, w); fits && grew
    ensures |w.loaded| == |chosen| && Rests(Standing(h), |chosen|, answers)
  {
    ghost var was, was' := h.State(), h.tally;
    h.BoxesOf(b);
    ghost var m := h.boxes[b].held.value.(owner := NONE);
    var frame := h.boxes[b].held.value.frame;
    chosen := h.Retransmit(b, answers);
    t := ReturnTold(s, was, was', h.State(), h.tally, h.overwrite, b, m, chosen, answers);
    w := Trace([], InBoxes(h.boxes, chosen), [], [], [frame]);
  }

  const START := Story([], [], 0, [], map[], [], [], [], [])

  /** How the driver stands: free nodes, waiting messages and mailboxes. */
  datatype Stand = Stand(free: nat, waiting: nat, boxes: seq<Mailbox>, idle: seq<nat>)

  ghost function Standing(h: TxHandler): Stand
    reads h
  {
    Stand(|h.free|, |h.used|, h.boxes, h.idle)
  }

  /** The scheduler, which loaded n messages, has gone as far as it could. */
  predicate Rests(d: Stand, n: int, answers: seq<Answer>) {
    d.waiting == 0 || d.idle == [] || (0 <= n < |answers| && answers[n].Refused?)
  }

  /** What an event makes of the driver's stand c, and of what was seen so far. One that
      cannot happen does nothing, and a write that never returns is not seen. */
  predicate Happens(e: Event, overwrite: bool, total: nat, c: Stand, d: Stand, v: Trace, w: Trace) {
    match e
    case Writes(frames, inIsr, answers) =>
      if !Fair(c.idle, answers) || |answers| < |c.idle| || (overwrite && frames != [] && BusyCount(c.boxes) == total)
      then d == c && w == v
      else
        && w.taken == v.taken + frames[..if overwrite || |frames| <= c.free then |frames| else c.free]
        && w.sent == v.sent && w.back == v.back && (inIsr || Rests(d, |w.loaded| - |v.loaded|, answers))
    case SendsDone(b, answers) =>
      if b >= |c.boxes| || !c.boxes[b].isBusy || !Fair(c.idle + [b], answers) || |answers| <= |c.idle|
      then d == c && w == v
      else
        && c.boxes[b].held.Some? && w.sent == v.sent + [c.boxes[b].held.value.frame]
        && w.taken == v.taken && w.back == v.back && Rests(d, |w.loaded| - |v.loaded|, answers)
    case Retransmits(b, answers) =>
      if b >= |c.boxes| || !c.boxes[b].isBusy || !Fair(c.idle + [b], answers) || |answers| <= |c.idle|
      then d == c && w == v
      else
        && c.boxes[b].held.Some? && w.back == v.back + [c.boxes[b].held.value.frame]
        && w.taken == v.taken && w.sent == v.sent && Rests(d, |w.loaded| - |v.loaded|, answers)
  }

  lemma WriteHappens(frames: seq<Frame>, inIsr: bool, answers: seq<Answer>, overwrite: bool, total: nat,
                     c: Stand, d: Stand, w: Trace)
    requires Fair(c.idle, answers) && |answers| >= |c.idle|
    requires overwrite && frames != [] && BusyCount(c.boxes) == total ==> d == c && w == NOTHING
    requires !(overwrite && frames != [] && BusyCount(c.boxes) == total) ==>
      && w.taken == frames[..if overwrite || |frames| <= c.free then |frames| else c.free]
      && w.sent == w.back == [] && (inIsr || Rests(d, |w.loaded|, answers))
    ensures var happens := Happens(Writes(frames, inIsr, answers), overwrite, total, c, d, NOTHING, w); happens
  {
    assert [] + w.taken == w.taken;
  }

  lemma LeaveHappens(sent: bool, b: nat, answers: seq<Answer>, overwrite: bool, total: nat,
                     c: Stand, d: Stand, w: Trace)
    requires b < |c.boxes| && c.boxes[b].isBusy && Fair(c.idle + [b], answers) && |answers| > |c.idle|
    requires c.boxes[b].held.Some? && w.taken == [] && Rests(d, |w.loaded|, answers)
    requires var frame := c.boxes[b].held.value.frame;
      if sent then w.sent == [frame] && w.back == [] else w.sent == [] && w.back == [frame]
    ensures var happens := Happens(if sent then SendsDone(b, answers) else Retransmits(b, answers),
                                   overwrite, total, c, d, NOTHING, w); happens
  {
    assert [] + w.sent == w.sent && [] + w.back == w.back;
  }

  lemma NothingHappens(e: Event, overwrite: bool, total: nat, c: Stand)
    requires match e
      case Writes(frames, _, answers) => !Fair(c.idle, answers) || |answers| < |c.idle|
      case SendsDone(b, answers) =>
        b >= |c.boxes| || !c.boxes[b].isBusy || !Fair(c.idle + [b], answers) || |answers| <= |c.idle|
      case Retransmits(b, answers) =>
        b >= |c.boxes| || !c.boxes[b].isBusy || !Fair(c.idle + [b], answers) || |answers| <= |c.idle|
    ensures var happens := Happens(e, overwrite, total, c, c, NOTHING, NOTHING); happens
  {
  }

  method TryWrite(h: TxHandler, frames: seq<Frame>, inIsr: bool, answers: seq<Answer>, ghost s: Story)
    returns (w: Trace, stuck: bool, chosen: seq<nat>, ghost t: Story)
    requires h.Valid() && Fits(h, s)
    modifies h
    ensures var valid := h.Valid(); valid && (w == NOTHING || Loads(h.boxes, chosen, w)) && w.back == []
    ensures var fits, grew := Fits(h, t), Grew(s, t, w); fits && grew
    ensures var happens := Happens(Writes(frames, inIsr, answers), h.overwrite, h.total,
                                   old(Standing(h)), Standing(h), NOTHING, w); happens
    ensures stuck <==> h.overwrite && frames != [] && old(BusyCount(h.boxes)) == h.total
                       && Fair(old(h.idle), answers) && |answers| >= |old(h.idle)|
  {
    ghost var c := Standing(h);
    if Fair(h.idle, answers) && |answers| >= |h.idle| {
      w, stuck, chosen, t := Write(h, frames, inIsr, answers, s);
      WriteHappens(frames, inIsr, answers, h.overwrite, h.total, c, Standing(h), w);
    } else {
      w, stuck, chosen, t := NOTHING, false, [], s;
      SameStory(s);
      NothingHappens(Writes(frames, inIsr, answers), h.overwrite, h.total, c);
    }
  }

  method TrySendDone(h: TxHandler, b: nat, answers: seq<Answer>, ghost s: Story)
    returns (w: Trace, chosen: seq<nat>, ghost t: Story)
    requires h.Valid() && Fits(h, s)
    modifies h
    ensures var valid := h.Valid(); valid && (w == NOTHING || Loads(h.boxes, chosen, w)) && w.back == []
    ensures var fits, grew := Fits(h, t), Grew(s, t, w); fits && grew
    ensures var happens := Happens(SendsDone(b, answers), h.overwrite, h.total,
                                   old(Standing(h)), Standing(h), NOTHING, w); happens
  {
    ghost var c := Standing(h);
    h.BoxesOf(b);
    if b < |h.boxes| && h.boxes[b].isBusy && Fair(h.idle + [b], answers) && |answers| > |h.idle| {
      w, chosen, t := SendDone(h, b, answers, s);
      LeaveHappens(true, b, answers, h.overwrite, h.total, c, Standing(h), w);
    } else {
      w, chosen, t := NOTHING, [], s;
      SameStory(s);
      NothingHappens(SendsDone(b, answers), h.overwrite, h.total, c);
    }
  }

  method TryRetransmit(h: TxHandler, b: nat, answers: seq<Answer>, ghost s: Story)
    returns (w: Trace, chosen: seq<nat>, ghost t: Story)
    requires h.Valid() && Fits(h, s)
    modifies h
    ensures var valid := h.Valid(); valid && (w == NOTHING || Loads(h.boxes, chosen, w))
    ensures var fits, grew := Fits(h, t), Grew(s, t, w); fits && grew
    ensures var happens := Happens(Retransmits(b, answers), h.overwrite, h.total,
                                   old(Standing(h)), Standing(h), NOTHING, w); happens
  {
    ghost var c := Standing(h);
    h.BoxesOf(b);
    if b < |h.boxes| && h.boxes[b].isBusy && Fair(h.idle + [b], answers) && |answers| > |h.idle| {
      w, chosen, t := Retransmit(h, b, answers, s);
      LeaveHappens(false, b, answers, h.overwrite, h.total, c, Standing(h), w);
    } else {
      w, chosen, t := NOTHING, [], s;
      SameStory(s);
      NothingHappens(Retransmits(b, answers), h.overwrite, h.total, c);
    }
  }

  /** One event, if it can happen, and what is seen of it. */
  method Step(h: TxHandler, e: Event, ghost s: Story)
    returns (w: Trace, stuck: bool, chosen: seq<nat>, ghost t: Story)
    requires h.Valid() && Fits(h, s)
    modifies h
    ensures var valid := h.Valid(); valid && (w == NOTHING || Loads(h.boxes, chosen, w))
    ensures !e.Retransmits? ==> w.back == []
    ensures var fits, grew := Fits(h, t), Grew(s, t, w); fits && grew
    ensures var happens := Happens(e, h.overwrite, h.total,
                                   old(Standing(h)), Standing(h), NOTHING, w); happens
    ensures stuck <==> e.Writes? && h.overwrite && e.frames != [] && old(BusyCount(h.boxes)) == h.total
                       && Fair(old(h.idle), e.answers) && |e.answers| >= |old(h.idle)|
  {
    stuck := false;
    match e {
      case Writes(frames, inIsr, answers) => w, stuck, chosen, t := TryWrite(h, frames, inIsr, answers, s);
      case SendsDone(b, answers) => w, chosen, t := TrySendDone(h, b, answers, s);
      case Retransmits(b, answers) => w, chosen, t := TryRetransmit(h, b, answers, s);
    }
  }

  lemma Starts(h: TxHandler)
    requires h.used == [] && h.tally == Tally(0, 0, 0, 0)
    requires forall b | 0 <= b < |h.boxes| :: h.boxes[b] == EMPTY
    ensures Fits(h, START)
  {
  }

  /** What the first n events have made of the driver's stands and of what was seen. */
  predicate AllHappen(events: seq<Event>, n: nat, overwrite: bool, total: nat, stands: seq<Stand>, vs: seq<Trace>)
    requires n <= |events|
  {
    && |stands| == |vs| == n + 1 && vs[0] == NOTHING
    && forall i | 0 <= i < n :: Happens(events[i], overwrite, total, stands[i], stands[i + 1], vs[i], vs[i + 1])
  }

  lemma OneMoreHappens(events: seq<Event>, n: nat, overwrite: bool, total: nat, stands: seq<Stand>, vs: seq<Trace>,
                       d: Stand, w: Trace)
    requires n < |events| && |stands| == |vs| == n + 1
    requires var happened := AllHappen(events, n, overwrite, total, stands, vs);
      var next := Happens(events[n], overwrite, total, stands[n], d, NOTHING, w); happened && next
    ensures var happened := AllHappen(events, n + 1, overwrite, total, stands + [d], vs + [vs[n].Then(w)]); happened
    ensures (stands + [d])[0] == stands[0]
  {
    var v := vs[n].Then(w);
    assert v.taken == vs[n].taken + w.taken && v.sent == vs[n].sent + w.sent && v.back == vs[n].back + w.back;
    assert w == NOTHING ==> v == vs[n];
    assert Happens(events[n], overwrite, total, stands[n], d, vs[n], v);
  }

  lemma AllMeans(events: seq<Event>, overwrite: bool, total: nat, stands: seq<Stand>, vs: seq<Trace>)
    requires 0 < |vs| <= |events| + 1 && |stands| == |vs|
    requires AllHappen(events, |vs| - 1, overwrite, total, stands, vs)
    ensures forall i {:trigger events[i]} | 0 <= i < |vs| - 1 ::
      var c, d, before, after := stands[i], stands[i + 1], vs[i], vs[i + 1];
      match events[i]
      case Writes(frames, inIsr, answers) =>
        if !Fair(c.idle, answers) || |answers| < |c.idle|
           || (overwrite && frames != [] && BusyCount(c.boxes) == total)
        then d == c && after == before
        else
          && after.taken == before.taken + frames[..if overwrite || |frames| <= c.free then |frames| else c.free]
          && after.sent == before.sent && after.back == before.back
          && (inIsr || d.waiting == 0 || d.idle == []
              || var k := |after.loaded| - |before.loaded|; 0 <= k < |answers| && answers[k].Refused?)
      case SendsDone(b, answers) =>
        if b >= |c.boxes| || !c.boxes[b].isBusy || !Fair(c.idle + [b], answers) || |answers| <= |c.idle|
        then d == c && after == before
        else c.boxes[b].held.Some? && after.sent == before.sent + [c.boxes[b].held.value.frame]
      case Retransmits(b, answers) =>
        if b >= |c.boxes| || !c.boxes[b].isBusy || !Fair(c.idle + [b], answers) || |answers| <= |c.idle|
        then d == c && after == before
        else c.boxes[b].held.Some? && after.back == before.back + [c.boxes[b].held.value.frame]
  {
    assert forall i {:trigger events[i]} | 0 <= i < |vs| - 1 ::
        Happens(events[i], overwrite, total, stands[i], stands[i + 1], vs[i], vs[i + 1]);
  }

  /** The next of the events, told on. */
  method StepOn(h: TxHandler, events: seq<Event>, i: nat, v: Trace,
                ghost s: Story, ghost stands: seq<Stand>, ghost vs: seq<Trace>)
    returns (n: Trace, stuck: bool, ghost t: Story, ghost stands': seq<Stand>, ghost vs': seq<Trace>)
    requires i < |events| && |stands| == |vs| == i + 1 && stands[i] == Standing(h) && vs[i] == v
    requires var valid, fits, agrees := h.Valid(), Fits(h, s), Agrees(v, s); valid && fits && agrees
    requires var happened := AllHappen(events, i, h.overwrite, h.total, stands, vs); happened
    modifies h
    ensures var valid, fits, agrees := h.Valid(), Fits(h, t), Agrees(n, t); valid && fits && agrees
    ensures var happened := AllHappen(events, i + 1, h.overwrite, h.total, stands', vs'); happened
    ensures |stands'| == |vs'| == i + 2 && stands'[0] == stands[0] && vs'[0] == vs[0]
    ensures stands'[i + 1] == Standing(h) && vs'[i + 1] == n
    ensures stuck ==> h.overwrite && BusyCount(h.boxes) == h.total && events[i].Writes?
    ensures v.back == [] && !events[i].Retransmits? ==> n.back == []
  {
    var w, chosen;
    w, stuck, chosen, t := Step(h, events[i], s);
    AgreesOn(v, s, w, t);
    OneMoreHappens(events, i, h.overwrite, h.total, stands, vs, Standing(h), w);
    n := v.Then(w);
    stands', vs' := stands + [Standing(h)], vs + [n];
  }

  /** The events in turn, told on. */
  method StepAll(h: TxHandler, events: seq<Event>)
    returns (v: Trace, ghost s: Story, ghost stands: seq<Stand>, ghost vs: seq<Trace>)
    requires h.Valid() && h.used == [] && h.tally == Tally(0, 0, 0, 0)
    requires forall b | 0 <= b < |h.boxes| :: h.boxes[b] == EMPTY
    modifies h
    ensures var valid, fits, agrees := h.Valid(), Fits(h, s), Agrees(v, s); valid && fits && agrees
    ensures (forall e | e in events :: !e.Retransmits?) ==> v.back == []
    ensures 0 < |stands| == |vs| <= |events| + 1 && stands[0] == old(Standing(h)) && vs[0] == NOTHING
    ensures var n := |vs| - 1;
      && stands[n] == Standing(h) && vs[n] == v
      && (n < |events| ==> n > 0 && h.overwrite && BusyCount(h.boxes) == h.total && events[n - 1].Writes?)
    ensures var happened := AllHappen(events, |vs| - 1, h.overwrite, h.total, stands, vs); happened
  {
    ghost var was := Standing(h);
    v, s := NOTHING, START;
    stands, vs := [Standing(h)], [NOTHING];
    Starts(h);
    var i, stuck := 0, false;
    while i < |events| && !stuck
      invariant 0 <= i <= |events|
      invariant var valid, fits, agrees := h.Valid(), Fits(h, s), Agrees(v, s); valid && fits && agrees
      invariant (forall e | e in events :: !e.Retransmits?) ==> v.back == []
      invariant |stands| == |vs| == i + 1 && stands[0] == was && stands[i] == Standing(h)
      invariant vs[0] == NOTHING && vs[i] == v
      invariant var happened := AllHappen(events, i, h.overwrite, h.total, stands, vs); happened
      invariant stuck ==> i > 0 && h.overwrite && BusyCount(h.boxes) == h.total && events[i - 1].Writes?
    {
      assert events[i] in events;
      v, stuck, s, stands, vs := StepOn(h, events, i, v, s, stands, vs);
      i := i + 1;
    }
  }

  /** Any run of the sender from its start, with what is seen of it; what cannot happen
      is skipped, and a write that never returns ends it. Every message taken is in one
      place. When one goes into a mailbox for the first time, all that were taken before
      it have been in one or were overwritten; and as long as nothing was overwritten or
      came back, the mailboxes got the frames in the order taken, without gaps. The ghost
      results are how the driver stood, and what had been seen, between the events. */
  method Run(h: TxHandler, events: seq<Event>)
    returns (v: Trace, ghost s: Story, ghost stands: seq<Stand>, ghost vs: seq<Trace>)
    requires h.Valid() && h.used == [] && h.tally == Tally(0, 0, 0, 0)
    requires forall b | 0 <= b < |h.boxes| :: h.boxes[b] == EMPTY
    modifies h
    ensures h.Valid() && Fits(h, s) && Agrees(v, s)
    ensures |v.taken| == |v.sent| + |v.lost| + |h.used| + BusyCount(h.boxes) && OnePlaceEach(s)
    ensures |v.sent| == h.tally.sent && |v.lost| == if h.overwrite then h.tally.failed else 0
    ensures ServedInTurn(s) && (v.lost == v.back == [] ==> v.loaded <= v.taken)
    ensures (forall e | e in events :: !e.Retransmits?) ==> v.back == []
    ensures 0 < |stands| == |vs| <= |events| + 1 && stands[0] == old(Standing(h)) && vs[0] == NOTHING
    ensures var n := |vs| - 1;
      && stands[n] == Standing(h) && vs[n] == v
      && (n < |events| ==> n > 0 && h.overwrite && BusyCount(h.boxes) == h.total && events[n - 1].Writes?)
    ensures forall i {:trigger events[i]} | 0 <= i < |vs| - 1 ::
      var c, d, before, after := stands[i], stands[i + 1], vs[i], vs[i + 1];
      match events[i]
      case Writes(frames, inIsr, answers) =>
        if !Fair(c.idle, answers) || |answers| < |c.idle|
           || (h.overwrite && frames != [] && BusyCount(c.boxes) == h.total)
        then d == c && after == before
        else
          && after.taken == before.taken + frames[..if h.overwrite || |frames| <= c.free then |frames| else c.free]
          && after.sent == before.sent && after.back == before.back
          && (inIsr || d.waiting == 0 || d.idle == []
              || var k := |after.loaded| - |before.loaded|; 0 <= k < |answers| && answers[k].Refused?)
      case SendsDone(b, answers) =>
        if b >= |c.boxes| || !c.boxes[b].isBusy || !Fair(c.idle + [b], answers) || |answers| <= |c.idle|
        then d == c && after == before
        else c.boxes[b].held.Some? && after.sent == before.sent + [c.boxes[b].held.value.frame]
      case Retransmits(b, answers) =>
        if b >= |c.boxes| || !c.boxes[b].isBusy || !Fair(c.idle + [b], answers) || |answers| <= |c.idle|
        then d == c && after == before
        else c.boxes[b].held.Some? && after.back == before.back + [c.boxes[b].held.value.frame]
  {
    v, s, stands, vs := StepAll(h, events);
    AllMeans(events, h.overwrite, h.total, stands, vs);
    h.BoxesOf(0);
    Sums(s, h.State());
    InOnePlace(s);
    FirstComeFirstServed(s);
    InTheOrderTaken(s, v);
  }

  lemma {:induction false} CountBusy(boxes: seq<Mailbox>, keys: set<nat>)
    requires forall b: nat :: b in keys <==> b < |boxes| && boxes[b].isBusy
    ensures |keys| == BusyCount(boxes)
  {
    if boxes == [] {
      assert keys == {};
    } else {
      var k := |boxes| - 1;
      CountBusy(boxes[..k], keys - {k});
    }
  }

  lemma Sums(s: Story, o: Outbox)
    requires s.Knows(Frames(o.used)) && s.TellsBoxes(o.boxes) && Boxed(o.boxes, o.idle)
    ensures |s.taken| == |s.sent| + |s.overwritten| + |o.used| + BusyCount(o.boxes)
  {
    assert |Frames(o.used)[|s.back|..]| == |s.taken[s.next..]|;
    assert forall b | 0 <= b < |o.boxes| :: o.boxes[b].isBusy <==> b !in o.idle;
    CountBusy(o.boxes, s.boxed.Keys);
    assert |s.boxed| == |s.boxed.Keys|;
  }

  /** Each message is sent, overwritten, in a mailbox, back in front or not yet tried,
      and only one of these. */
  predicate OnePlaceEach(s: Story) {
    forall k | 0 <= k < |s.taken| ::
      (if k in s.sent then 1 else 0) + (if k in s.overwritten then 1 else 0) + (if k in s.boxed.Values then 1 else 0)
        + (if k in s.back then 1 else 0) + (if k >= s.next then 1 else 0) == 1
  }

  lemma InOnePlace(s: Story)
    requires s.Inv()
    ensures OnePlaceEach(s)
  {
    forall k | 0 <= k < |s.taken|
      ensures (if k in s.sent then 1 else 0) + (if k in s.overwritten then 1 else 0)
        + (if k in s.boxed.Values then 1 else 0) + (if k in s.back then 1 else 0) + (if k >= s.next then 1 else 0) == 1
    {
      assert k in s.boxed.Values <==> s.fates[k].InBox?;
      match s.fates[k]
      case Waiting =>
      case InBox(_) =>
      case Gone =>
      case Overwritten =>
    }
  }

  lemma {:induction false} FirstPlace(s: seq<nat>, k: nat) returns (p: nat)
    requires k in s
    ensures p < |s| && s[p] == k && k !in s[..p]
  {
    var front, last := s[..|s| - 1], s[|s| - 1];
    assert s == front + [last];
    if k in front {
      p := FirstPlace(front, k);
      assert s[..p] == front[..p];
    } else {
      p := |s| - 1;
    }
  }

  /** When a message goes into a mailbox for the first time, every message taken before
      it has been in a mailbox or was overwritten. */
  predicate ServedInTurn(s: Story) {
    forall i | 0 <= i < |s.entered| && s.entered[i] !in s.entered[..i] :: NonePassed(s, i)
  }

  predicate NonePassed(s: Story, i: nat)
    requires i < |s.entered|
  {
    forall k | 0 <= k < s.entered[i] :: k in s.entered[..i] || k in s.overwritten
  }

  lemma FirstComeFirstServed(s: Story)
    requires s.Inv()
    ensures ServedInTurn(s)
  {
    forall i | 0 <= i < |s.entered| && s.entered[i] !in s.entered[..i]
      ensures NonePassed(s, i)
    {
      forall k | 0 <= k < s.entered[i]
        ensures k in s.entered[..i] || k in s.overwritten
      {
        EnteredBefore(s, i, k);
      }
    }
  }

  lemma EnteredBefore(s: Story, i: nat, k: nat)
    requires s.Inv() && i < |s.entered| && s.entered[i] !in s.entered[..i] && k < s.entered[i]
    ensures k in s.entered[..i] || k in s.overwritten
  {
    var e := s.entered;
    assert e[i] in e && e[i] < s.next;
    if k !in s.overwritten {
      assert k in e;
      var p := FirstPlace(e, k);
      if p < i {
        assert e[..i][p] == k;
      }
      assert !(i < p);
    }
  }

  /** Without retransmission or overwriting, what went into mailboxes is what the
      writes took, in that order and without gaps. */
  lemma InTheOrderTaken(s: Story, v: Trace)
    requires s.Inv() && Agrees(v, s)
    ensures v.lost == v.back == [] ==> v.loaded <= v.taken
  {
    if v.lost == v.back == [] {
      Rising(s.entered, s.next);
    }
  }

  lemma Members<T>(s: seq<T>)
    ensures forall i | 0 <= i < |s| :: s[i] in s
  {
  }

  lemma {:induction false} Rising(s: seq<nat>, n: nat)
    requires forall i, j | 0 <= i < j < |s| :: s[i] < s[j]
    requires (forall k | k in s :: k < n) && forall k | 0 <= k < n :: k in s
    ensures |s| == n && forall i | 0 <= i < n :: s[i] == i
  {
    if n == 0 {
      Members(s);
    } else {
      assert n - 1 in s;
      var k :| 0 <= k < |s| && s[k] == n - 1;
      var front := s[..|s| - 1];
      assert s[|s| - 1] in s;
      forall x | 0 <= x < n - 1
        ensures x in front
      {
        assert x in s;
        var i :| 0 <= i < |s| && s[i] == x;
        assert front[i] == x;
      }
      Rising(front, n - 1);
    }
  }
}
