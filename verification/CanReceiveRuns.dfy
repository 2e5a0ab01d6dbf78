/** Runs of the CAN receiver: frames come and filters are read in any order. */
module CanReceiveRuns {
  import opened CanFifo
  import opened CanReceive
  import opened Sequences

  datatype Event = Comes(hw: Hardware) | Reads(slot: nat)

  /** The receiver; every message it kept, in order of arrival; which of them are still
      pending; those that left, in the order they left; how many of these were dropped
      and not read; and how many receptions failed with a node in hand. */
  datatype Story = Story(box: Box, kept: seq<Msg>, pending: seq<nat>, left: seq<Msg>, dropped: nat, failures: nat) {

    function Next(e: Event): Story {
      match e
      case Comes(hw) => if box.Alive() then Come(hw) else this
      case Reads(f) =>
        var k := First(box.used, f);
        if k < |box.used| && k < |pending| then Leave(k).(box := box.Read(f)) else this
    }

    function Come(hw: Hardware): Story
      requires box.Alive()
    {
      if box.free != [] then this.(box := box.Emptied()).Store(box.Room(), hw)
      else if !box.overwrite then this.(box := box.Overflowed())
      else if pending == [] then this
      else Leave(0).(box := box.Emptied().Overflowed(), dropped := dropped + 1).Store(box.Room(), hw)
    }

    function Leave(k: nat): Story
      requires k < |pending| && k < |box.used|
    {
      this.(pending := RemoveAt(pending, k), left := left + [box.used[k]])
    }

    function Store(m: Msg, hw: Hardware): Story {
      if box.Keeps(hw) then
        this.(box := box.Put(m, hw), kept := kept + [Msg(m.node, hw.slot, hw.frame)], pending := pending + [|kept|])
      else
        this.(box := box.Put(m, hw), failures := failures + if hw.Failed? then 1 else 0)
    }

    function Run(events: seq<Event>): Story {
      if events == [] then this else Run(events[..|events| - 1]).Next(events[|events| - 1])
    }

    /** The used list is what is pending of the messages kept, in order of arrival. */
    predicate InOrder() {
      && |pending| == |box.used|
      && (forall i | 0 <= i < |pending| :: pending[i] < |kept| && kept[pending[i]] == box.used[i])
      && forall i, j | 0 <= i < j < |pending| :: pending[i] < pending[j]
    }

    /** Of each filter's messages, the first ones have left, in order of arrival. */
    ghost predicate InTurn() {
      forall f: int :: Of(kept, f) == Of(left, f) + Of(box.used, f)
    }

    /** Nodes only go missing in failed receptions, and the counters are right. */
    predicate AddsUp(total: nat) {
      && |box.free| + |box.used| + failures == total
      && |kept| == |left| + |box.used| == box.counts.received
      && dropped == if box.overwrite then box.counts.overflows else 0
    }

    ghost predicate Inv(total: nat) {
      var order, turn, sums := InOrder(), InTurn(), AddsUp(total);
      order && turn && sums
    }
  }

  lemma LeaveKeepsOrder(s: Story, k: nat)
    requires s.InOrder() && k < |s.pending|
    ensures s.Leave(k).(box := s.box.(used := RemoveAt(s.box.used, k))).InOrder()
  {
    var n := s.Leave(k);
    var us := RemoveAt(s.box.used, k);
    forall i | 0 <= i < |us|
      ensures n.pending[i] == s.pending[if i < k then i else i + 1] && us[i] == s.box.used[if i < k then i else i + 1]
    {
    }
  }

  /** A filter's oldest message may leave. */
  lemma LeaveKeepsTurn(s: Story, f: int)
    requires s.InTurn() && |s.pending| == |s.box.used| && First(s.box.used, f) < |s.box.used|
    ensures var k := First(s.box.used, f);
      s.Leave(k).(box := s.box.(used := RemoveAt(s.box.used, k))).InTurn()
  {
    forall g: int
      ensures Of(s.kept, g) == Of(s.left + [s.box.used[First(s.box.used, f)]], g)
        + Of(RemoveAt(s.box.used, First(s.box.used, f)), g)
    {
      LeaveInTurn(s.kept, s.left, s.box.used, f, g);
    }
  }

  lemma LeaveInTurn(kept: seq<Msg>, left: seq<Msg>, used: seq<Msg>, f: int, g: int)
    requires Of(kept, g) == Of(left, g) + Of(used, g) && First(used, f) < |used|
    ensures Of(kept, g) == Of(left + [used[First(used, f)]], g) + Of(RemoveAt(used, First(used, f)), g)
  {
    var k := First(used, f);
    AppendOf(left, used[k], g);
    if g == f {
      OldestOf(used, f);
      MoveHead(Of(left, g), Of(used, g));
    } else {
      OthersOf(used, k, g);
    }
  }

  lemma StoreInTurn(kept: seq<Msg>, left: seq<Msg>, used: seq<Msg>, m: Msg, f: int)
    requires Of(kept, f) == Of(left, f) + Of(used, f)
    ensures Of(kept + [m], f) == Of(left, f) + Of(used + [m], f)
  {
    AppendOf(kept, m, f);
    AppendOf(used, m, f);
    Associates(Of(left, f), Of(used, f), [m]);
  }

  lemma StoreKeepsTurn(s: Story, m: Msg)
    requires s.InTurn()
    ensures s.(kept := s.kept + [m], box := s.box.(used := s.box.used + [m])).InTurn()
  {
    forall f: int
      ensures Of(s.kept + [m], f) == Of(s.left, f) + Of(s.box.used + [m], f)
    {
      StoreInTurn(s.kept, s.left, s.box.used, m, f);
    }
  }

  lemma StoreKeepsOrder(s: Story, m: Msg)
    requires s.InOrder()
    ensures var box := s.box.(used := s.box.used + [m]);
      s.(kept := s.kept + [m], pending := s.pending + [|s.kept|], box := box).InOrder()
  {
  }

  lemma StoreKeeps(s: Story, m: Msg, hw: Hardware, total: nat)
    requires s.Inv(total)
    ensures s.Store(m, hw).Inv(total + 1)
  {
    if s.box.Keeps(hw) {
      StoreKeepsTurn(s, Msg(m.node, hw.slot, hw.frame));
      StoreKeepsOrder(s, Msg(m.node, hw.slot, hw.frame));
    }
  }

  lemma LeaveKeeps(s: Story, f: int, total: nat)
    requires s.Inv(total) && First(s.box.used, f) < |s.box.used|
    ensures var k := First(s.box.used, f);
      var n := s.Leave(k).(box := s.box.(used := RemoveAt(s.box.used, k)));
      n.InOrder() && n.InTurn()
  {
    LeaveKeepsOrder(s, First(s.box.used, f));
    LeaveKeepsTurn(s, f);
  }

  lemma DropKeeps(s: Story, total: nat)
    requires s.Inv(total) && s.box.free == [] && s.box.overwrite && s.box.used != []
    ensures s.Leave(0).(box := s.box.Emptied().Overflowed(), dropped := s.dropped + 1).Inv(total - 1)
  {
    LeaveKeeps(s, s.box.used[0].owner, total);
    assert First(s.box.used, s.box.used[0].owner) == 0;
    var n := s.Leave(0).(box := s.box.(used := RemoveAt(s.box.used, 0)));
    var dropped := s.Leave(0).(box := s.box.Emptied().Overflowed(), dropped := s.dropped + 1);
    assert dropped.InOrder() && dropped.InTurn() by {
      assert dropped.box.used == n.box.used && dropped.left == n.left && dropped.pending == n.pending;
    }
  }

  lemma FreeKeeps(s: Story, total: nat)
    requires s.Inv(total) && s.box.free != []
    ensures s.(box := s.box.Emptied()).Inv(total - 1)
  {
  }

  lemma RefuseKeeps(s: Story, total: nat)
    requires s.Inv(total) && !s.box.overwrite
    ensures s.(box := s.box.Overflowed()).Inv(total)
  {
  }

  lemma ComeKeeps(s: Story, hw: Hardware, total: nat)
    requires s.Inv(total) && s.box.Alive()
    ensures s.Come(hw).Inv(total)
  {
    if s.box.free != [] {
      FreeKeeps(s, total);
      StoreKeeps(s.(box := s.box.Emptied()), s.box.Room(), hw, total - 1);
    } else if s.box.overwrite {
      OverwriteKeeps(s, hw, total);
    } else {
      RefuseKeeps(s, total);
    }
  }

  lemma OverwriteKeeps(s: Story, hw: Hardware, total: nat)
    requires s.Inv(total) && s.box.free == [] && s.box.overwrite && s.box.used != []
    ensures s.Come(hw).Inv(total)
  {
    DropKeeps(s, total);
    var left := s.Leave(0).(box := s.box.Emptied().Overflowed(), dropped := s.dropped + 1);
    StoreKeeps(left, s.box.Room(), hw, total - 1);
    assert s.Come(hw) == left.Store(s.box.Room(), hw);
  }

  lemma NextKeeps(s: Story, e: Event, total: nat)
    requires s.Inv(total)
    ensures s.Next(e).Inv(total)
  {
    match e
    case Comes(hw) =>
      if s.box.Alive() {
        ComeKeeps(s, hw, total);
      }
    case Reads(f) =>
      if First(s.box.used, f) < |s.box.used| {
        LeaveKeeps(s, f, total);
      }
  }

  function Start(overwrite: bool, filters: nat, nodes: seq<Msg>): Story {
    Story(Box(overwrite, filters, nodes, [], Counts(0, 0, 0)), [], [], [], 0, 0)
  }

  lemma {:induction false} RunKeeps(overwrite: bool, filters: nat, nodes: seq<Msg>, events: seq<Event>)
    ensures Start(overwrite, filters, nodes).Run(events).Inv(|nodes|)
  {
    if events == [] {
    } else {
      RunKeeps(overwrite, filters, nodes, events[..|events| - 1]);
      NextKeeps(Start(overwrite, filters, nodes).Run(events[..|events| - 1]), events[|events| - 1], |nodes|);
    }
  }

  /** The step of the story is the step of the receiver. */
  lemma SameBox(s: Story, hw: Hardware)
    requires s.box.Alive() && |s.pending| == |s.box.used|
    ensures s.Come(hw).box == s.box.Arrive(hw)
  {
  }

  /** A read takes the first message of its filter, if there is one. */
  lemma ReadTakesFirst(s: Story, f: nat, k: nat)
    requires |s.pending| == |s.box.used| && k <= |s.box.used| && (forall i | 0 <= i < k :: s.box.used[i].owner != f)
    ensures k < |s.box.used| && s.box.used[k].owner == f ==> var n := s.Next(Reads(f));
      && n.left == s.left + [s.box.used[k]] && n.box == s.box.Read(f) && n.dropped == s.dropped
      && n.box.used == s.box.used[..k] + s.box.used[k + 1..]
    ensures k == |s.box.used| ==> s.Next(Reads(f)) == s
  {
    assert k == |s.box.used| || s.box.used[k].owner == f ==> First(s.box.used, f) == k;
  }

  /** The frames that came for a filter while there was a node free, or one that could
      be taken from the oldest message. */
  function Due(s: Story, events: seq<Event>): seq<(int, Frame)> {
    if events == [] then [] else
      var before, box := Due(s, events[..|events| - 1]), s.Run(events[..|events| - 1]).box;
      match events[|events| - 1]
      case Comes(Got(slot, frame)) =>
        if slot < s.box.filters && (box.free != [] || (box.overwrite && box.used != []))
        then before + [(slot, frame)] else before
      case _ => before
  }

  /** The messages are these frames, one by one. */
  predicate Carries(ms: seq<Msg>, frames: seq<(int, Frame)>) {
    |ms| == |frames| && forall i | 0 <= i < |ms| :: ms[i].owner == frames[i].0 && ms[i].frame == frames[i].1
  }

  /** What one event adds to the messages kept. */
  lemma KeepsWhatFits(s: Story, e: Event)
    requires |s.pending| == |s.box.used|
    ensures match e
      case Comes(Got(slot, frame)) =>
        if slot < s.box.filters && (s.box.free != [] || (s.box.overwrite && s.box.used != []))
        then exists node :: s.Next(e).kept == s.kept + [Msg(node, slot, frame)]
        else s.Next(e).kept == s.kept
      case _ => s.Next(e).kept == s.kept
  {
    if e.Comes? && e.hw.Got? {
      var m := if s.box.free != [] then s.box.free[0] else if s.box.used != [] then s.box.used[0] else
        Msg(0, NONE, e.hw.frame);
      assert e.hw.slot < s.box.filters && s.box.Alive() && (s.box.free != [] || s.box.overwrite) ==>
        s.Next(e).kept == s.kept + [Msg(m.node, e.hw.slot, e.hw.frame)];
    }
  }

  /** A run keeps exactly the frames that came for a filter while there was room. */
  lemma {:induction false} KeptAreDue(overwrite: bool, filters: nat, nodes: seq<Msg>, events: seq<Event>)
    ensures Carries(Start(overwrite, filters, nodes).Run(events).kept, Due(Start(overwrite, filters, nodes), events))
  {
    if events == [] {
    } else {
      var s, before := Start(overwrite, filters, nodes), events[..|events| - 1];
      KeptAreDue(overwrite, filters, nodes, before);
      RunKeeps(overwrite, filters, nodes, before);
      Setting(s, before);
      KeepsWhatFits(s.Run(before), events[|events| - 1]);
    }
  }

  /** However frames and reads mix, what has left of a filter's messages are its first
      ones in order of arrival. Without overwriting they have all been read. */
  lemma EachFilterInTurn(overwrite: bool, filters: nat, nodes: seq<Msg>, events: seq<Event>, f: int)
    ensures var s := Start(overwrite, filters, nodes).Run(events);
      Of(s.left, f) <= Of(s.kept, f) && (!overwrite ==> s.dropped == 0)
  {
    RunKeeps(overwrite, filters, nodes, events);
    Setting(Start(overwrite, filters, nodes), events);
    InTurnPrefix(Start(overwrite, filters, nodes).Run(events), f);
  }

  lemma InTurnPrefix(s: Story, f: int)
    requires s.InTurn()
    ensures Of(s.left, f) <= Of(s.kept, f)
  {
    assert Of(s.kept, f) == Of(s.left, f) + Of(s.box.used, f);
  }

  /** A message that is overwritten is the oldest of all those pending. */
  lemma DropsTheOldest(s: Story, total: nat, hw: Hardware)
    requires s.Inv(total) && s.box.Alive()
    ensures s.Come(hw).dropped > s.dropped <==> s.box.overwrite && s.box.free == []
    ensures s.Come(hw).dropped > s.dropped ==>
      s.pending != [] && s.pending[0] < |s.kept| && s.Come(hw).left == s.left + [s.kept[s.pending[0]]]
    ensures forall i | 0 < i < |s.pending| :: s.pending[0] < s.pending[i]
  {
  }

  /** A receiver has room for as many messages as it has nodes less the receptions that
      failed. With overwriting, it waits for ever exactly when all of them have. */
  lemma RoomLeft(overwrite: bool, filters: nat, nodes: seq<Msg>, events: seq<Event>)
    ensures var s := Start(overwrite, filters, nodes).Run(events);
      && |s.box.free| + |s.box.used| == |nodes| - s.failures
      && (s.box.overwrite && !s.box.Alive() <==> overwrite && s.failures == |nodes|)
  {
    RunKeeps(overwrite, filters, nodes, events);
    Setting(Start(overwrite, filters, nodes), events);
  }

  lemma {:induction false} Setting(s: Story, events: seq<Event>)
    ensures s.Run(events).box.overwrite == s.box.overwrite && s.Run(events).box.filters == s.box.filters
  {
    if events == [] {
    } else {
      Setting(s, events[..|events| - 1]);
    }
  }

  /** The free and used nodes are not constant: one failed reception costs a node. */
  lemma FailureLosesNode()
    ensures var s := Start(true, 1, [Msg(7, NONE, Frame(0, []))]).Run([Comes(Failed)]);
      s.box.free == [] && s.box.used == [] && !s.box.Alive()
  {
    assert [Comes(Failed)][..0] == [];
  }
}
