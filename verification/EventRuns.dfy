/** Runs of an event group: tasks set, clear, wait, sync and time out in any order. */
module EventRuns {
  import opened Sequences
  import opened EventGroups

  /** The steps that are atomic: the scheduler is suspended, or interrupts are off. */
  datatype Op =
    | SetBits(bits: Bits)
    | ClearBits(bits: Bits)
    | WaitBits(task: nat, call: Call, mayBlock: bool)
    | Sync(task: nat, toSet: Bits, want: Bits, mayBlock: bool)
    | Expire(task: nat)
    | Finish(task: nat)

  /** An event group and the calls that tasks are in. */
  datatype System = System(group: Group, calls: map<nat, Call>) {
    predicate Enabled(op: Op) {
      match op
      case SetBits(b) => Plain(b)
      case ClearBits(b) => Plain(b)
      case WaitBits(t, call, _) => t !in calls && Plain(call.want) && call.want != {}
      case Sync(t, b, want, _) => t !in calls && Plain(b) && Plain(want) && want != {}
      case Expire(t) => t in Tasks(group.waiting)
      case Finish(t) => t in group.items && t in calls
    }

    function Next(op: Op): System
      requires Enabled(op)
    {
      match op
      case SetBits(b) => this.(group := group.Set(b))
      case ClearBits(b) => this.(group := group.(bits := group.bits - b))
      case WaitBits(t, call, mayBlock) =>
        Entered(t, call, group.Wait(t, call, mayBlock), !Met(group.bits, call.want, call.all) && mayBlock)
      case Sync(t, b, want, mayBlock) =>
        Entered(t, Call(want, true, true), group.Sync(t, b, want, mayBlock), !(want <= group.bits + b) && mayBlock)
      case Expire(t) => this.(group := group.Expire(Position(group.waiting, t)))
      case Finish(t) => System(group.Finish(t, calls[t]), calls - {t})
    }

    function Entered(t: nat, call: Call, g: Group, blocks: bool): System {
      System(g, if blocks then calls[t := call] else calls)
    }

    /** A blocked task's item says what its call wants. */
    predicate Queued() {
      forall w | w in group.waiting :: w.task in calls && w.item == calls[w.task].Item()
    }

    /** A task off the list was woken by bits that met its condition, or timed out. */
    predicate Answered() {
      forall t | t in group.items ::
        t in calls && (group.items[t] == calls[t].Item() || WokenBy(group.items[t], calls[t]))
    }

    predicate Inv() {
      && group.Sound() && group.Quiet() && Queued() && Answered()
      && forall t | t in calls ::
          Plain(calls[t].want) && calls[t].want != {} && (t in Tasks(group.waiting) || t in group.items)
    }

    function Run(ops: seq<Op>): System
      decreases |ops|
    {
      if ops == [] then this
      else (if Enabled(ops[0]) then Next(ops[0]) else this).Run(ops[1..])
    }
  }

  const START := System(Group({}, [], map[]), map[])

  lemma Parts(call: Call)
    requires Plain(call.want)
    ensures Uncontrolled(call.Item()) == call.want && UNBLOCKED !in call.Item()
    ensures (CLEAR_ON_EXIT in call.Item() <==> call.clear) && (WAIT_FOR_ALL in call.Item() <==> call.all)
  {
  }

  lemma SnapshotParts(b: Bits)
    requires Plain(b)
    ensures Uncontrolled(Snapshot(b)) == b && UNBLOCKED in Snapshot(b)
  {
  }

  lemma StayingDistinct(ws: seq<Waiter>, b: Bits)
    requires DistinctTasks(ws)
    ensures DistinctTasks(Staying(ws, b))
  {
    if ws != [] {
      var front := ws[..|ws| - 1];
      StayingDistinct(front, b);
      assert forall w | w in front :: w.task != ws[|ws| - 1].task;
    }
  }

  lemma OneItem(ws: seq<Waiter>, w: Waiter, b: Bits)
    requires DistinctTasks(ws) && w in ws
    ensures w.task in Woken(ws, b) <==> w.Holds(b)
  {
  }

  /** Bits that a woken task takes with it leave the other conditions unmet. */
  lemma SetKeeps(s: System, b: Bits)
    requires s.Inv() && Plain(b)
    ensures s.Next(SetBits(b)).Inv()
  {
    var g, all := s.group.Set(b), s.group.bits + b;
    StayingDistinct(s.group.waiting, all);
    SnapshotParts(all);
    forall w | w in s.group.waiting
      ensures w.Holds(all) ==> WokenBy(Snapshot(all), s.calls[w.task])
      ensures !w.Holds(all) ==> !w.Holds(g.bits) && w.task !in g.items
    {
      Parts(s.calls[w.task]);
      OneItem(s.group.waiting, w, all);
    }
  }

  lemma DropKeeps(s: System, c: Bits)
    requires s.Inv()
    ensures s.(group := s.group.(bits := s.group.bits - c)).Inv()
  {
    forall w | w in s.group.waiting
      ensures !w.Holds(s.group.bits - c)
    {
      Parts(s.calls[w.task]);
    }
  }

  lemma AppendTask(ws: seq<Waiter>, w: Waiter)
    requires DistinctTasks(ws) && w.task !in Tasks(ws)
    ensures DistinctTasks(ws + [w]) && Tasks(ws + [w]) == Tasks(ws) + {w.task}
    ensures forall u :: u in ws + [w] <==> u in ws || u == w
  {
    assert w in ws + [w] && forall i | 0 <= i < |ws| :: ws[i] in ws;
  }

  /** A task blocks only when its condition does not hold. */
  lemma BlockKeeps(s: System, t: nat, call: Call)
    requires s.Inv() && t !in s.calls && Plain(call.want) && call.want != {}
    requires !Met(s.group.bits, call.want, call.all)
    ensures System(s.group.Block(t, call), s.calls[t := call]).Inv()
  {
    Parts(call);
    AppendTask(s.group.waiting, Waiter(t, call.Item()));
  }

  lemma WaitKeeps(s: System, t: nat, call: Call, mayBlock: bool)
    requires s.Inv() && s.Enabled(WaitBits(t, call, mayBlock))
    ensures s.Next(WaitBits(t, call, mayBlock)).Inv()
  {
    if Met(s.group.bits, call.want, call.all) {
      DropKeeps(s, if call.clear then call.want else {});
    } else if mayBlock {
      BlockKeeps(s, t, call);
    }
  }

  lemma SyncKeeps(s: System, t: nat, b: Bits, want: Bits, mayBlock: bool)
    requires s.Inv() && s.Enabled(Sync(t, b, want, mayBlock))
    ensures s.Next(Sync(t, b, want, mayBlock)).Inv()
  {
    SetKeeps(s, b);
    var after := s.Next(SetBits(b));
    if want <= s.group.bits + b {
      DropKeeps(after, want);
    } else if mayBlock {
      BlockKeeps(after, t, Call(want, true, true));
    }
  }

  lemma RemoveTask(ws: seq<Waiter>, k: nat)
    requires DistinctTasks(ws) && k < |ws|
    ensures DistinctTasks(RemoveAt(ws, k))
    ensures ws[k] in ws && forall w :: w in RemoveAt(ws, k) <==> w in ws && w.task != ws[k].task
    ensures Tasks(RemoveAt(ws, k)) == Tasks(ws) - {ws[k].task}
  {
    var us := RemoveAt(ws, k);
    assert forall i | 0 <= i < |us| :: us[i] == ws[if i < k then i else i + 1];
    forall i | 0 <= i < |ws| && i != k
      ensures ws[i] in us
    {
      assert ws[i] == us[if i < k then i else i - 1];
    }
  }

  lemma ExpireKeeps(s: System, k: nat)
    requires s.Inv() && k < |s.group.waiting|
    ensures s.(group := s.group.Expire(k)).Inv()
  {
    RemoveTask(s.group.waiting, k);
  }

  lemma FinishKeeps(s: System, t: nat)
    requires s.Inv() && s.Enabled(Finish(t))
    ensures s.Next(Finish(t)).Inv()
  {
    var call := s.calls[t];
    DropKeeps(s, call.want);
    assert t !in Tasks(s.group.waiting);
  }

  lemma StepKeeps(s: System, op: Op)
    requires s.Inv() && s.Enabled(op)
    ensures s.Next(op).Inv()
  {
    match op
    case SetBits(b) => SetKeeps(s, b);
    case ClearBits(b) => DropKeeps(s, b);
    case WaitBits(t, call, mayBlock) => WaitKeeps(s, t, call, mayBlock);
    case Sync(t, b, want, mayBlock) => SyncKeeps(s, t, b, want, mayBlock);
    case Expire(t) => ExpireKeeps(s, Position(s.group.waiting, t));
    case Finish(t) => FinishKeeps(s, t);
  }

  /** In every state that tasks can reach, no blocked task's condition holds, and a
      woken task's item carries bits that met its own condition. */
  lemma {:induction false} RunKeeps(s: System, ops: seq<Op>)
    requires s.Inv()
    ensures s.Run(ops).Inv()
    decreases |ops|
  {
    if ops == [] {
    } else {
      if s.Enabled(ops[0]) {
        StepKeeps(s, ops[0]);
        RunKeeps(s.Next(ops[0]), ops[1..]);
      } else {
        RunKeeps(s, ops[1..]);
      }
    }
  }

  lemma ReachedIsQuiet(ops: seq<Op>)
    ensures START.Run(ops).Inv() && START.Run(ops).group.Quiet()
  {
    RunKeeps(START, ops);
  }

  /** One set wakes exactly the tasks whose condition holds on the bits it makes. All
      get those bits, whichever of them are cleared. */
  lemma SetWakes(s: System, b: Bits, w: Waiter)
    requires s.Inv() && Plain(b) && w in s.group.waiting
    ensures var all, g, call := s.group.bits + b, s.Next(SetBits(b)).group, s.calls[w.task];
      if (if call.all then call.want <= all else call.want * all != {})
      then w !in g.waiting && w.task in g.items && UNBLOCKED in g.items[w.task] && g.Answer(w.task) == all
        && (call.clear ==> g.bits * call.want == {})
      else w in g.waiting && w.task !in g.items
  {
    var all := s.group.bits + b;
    Parts(s.calls[w.task]);
    SnapshotParts(all);
    OneItem(s.group.waiting, w, all);
    assert w.Clears(all) ==> forall i | i in w.Want() :: i in Cleared(s.group.waiting, all);
  }

  /** The bits that stay set are those that no call takes which clears on exit and whose
      condition is met. */
  lemma SetLeaves(s: System, b: Bits, i: nat)
    requires s.Inv() && Plain(b)
    ensures var all := s.group.bits + b;
      i in s.Next(SetBits(b)).group.bits <==>
      i in all && forall w | w in s.group.waiting && s.calls[w.task].clear && i in s.calls[w.task].want ::
        var call := s.calls[w.task]; if call.all then !(call.want <= all) else call.want * all == {}
  {
    var all := s.group.bits + b;
    forall w | w in s.group.waiting
      ensures w.Clears(all) <==> s.calls[w.task].clear && Met(all, s.calls[w.task].want, s.calls[w.task].all)
      ensures w.Want() == s.calls[w.task].want
    {
      Parts(s.calls[w.task]);
    }
    assert i in Cleared(s.group.waiting, all) <==>
           exists w :: w in s.group.waiting && w.Clears(all) && i in w.Want();
  }

  /** What one wait does: with its condition met it goes straight on, and takes its bits
      if asked to; else it blocks, if it may, and changes nothing else. */
  lemma WaitTakesOrBlocks(s: System, t: nat, call: Call, mayBlock: bool)
    requires s.Inv() && s.Enabled(WaitBits(t, call, mayBlock))
    ensures var n := s.Next(WaitBits(t, call, mayBlock));
      var met := if call.all then call.want <= s.group.bits else call.want * s.group.bits != {};
      if met then
        && n.calls == s.calls && n.group.waiting == s.group.waiting
        && n.group.bits == if call.clear then s.group.bits - call.want else s.group.bits
      else if mayBlock then
        t in Tasks(n.group.waiting) && n.calls == s.calls[t := call] && n.group.bits == s.group.bits
      else
        n == s
  {
    AppendTask(s.group.waiting, Waiter(t, call.Item()));
  }

  /** A task whose time is up leaves the list, and nothing says that bits woke it. */
  lemma TimesOut(s: System, t: nat)
    requires s.Inv() && s.Enabled(Expire(t))
    ensures var n := s.Next(Expire(t));
      && Tasks(n.group.waiting) == Tasks(s.group.waiting) - {t} && n.calls == s.calls
      && t in n.group.items && UNBLOCKED !in n.group.items[t] && n.group.bits == s.group.bits
  {
    var k := Position(s.group.waiting, t);
    RemoveTask(s.group.waiting, k);
    assert s.group.waiting[k] in s.group.waiting;
    Parts(s.calls[t]);
  }

  /** A task that goes on is in no call any more. Only one that timed out takes bits, and
      only if its condition is met after all and it clears on exit. */
  lemma GoesOn(s: System, t: nat)
    requires s.Inv() && s.Enabled(Finish(t))
    ensures var n, call := s.Next(Finish(t)), s.calls[t];
      var met := if call.all then call.want <= s.group.bits else call.want * s.group.bits != {};
      && n.calls == s.calls - {t} && n.group.items == s.group.items - {t} && n.group.waiting == s.group.waiting
      && n.group.bits == if UNBLOCKED !in s.group.items[t] && met && call.clear then s.group.bits - call.want
                         else s.group.bits
  {
  }

  /** A run goes step by step: what its last step does, if that can be done. */
  lemma {:induction false} RunLast(s: System, ops: seq<Op>, op: Op)
    ensures var m := s.Run(ops); s.Run(ops + [op]) == if m.Enabled(op) then m.Next(op) else m
    decreases |ops|
  {
    if ops == [] {
      assert [op][1..] == [];
    } else {
      assert (ops + [op])[1..] == ops[1..] + [op];
      RunLast(if s.Enabled(ops[0]) then s.Next(ops[0]) else s, ops[1..], op);
    }
  }

  /** A task off the list keeps its item until it goes on with its call. */
  lemma {:induction false} ItemSurvives(s: System, ops: seq<Op>, t: nat)
    requires s.Inv() && t in s.group.items && Finish(t) !in ops
    ensures t in s.Run(ops).group.items && s.Run(ops).group.items[t] == s.group.items[t]
    ensures t in s.Run(ops).calls && s.Run(ops).calls[t] == s.calls[t]
    decreases |ops|
  {
    if ops == [] {
    } else {
      assert ops[0] != Finish(t);
      if s.Enabled(ops[0]) {
        ItemStays(s, ops[0], t);
        StepKeeps(s, ops[0]);
        ItemSurvives(s.Next(ops[0]), ops[1..], t);
      } else {
        ItemSurvives(s, ops[1..], t);
      }
    }
  }

  lemma ItemStays(s: System, op: Op, t: nat)
    requires s.Inv() && t in s.group.items && s.Enabled(op) && op != Finish(t)
    ensures t in s.Next(op).group.items && s.Next(op).group.items[t] == s.group.items[t]
    ensures t in s.Next(op).calls && s.Next(op).calls[t] == s.calls[t]
  {
    assert forall w | w in s.group.waiting :: w.task != t;
    match op
    case SetBits(b) => SetLeavesItem(s, b, t);
    case Sync(_, b, _, _) => SetLeavesItem(s, b, t);
    case _ =>
  }

  lemma SetLeavesItem(s: System, b: Bits, t: nat)
    requires s.Inv() && t in s.group.items
    ensures t in s.group.Set(b).items && s.group.Set(b).items[t] == s.group.items[t]
  {
    assert forall w | w in s.group.waiting :: w.task != t;
  }

  /** A task that set bits woke returns bits that meet its condition, whatever has
      happened since; one that timed out returns the current bits. */
  lemma AnswerMeets(s: System, ops: seq<Op>, t: nat)
    requires s.Inv() && t in s.group.items && Finish(t) !in ops
    ensures t in s.Run(ops).group.items
    ensures var g, call := s.Run(ops).group, s.calls[t]; UNBLOCKED in s.group.items[t] ==>
      Met(g.Answer(t), call.want, call.all) && g.Finish(t, call).bits == g.bits
    ensures var g, call := s.Run(ops).group, s.calls[t]; UNBLOCKED !in s.group.items[t] ==>
      && g.Answer(t) == g.bits
      && (call.clear && Met(g.bits, call.want, call.all) ==> g.Finish(t, call).bits == g.bits - call.want)
  {
    ItemSurvives(s, ops, t);
    Parts(s.calls[t]);
  }
}
