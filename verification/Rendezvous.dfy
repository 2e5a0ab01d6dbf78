/** xEventGroupSync as a meeting point that tasks use again and again. */
module Rendezvous {
  import opened EventGroups
  import opened EventRuns

  /** The bits each party sets: some, and none shared with another party. */
  predicate Parties(ps: seq<Bits>) {
    && (forall i | 0 <= i < |ps| :: Plain(ps[i]) && ps[i] != {})
    && forall i, j, x | 0 <= i < |ps| && 0 <= j < |ps| && x in ps[i] && x in ps[j] :: i == j
  }

  /** All the parties' bits, which is what each of them waits for. */
  function Mask(ps: seq<Bits>): Bits {
    set i, x | 0 <= i < |ps| && x in ps[i] :: x
  }

  /** The event group, and how many rounds each party has entered and left. */
  datatype Meeting = Meeting(system: System, entered: seq<nat>, left: seq<nat>)

  /** A party only syncs, with its own bits, for the full mask and without a timeout.
      Other tasks may do anything that keeps off the mask. */
  predicate Allowed(ps: seq<Bits>, op: Op) {
    match op
    case SetBits(b) => b !! Mask(ps)
    case ClearBits(b) => b !! Mask(ps)
    case WaitBits(t, call, _) => t >= |ps| && call.want !! Mask(ps)
    case Sync(t, b, want, mayBlock) =>
      if t < |ps| then b == ps[t] && want == Mask(ps) && mayBlock
      else b !! Mask(ps) && want !! Mask(ps)
    case Expire(t) => t >= |ps|
    case Finish(_) => true
  }

  predicate Can(ps: seq<Bits>, m: Meeting, op: Op) {
    m.system.Enabled(op) && Allowed(ps, op)
  }

  function Next(ps: seq<Bits>, m: Meeting, op: Op): (n: Meeting)
    requires Can(ps, m, op) && |m.entered| == |m.left| == |ps|
    ensures |n.entered| == |n.left| == |ps|
  {
    var s := m.system.Next(op);
    match op
    case Sync(t, _, _, _) =>
      if t >= |ps| then m.(system := s)
      else Meeting(s, m.entered[t := m.entered[t] + 1],
                   if t in s.calls then m.left else m.left[t := m.left[t] + 1])
    case Finish(t) =>
      if t >= |ps| then m.(system := s) else Meeting(s, m.entered, m.left[t := m.left[t] + 1])
    case _ => m.(system := s)
  }

  /** Party i has entered the round that is gathering and waits in it. */
  predicate Waits(m: Meeting, i: nat) {
    i in Tasks(m.system.group.waiting)
  }

  /** Round k is the last one that is complete. A party waits in the next round, or
      was woken from round k, or is in no call; the bits set are those of the waiting. */
  predicate Gathering(ps: seq<Bits>, m: Meeting, k: nat) {
    && m.system.Inv() && |m.entered| == |m.left| == |ps|
    && (forall i | 0 <= i < |ps| :: PartyAt(ps, m, i, k))
    && OthersOffMask(ps, m.system) && BitsOfWaiting(ps, m.system)
  }

  predicate OthersOffMask(ps: seq<Bits>, s: System) {
    forall t | t in s.calls && t >= |ps| :: s.calls[t].want !! Mask(ps)
  }

  predicate BitsOfWaiting(ps: seq<Bits>, s: System) {
    forall i, x | 0 <= i < |ps| && x in ps[i] :: x in s.group.bits <==> i in Tasks(s.group.waiting)
  }

  predicate PartyAt(ps: seq<Bits>, m: Meeting, i: nat, k: nat)
    requires |m.entered| == |m.left| == |ps| && i < |ps|
  {
    var s := m.system;
    if Waits(m, i) then
      m.entered[i] == k + 1 && m.left[i] == k && i in s.calls && s.calls[i] == Call(Mask(ps), true, true)
    else if i in s.calls then
      && m.entered[i] == k && m.left[i] == k - 1
      && i in s.group.items && WokenBy(s.group.items[i], Call(Mask(ps), true, true))
    else
      m.entered[i] == m.left[i] == k
  }

  /** Nothing about the parties is different, and other tasks keep off the mask. */
  predicate Undisturbed(ps: seq<Bits>, s: System, s': System) {
    && (forall i | 0 <= i < |ps| :: SameFor(s, s', i))
    && (forall x | x in Mask(ps) :: x in s.group.bits <==> x in s'.group.bits)
    && OthersOffMask(ps, s')
  }

  predicate SameFor(s: System, s': System, i: nat) {
    && (i in Tasks(s.group.waiting) <==> i in Tasks(s'.group.waiting))
    && (i in s.calls <==> i in s'.calls) && (i in s.calls ==> s.calls[i] == s'.calls[i])
    && (i in s.group.items <==> i in s'.group.items)
    && (i in s.group.items ==> s.group.items[i] == s'.group.items[i])
  }

  lemma StillGathering(ps: seq<Bits>, m: Meeting, k: nat, s: System)
    requires Gathering(ps, m, k) && s.Inv() && Undisturbed(ps, m.system, s)
    ensures Gathering(ps, m.(system := s), k)
  {
    forall i | 0 <= i < |ps|
      ensures PartyAt(ps, m.(system := s), i, k)
      ensures forall x | x in ps[i] :: x in s.group.bits <==> i in Tasks(s.group.waiting)
    {
      assert PartyAt(ps, m, i, k) && SameFor(m.system, s, i);
      assert forall x | x in ps[i] :: x in Mask(ps);
    }
  }

  /** Bits off the mask wake no party, and what they wake takes no bit of the mask. */
  lemma OthersSet(ps: seq<Bits>, m: Meeting, k: nat, b: Bits)
    requires Gathering(ps, m, k) && Plain(b) && b !! Mask(ps)
    ensures Undisturbed(ps, m.system, m.system.Next(SetBits(b)))
  {
    var s := m.system;
    var all := s.group.bits + b;
    var g := s.group.Set(b);
    forall w | w in s.group.waiting
      ensures w.task < |ps| ==> !w.Holds(all)
      ensures w.Clears(all) ==> w.Want() !! Mask(ps)
    {
      Parts(s.calls[w.task]);
      if w.task < |ps| {
        assert PartyAt(ps, m, w.task, k);
        assert w.Want() == Mask(ps);
        var x :| x in Mask(ps) && x !in s.group.bits;
      }
    }
    forall i | 0 <= i < |ps|
      ensures SameFor(s, s.Next(SetBits(b)), i)
    {
    }
  }

  lemma Transitive(ps: seq<Bits>, s: System, t: System, u: System)
    requires Undisturbed(ps, s, t) && Undisturbed(ps, t, u)
    ensures Undisturbed(ps, s, u)
  {
    forall i | 0 <= i < |ps|
      ensures SameFor(s, u, i)
    {
      assert SameFor(s, t, i) && SameFor(t, u, i);
    }
  }

  lemma OthersSync(ps: seq<Bits>, m: Meeting, k: nat, op: Op)
    requires Gathering(ps, m, k) && Can(ps, m, op) && op.Sync? && op.task >= |ps|
    ensures Undisturbed(ps, m.system, m.system.Next(op))
  {
    var s := m.system;
    var after := s.Next(SetBits(op.toSet));
    OthersSet(ps, m, k, op.toSet);
    SetKeeps(s, op.toSet);
    OthersBlock(ps, after, op.task, Call(op.want, true, true));
    Transitive(ps, s, after, s.Next(op));
  }

  lemma OthersExpire(ps: seq<Bits>, m: Meeting, k: nat, t: nat)
    requires Gathering(ps, m, k) && Can(ps, m, Expire(t))
    ensures Undisturbed(ps, m.system, m.system.Next(Expire(t)))
  {
    var ws, j := m.system.group.waiting, Position(m.system.group.waiting, t);
    RemoveTask(ws, j);
    var s := m.system.(group := m.system.group.Expire(j));
    assert Tasks(s.group.waiting) == Tasks(ws) - {t} && s.group.items.Keys == m.system.group.items.Keys + {t};
    forall i | 0 <= i < |ps|
      ensures SameFor(m.system, s, i)
    {
    }
  }

  lemma OthersClear(ps: seq<Bits>, m: Meeting, k: nat, b: Bits)
    requires Gathering(ps, m, k) && Can(ps, m, ClearBits(b))
    ensures Undisturbed(ps, m.system, m.system.Next(ClearBits(b)))
  {
  }

  lemma OthersWait(ps: seq<Bits>, m: Meeting, k: nat, op: Op)
    requires Gathering(ps, m, k) && Can(ps, m, op) && op.WaitBits?
    ensures Undisturbed(ps, m.system, m.system.Next(op))
  {
    OthersBlock(ps, m.system, op.task, op.call);
  }

  lemma OthersFinish(ps: seq<Bits>, m: Meeting, k: nat, t: nat)
    requires Gathering(ps, m, k) && Can(ps, m, Finish(t)) && t >= |ps|
    ensures Undisturbed(ps, m.system, m.system.Next(Finish(t)))
  {
    var s, n, call := m.system, m.system.Next(Finish(t)), m.system.calls[t];
    assert call.want !! Mask(ps) && n.calls == s.calls - {t} && n.group.items == s.group.items - {t};
    assert n.group.bits == s.group.bits || n.group.bits == s.group.bits - call.want;
    forall i | 0 <= i < |ps|
      ensures SameFor(s, n, i)
    {
    }
  }

  /** Every step of another task, and of the tick interrupt. */
  lemma OthersStep(ps: seq<Bits>, m: Meeting, k: nat, op: Op)
    requires Gathering(ps, m, k) && Can(ps, m, op)
    requires (op.Sync? || op.Finish?) ==> op.task >= |ps|
    ensures Undisturbed(ps, m.system, m.system.Next(op))
  {
    match op
    case SetBits(b) => OthersSet(ps, m, k, b);
    case ClearBits(b) => OthersClear(ps, m, k, b);
    case WaitBits(_, _, _) => OthersWait(ps, m, k, op);
    case Sync(_, _, _, _) => OthersSync(ps, m, k, op);
    case Expire(t) => OthersExpire(ps, m, k, t);
    case Finish(t) => OthersFinish(ps, m, k, t);
  }

  lemma OthersBlock(ps: seq<Bits>, s: System, t: nat, call: Call)
    requires s.Inv() && t !in s.calls && t >= |ps| && call.want !! Mask(ps)
    requires forall u | u in s.calls && u >= |ps| :: s.calls[u].want !! Mask(ps)
    ensures Undisturbed(ps, s, System(s.group.Block(t, call), s.calls[t := call]))
    ensures Undisturbed(ps, s, s.(group := s.group.Drop(call)))
  {
    AppendTask(s.group.waiting, Waiter(t, call.Item()));
  }

  /** A party goes on after it was woken: it leaves round k. */
  lemma PartyLeaves(ps: seq<Bits>, m: Meeting, k: nat, i: nat)
    requires Gathering(ps, m, k) && Can(ps, m, Finish(i)) && i < |ps|
    ensures Gathering(ps, Next(ps, m, Finish(i)), k)
  {
    assert PartyAt(ps, m, i, k) && i !in Tasks(m.system.group.waiting);
    StepKeeps(m.system, Finish(i));
    var n := Next(ps, m, Finish(i));
    assert n.system == System(m.system.group.(items := m.system.group.items - {i}), m.system.calls - {i});
    forall j | 0 <= j < |ps|
      ensures PartyAt(ps, n, j, k)
    {
      assert PartyAt(ps, m, j, k);
    }
  }

  /** The bits are complete with a party's own exactly when all the others wait. */
  lemma LastToCome(ps: seq<Bits>, m: Meeting, k: nat, i: nat)
    requires Parties(ps) && Gathering(ps, m, k) && i < |ps|
    ensures Mask(ps) <= m.system.group.bits + ps[i] <==> forall j | 0 <= j < |ps| && j != i :: Waits(m, j)
  {
    if Mask(ps) <= m.system.group.bits + ps[i] {
      forall j | 0 <= j < |ps| && j != i
        ensures Waits(m, j)
      {
        var x :| x in ps[j];
        assert x in Mask(ps) && x !in ps[i];
      }
    }
    if forall j | 0 <= j < |ps| && j != i :: Waits(m, j) {
      forall x | x in Mask(ps)
        ensures x in m.system.group.bits + ps[i]
      {
        var j :| 0 <= j < |ps| && x in ps[j];
        assert j != i ==> Waits(m, j);
      }
    }
  }

  /** What a waiting task makes of the bits that party i completes or not. */
  lemma WokenByParty(ps: seq<Bits>, m: Meeting, k: nat, i: nat, w: Waiter)
    requires Gathering(ps, m, k) && i < |ps| && w in m.system.group.waiting
    ensures var all := m.system.group.bits + ps[i];
      && (w.Holds(all) <==> w.task < |ps| && Mask(ps) <= all)
      && (w.Holds(all) ==> w.Want() == Mask(ps))
  {
    Parts(m.system.calls[w.task]);
    if w.task < |ps| {
      assert PartyAt(ps, m, w.task, k);
    } else {
      assert forall x | x in ps[i] :: x in Mask(ps);
    }
  }

  lemma NoneHolds(ws: seq<Waiter>, b: Bits)
    requires forall w | w in ws :: !w.Holds(b)
    ensures Staying(ws, b) == ws && Woken(ws, b) == {} && Cleared(ws, b) == {}
  {
    if ws != [] {
      var front, last := ws[..|ws| - 1], ws[|ws| - 1];
      assert ws == front + [last];
      NoneHolds(front, b);
    }
  }

  function Entering(ps: seq<Bits>, i: nat): Op
    requires i < |ps|
  {
    Sync(i, ps[i], Mask(ps), true)
  }

  lemma WakesNone(ps: seq<Bits>, m: Meeting, k: nat, i: nat)
    requires Gathering(ps, m, k) && i < |ps| && !(Mask(ps) <= m.system.group.bits + ps[i])
    ensures var g := m.system.group; g.Set(ps[i]) == g.(bits := g.bits + ps[i])
  {
    forall w | w in m.system.group.waiting
      ensures !w.Holds(m.system.group.bits + ps[i])
    {
      WokenByParty(ps, m, k, i, w);
    }
    SetWithoutWaking(m.system.group, ps[i]);
  }

  lemma SetWithoutWaking(g: Group, b: Bits)
    requires forall w | w in g.waiting :: !w.Holds(g.bits + b)
    ensures g.Set(b) == g.(bits := g.bits + b)
  {
    NoneHolds(g.waiting, g.bits + b);
    assert g.items + Snapshots({}, g.bits + b) == g.items;
  }

  /** A party that is not the last to come waits in the round that gathers. */
  lemma PartyWaits(ps: seq<Bits>, m: Meeting, k: nat, i: nat)
    requires Parties(ps) && Gathering(ps, m, k) && i < |ps| && m.system.Enabled(Entering(ps, i))
    requires !(Mask(ps) <= m.system.group.bits + ps[i])
    ensures var n := Next(ps, m, Entering(ps, i)); Gathering(ps, n, k) && Waits(n, i)
  {
    var g, call := m.system.group, Call(Mask(ps), true, true);
    WakesNone(ps, m, k, i);
    StepKeeps(m.system, Entering(ps, i));
    AppendTask(g.waiting, Waiter(i, call.Item()));
    var n := Next(ps, m, Entering(ps, i));
    assert n.system == System(g.(bits := g.bits + ps[i]).Block(i, call), m.system.calls[i := call]);
    assert Tasks(n.system.group.waiting) == Tasks(g.waiting) + {i};
    forall j | 0 <= j < |ps|
      ensures PartyAt(ps, n, j, k)
    {
      assert PartyAt(ps, m, j, k);
    }
    assert OthersOffMask(ps, n.system) && BitsOfWaiting(ps, n.system);
  }

  /** The event group once the last party has come. */
  function Completed(ps: seq<Bits>, g: Group, i: nat): Group
    requires i < |ps|
  {
    g.Set(ps[i]).Drop(Call(Mask(ps), true, true))
  }

  lemma CompletedWakes(ps: seq<Bits>, m: Meeting, k: nat, i: nat)
    requires Gathering(ps, m, k) && i < |ps| && Mask(ps) <= m.system.group.bits + ps[i]
    ensures var g, h := m.system.group, Completed(ps, m.system.group, i);
      && h.bits !! Mask(ps) && (forall t | t in Tasks(h.waiting) :: t >= |ps|)
      && (forall t | t in h.items :: t in g.items || t in Tasks(g.waiting))
      && (forall t | t in Tasks(g.waiting) && t < |ps| :: t in h.items && h.items[t] == Snapshot(g.bits + ps[i]))
  {
    var g, all := m.system.group, m.system.group.bits + ps[i];
    forall w | w in g.waiting
      ensures w.Holds(all) <==> w.task < |ps|
    {
      WokenByParty(ps, m, k, i, w);
    }
    assert forall t | t in Tasks(g.waiting) && t < |ps| :: t in Woken(g.waiting, all);
  }

  lemma CompletedMeeting(ps: seq<Bits>, m: Meeting, i: nat)
    requires |m.entered| == |m.left| == |ps| && i < |ps| && m.system.Enabled(Entering(ps, i))
    requires Can(ps, m, Entering(ps, i)) && Mask(ps) <= m.system.group.bits + ps[i]
    ensures Next(ps, m, Entering(ps, i)) == Meeting(System(Completed(ps, m.system.group, i), m.system.calls),
                                                    m.entered[i := m.entered[i] + 1], m.left[i := m.left[i] + 1])
  {
  }

  /** A party that came last, or waited and now has a snapshot that met its condition. */
  lemma PartyGoesOn(ps: seq<Bits>, m: Meeting, n: Meeting, k: nat, i: nat, j: nat, all: Bits)
    requires |m.entered| == |m.left| == |n.entered| == |n.left| == |ps| && i < |ps| && j < |ps|
    requires PartyAt(ps, m, j, k) && n.system.calls == m.system.calls && i !in m.system.calls
    requires n.entered == m.entered[i := m.entered[i] + 1] && n.left == m.left[i := m.left[i] + 1]
    requires Plain(all) && Mask(ps) <= all && !Waits(n, j)
    requires j == i || (Waits(m, j) && j in n.system.group.items && n.system.group.items[j] == Snapshot(all))
    ensures PartyAt(ps, n, j, k + 1)
  {
    SnapshotParts(all);
  }

  /** The last party to come ends the round: it goes straight on, everyone who waited
      is woken in that one step, and no bit of the mask is left. */
  lemma PartyCompletes(ps: seq<Bits>, m: Meeting, k: nat, i: nat)
    requires Parties(ps) && Gathering(ps, m, k) && i < |ps| && m.system.Enabled(Entering(ps, i))
    requires Mask(ps) <= m.system.group.bits + ps[i]
    ensures var n := Next(ps, m, Entering(ps, i));
      && Gathering(ps, n, k + 1) && i !in n.system.calls
      && n.system.group.bits !! Mask(ps)
      && forall j | 0 <= j < |ps| && j != i :: Waits(m, j) && j in n.system.group.items
  {
    var n := Next(ps, m, Entering(ps, i));
    LastToCome(ps, m, k, i);
    StepKeeps(m.system, Entering(ps, i));
    CompletedWakes(ps, m, k, i);
    CompletedMeeting(ps, m, i);
    forall j | 0 <= j < |ps|
      ensures !Waits(n, j) && var there := PartyAt(ps, n, j, k + 1); there
      ensures j != i ==> j in n.system.group.items
    {
      assert var there := PartyAt(ps, m, j, k); there;
      PartyGoesOn(ps, m, n, k, i, j, m.system.group.bits + ps[i]);
    }
    assert forall j, x | 0 <= j < |ps| && x in ps[j] :: x in Mask(ps);
  }

  /** A run from the empty event group; what a task cannot or may not do is skipped. */
  function Run(ps: seq<Bits>, ops: seq<Op>): (m: Meeting)
    ensures |m.entered| == |m.left| == |ps|
  {
    if ops == [] then Meeting(START, seq(|ps|, i => 0), seq(|ps|, i => 0))
    else
      var m := Run(ps, ops[..|ops| - 1]);
      if Can(ps, m, ops[|ops| - 1]) then Next(ps, m, ops[|ops| - 1]) else m
  }

  lemma StepGathers(ps: seq<Bits>, m: Meeting, k: nat, op: Op) returns (n: nat)
    requires Parties(ps) && Gathering(ps, m, k) && Can(ps, m, op)
    ensures Gathering(ps, Next(ps, m, op), n)
  {
    n := k;
    if op.Sync? && op.task < |ps| {
      if Mask(ps) <= m.system.group.bits + op.toSet {
        PartyCompletes(ps, m, k, op.task);
        n := k + 1;
      } else {
        PartyWaits(ps, m, k, op.task);
      }
    } else if op.Finish? && op.task < |ps| {
      PartyLeaves(ps, m, k, op.task);
    } else {
      OthersStep(ps, m, k, op);
      StepKeeps(m.system, op);
      StillGathering(ps, m, k, m.system.Next(op));
    }
  }

  lemma {:induction false} RunGathers(ps: seq<Bits>, ops: seq<Op>) returns (k: nat)
    requires Parties(ps)
    ensures Gathering(ps, Run(ps, ops), k)
  {
    if ops == [] {
      k := 0;
    } else {
      var op := ops[|ops| - 1];
      k := RunGathers(ps, ops[..|ops| - 1]);
      if Can(ps, Run(ps, ops[..|ops| - 1]), op) {
        k := StepGathers(ps, Run(ps, ops[..|ops| - 1]), k, op);
      }
    }
  }

  /** How many of the operations let the party come to the meeting. */
  function Arrivals(ps: seq<Bits>, ops: seq<Op>, i: nat): nat {
    if ops == [] then 0
    else
      var before, op := ops[..|ops| - 1], ops[|ops| - 1];
      Arrivals(ps, before, i) + if op.Sync? && op.task == i && Can(ps, Run(ps, before), op) then 1 else 0
  }

  /** Each of them enters a round. */
  lemma {:induction false} ArrivalsEnter(ps: seq<Bits>, ops: seq<Op>, i: nat)
    requires i < |ps|
    ensures Run(ps, ops).entered[i] == Arrivals(ps, ops, i)
  {
    if ops == [] {
    } else {
      ArrivalsEnter(ps, ops[..|ops| - 1], i);
    }
  }

  /** Whatever the order of steps, no party leaves a round that another party has
      not entered, and none gets further ahead than the round after. */
  lemma NoneLeavesEarly(ps: seq<Bits>, ops: seq<Op>, i: nat, j: nat)
    requires Parties(ps) && i < |ps| && j < |ps|
    ensures var m := Run(ps, ops); m.left[i] <= m.entered[j] && m.entered[i] <= m.entered[j] + 1
  {
    var k := RunGathers(ps, ops);
    assert PartyAt(ps, Run(ps, ops), i, k) && PartyAt(ps, Run(ps, ops), j, k);
  }

  /** The parties never all wait: the last one to come would not have. */
  lemma SomeoneIsOut(ps: seq<Bits>, m: Meeting, k: nat, i: nat)
    requires Parties(ps) && Gathering(ps, m, k) && i < |ps| && Waits(m, i)
    ensures exists j | 0 <= j < |ps| :: !Waits(m, j)
  {
    var bits := m.system.group.bits;
    var w :| w in m.system.group.waiting && w.task == i;
    Parts(m.system.calls[i]);
    assert !w.Holds(bits) && PartyAt(ps, m, i, k);
    assert !(Mask(ps) <= bits) && bits + ps[i] == bits;
    LastToCome(ps, m, k, i);
  }

  lemma SameRound(ps: seq<Bits>, m: Meeting, k: nat, i: nat, j: nat)
    requires Gathering(ps, m, k) && i < |ps| && j < |ps| && m.entered[i] == m.entered[j]
    ensures Waits(m, i) <==> Waits(m, j)
  {
    assert PartyAt(ps, m, i, k) && PartyAt(ps, m, j, k);
  }

  lemma NoneWaits(ps: seq<Bits>, m: Meeting, k: nat, i: nat)
    requires Parties(ps) && Gathering(ps, m, k) && i < |ps|
    requires forall j | 0 <= j < |ps| :: m.entered[i] == m.entered[j]
    ensures !Waits(m, i)
  {
    if Waits(m, i) {
      SomeoneIsOut(ps, m, k, i);
      var j :| 0 <= j < |ps| && !Waits(m, j);
      SameRound(ps, m, k, i, j);
    }
  }

  predicate SameRounds(m: Meeting) {
    forall i, j | 0 <= i < |m.entered| && 0 <= j < |m.entered| :: m.entered[i] == m.entered[j]
  }

  lemma SameRoundsClear(ps: seq<Bits>, m: Meeting, k: nat)
    requires Parties(ps) && Gathering(ps, m, k) && SameRounds(m)
    ensures m.system.group.bits !! Mask(ps)
  {
    forall x | x in Mask(ps)
      ensures x !in m.system.group.bits
    {
      var i :| 0 <= i < |ps| && x in ps[i];
      NoneWaits(ps, m, k, i);
    }
  }

  /** While all parties have entered the same number of rounds, no bit of the mask is
      set: the next round begins on a clear mask. */
  lemma RoundsStartClear(ps: seq<Bits>, ops: seq<Op>)
    requires Parties(ps) && SameRounds(Run(ps, ops))
    ensures Run(ps, ops).system.group.bits !! Mask(ps)
  {
    var k := RunGathers(ps, ops);
    SameRoundsClear(ps, Run(ps, ops), k);
  }

  /** A party that comes goes straight on exactly when all the others are waiting, and
      then they are all released in that one step; otherwise it waits. */
  lemma LastReleasesAll(ps: seq<Bits>, ops: seq<Op>, i: nat)
    requires Parties(ps) && i < |ps| && Run(ps, ops).system.Enabled(Entering(ps, i))
    ensures var m, n := Run(ps, ops), Next(ps, Run(ps, ops), Entering(ps, i));
      if forall j | 0 <= j < |ps| && j != i :: Waits(m, j)
      then i !in n.system.calls && n.system.group.bits !! Mask(ps)
        && forall j | 0 <= j < |ps| && j != i :: !Waits(n, j) && j in n.system.group.items
      else Waits(n, i) && n.left == m.left
  {
    var k := RunGathers(ps, ops);
    var m := Run(ps, ops);
    LastToCome(ps, m, k, i);
    if Mask(ps) <= m.system.group.bits + ps[i] {
      PartyCompletes(ps, m, k, i);
    } else {
      PartyWaits(ps, m, k, i);
    }
  }
}
