/** timers.c: the software timer daemon, with its current and overflow lists. */
module TimerDaemon {
  import opened Sequences
  import opened TickTime

  /** The k-th expiry after a start. */
  function Expiry(start: int, period: int, k: nat): int {
    if k == 0 then start else Expiry(start, period, k - 1) + period
  }

  lemma {:induction false} NoDrift(start: int, period: int, k: nat)
    ensures Expiry(start, period, k) == start + k * period
  {
    if k == 0 {
    } else {
      NoDrift(start, period, k - 1);
    }
  }

  lemma TimesOrdered(a: int, b: int, d: nat)
    requires a <= b
    ensures a * d <= b * d
  {
  }

  /** The multiples of d tell quotients apart. */
  lemma Within(p: int, q: int, d: nat, a: int)
    requires p * d <= a < (q + 1) * d
    ensures p <= q
  {
    if q < p {
      TimesOrdered(q + 1, p, d);
    }
  }

  /** One run for every expiry up to `now`, none before its expiry. */
  lemma AllRan(start: int, period: int, runs: seq<int>, due: int, now: int)
    requires 0 < period && start <= now < due == Expiry(start, period, |runs| + 1)
    requires forall k | 0 <= k < |runs| :: Expiry(start, period, k + 1) <= runs[k] <= now
    ensures |runs| == (now - start) / period && due == start + (|runs| + 1) * period
    ensures forall k | 0 <= k < |runs| :: start + (k + 1) * period <= runs[k] <= now
  {
    NoDrift(start, period, |runs| + 1);
    forall k | 0 <= k < |runs|
      ensures start + (k + 1) * period <= runs[k] <= now
    {
      NoDrift(start, period, k + 1);
    }
    if runs != [] {
      var last := |runs| - 1;
      assert start + (last + 1) * period <= runs[last];
    }
    var q := (now - start) / period;
    Within(|runs|, q, period, now - start);
    Within(q, |runs|, period, now - start);
  }

  /** What a timer is like at one moment. */
  datatype Record = Record(start: int, period: int, reloads: bool, active: bool, runs: seq<int>) {
    /** What a timer that was started is like from then on: one that reloads is active and
        listed, and one that does not is so until it has run once. */
    predicate Running(listed: bool) {
      active == listed && if reloads then listed else |runs| == if listed then 0 else 1
    }

    /** What can become of a timer that no command names, which was on a list or not: one
        that reloads stays listed, one that does not may have run once and left, and one
        that was not listed is as it was. */
    predicate GoesOn(was: bool, r: Record, now: bool) {
      && r.start == start && r.period == period && r.reloads == reloads && runs <= r.runs
      && if was && now then reloads || (r.runs == runs && r.active == active)
         else if was then !reloads && !r.active && |r.runs| == |runs| + 1
         else !now && r.runs == runs && r.active == active
    }
  }

  /** Timer_t without its list item. The ghost fields follow it in unbounded time:
      when it was last started and when each of its callbacks since ran. */
  class Timer {
    var period: int
    var autoReload: bool
    var active: bool
    ghost var start: int
    ghost var runs: seq<int>

    constructor (period: int, autoReload: bool)
      requires 0 < period < WRAP
      ensures this.period == period && this.autoReload == autoReload && !active && runs == []
    {
      this.period, this.autoReload, active, runs := period, autoReload, false, [];
    }

    /** The callbacks so far answer to the first expiries since the start, one each;
        none ran before its expiry or after `bound`; `pending` more expiries have
        passed whose callback is still to come, and the next one is `due`. */
    ghost predicate Accounted(due: int, bound: int, pending: nat)
      reads this
    {
      start <= bound && due == Expiry(start, period, |runs| + 1 + pending) && NotEarly(bound)
    }

    /** No callback since the start ran before its expiry, or after `bound`. */
    ghost predicate NotEarly(bound: int)
      reads this
    {
      forall k | 0 <= k < |runs| :: Expiry(start, period, k + 1) <= runs[k] <= bound
    }

    /** A callback for every period since the start, each at or after its own expiry. */
    ghost predicate FiredBy(now: int)
      reads this
    {
      && 0 < period && start <= now && |runs| == (now - start) / period
      && forall k | 0 <= k < |runs| :: start + (k + 1) * period <= runs[k] <= now
    }

    /** A one-shot timer has run if its time has come, once and not before, and is then
        not active. */
    ghost predicate FiredOnce(now: int)
      reads this
    {
      if start + period <= now then |runs| == 1 && start + period <= runs[0] <= now && !active else runs == [] && active
    }

    /** What can become of a timer that no command names. */
    twostate predicate Fate(was: bool, now: bool)
      reads this
    {
      old(Now()).GoesOn(was, Now(), now)
    }

    ghost function Now(): Record
      reads this
    {
      Record(start, period, autoReload, active, runs)
    }

    /** The timer was not started again, and what ran stays on record. */
    twostate predicate Kept()
      reads this
    {
      start == old(start) && period == old(period) && autoReload == old(autoReload) && old(runs) <= runs
    }

    /** A callback runs for the earliest expiry that has had none. */
    ghost method Callback(due: int, now: int)
      requires Accounted(due, now, 1) && due - period <= now
      modifies `runs
      ensures Accounted(due, now, 0) && runs == old(runs) + [now]
    {
      assert due == Expiry(start, period, |runs| + 1) + period;
      runs := runs + [now];
    }
  }

  /** A timer's list item while it is on a list: the tick value it is sorted by, and
      the unbounded time that value stands for. */
  datatype Item = Item(timer: Timer, value: int, ghost due: int)

  function Values(items: seq<Item>): (vals: seq<int>)
    ensures |vals| == |items| && forall i | 0 <= i < |items| :: vals[i] == items[i].value
  {
    seq(|items|, i requires 0 <= i < |items| => items[i].value)
  }

  ghost function In(items: seq<Item>): set<Item> {
    set x | x in items
  }

  ghost predicate Off(t: Timer, xs: set<Item>) {
    forall x | x in xs :: x.timer != t
  }

  /** A list of timers due in one epoch, each once, in order. */
  ghost predicate ListOf(items: seq<Item>, epoch: int) {
    && OncePerTimer(items) && (var sorted := Sorted(Values(items)); sorted)
    && forall x | x in items :: x.value == Ticks(x.due) && Epoch(x.due) == epoch
  }

  ghost predicate OncePerTimer(items: seq<Item>) {
    forall i, j | 0 <= i < j < |items| :: items[i].timer != items[j].timer
  }

  lemma LeastFirst(items: seq<Item>, epoch: int)
    requires ListOf(items, epoch)
    ensures forall x | x in items :: items[0].value <= x.value
  {
    forall x | x in items
      ensures items[0].value <= x.value
    {
      var i :| 0 <= i < |items| && items[i] == x;
      assert Values(items)[0] <= Values(items)[i];
    }
  }

  lemma InsertOnce(items: seq<Item>, k: nat, x: Item)
    requires OncePerTimer(items) && Off(x.timer, In(items)) && k <= |items|
    ensures OncePerTimer(InsertAt(items, k, x))
  {
    assert forall i | 0 <= i < |items| :: items[i] in In(items);
  }

  lemma InInsert(items: seq<Item>, k: nat, x: Item)
    requires k <= |items|
    ensures In(InsertAt(items, k, x)) == In(items) + {x}
  {
    InsertMembers(items, k, x);
  }

  lemma ValuesInsert(items: seq<Item>, k: nat, x: Item)
    requires k <= |items|
    ensures Values(InsertAt(items, k, x)) == InsertAt(Values(items), k, x.value)
  {
  }

  lemma ValuesRemove(items: seq<Item>, k: nat)
    requires k < |items|
    ensures Values(RemoveAt(items, k)) == RemoveAt(Values(items), k)
  {
  }

  lemma InsertInList(items: seq<Item>, x: Item, epoch: int)
    requires ListOf(items, epoch) && Off(x.timer, In(items)) && x.value == Ticks(x.due) && Epoch(x.due) == epoch
    ensures ListOf(InsertAt(items, FirstAbove(Values(items), x.value), x), epoch)
  {
    var k := FirstAbove(Values(items), x.value);
    InsertInOrder(Values(items), x.value);
    ValuesInsert(items, k, x);
    InsertOnce(items, k, x);
    InsertMembers(items, k, x);
  }

  lemma RemoveOnce(items: seq<Item>, k: nat)
    requires OncePerTimer(items) && k < |items|
    ensures OncePerTimer(RemoveAt(items, k)) && Off(items[k].timer, In(RemoveAt(items, k)))
  {
    var us := RemoveAt(items, k);
    assert forall i | 0 <= i < |us| :: us[i] == items[if i < k then i else i + 1];
  }

  lemma InRemove(items: seq<Item>, k: nat)
    requires OncePerTimer(items) && k < |items|
    ensures In(RemoveAt(items, k)) == In(items) - {items[k]}
  {
    var us := RemoveAt(items, k);
    forall i | 0 <= i < |items| && i != k
      ensures items[i] in us
    {
      assert items[i] == us[if i < k then i else i - 1];
    }
  }

  lemma RemoveFromList(items: seq<Item>, k: nat, epoch: int)
    requires ListOf(items, epoch) && k < |items|
    ensures ListOf(RemoveAt(items, k), epoch)
    ensures In(RemoveAt(items, k)) == In(items) - {items[k]} && Off(items[k].timer, In(RemoveAt(items, k)))
  {
    RemoveOnce(items, k);
    InRemove(items, k);
    RemoveInOrder(Values(items), k);
    ValuesRemove(items, k);
    assert forall x | x in RemoveAt(items, k) :: x in In(RemoveAt(items, k));
  }

  /** The current and the overflow list in the epoch e: ordered, holding only this
      epoch's and only the next epoch's expiries, and no timer twice. */
  ghost predicate Lists(current: seq<Item>, overflow: seq<Item>, e: int) {
    var now, next := ListOf(current, e), ListOf(overflow, e + 1);
    now && next && forall x, y | x in current && y in overflow :: x.timer != y.timer
  }

  lemma PutInCurrent(current: seq<Item>, overflow: seq<Item>, x: Item, e: int)
    requires Lists(current, overflow, e) && Off(x.timer, In(current) + In(overflow))
    requires x.value == Ticks(x.due) && Epoch(x.due) == e
    ensures var us := InsertAt(current, FirstAbove(Values(current), x.value), x);
      Lists(us, overflow, e) && In(us) == In(current) + {x}
  {
    assert forall y | y in In(current) :: y in In(current) + In(overflow);
    InsertInList(current, x, e);
    InInsert(current, FirstAbove(Values(current), x.value), x);
    InsertMembers(current, FirstAbove(Values(current), x.value), x);
    assert forall y | y in overflow :: y in In(current) + In(overflow);
  }

  lemma PutInOverflow(current: seq<Item>, overflow: seq<Item>, x: Item, e: int)
    requires Lists(current, overflow, e) && Off(x.timer, In(current) + In(overflow))
    requires x.value == Ticks(x.due) && Epoch(x.due) == e + 1
    ensures var us := InsertAt(overflow, FirstAbove(Values(overflow), x.value), x);
      Lists(current, us, e) && In(us) == In(overflow) + {x}
  {
    assert forall y | y in In(overflow) :: y in In(current) + In(overflow);
    InsertInList(overflow, x, e + 1);
    InInsert(overflow, FirstAbove(Values(overflow), x.value), x);
    InsertMembers(overflow, FirstAbove(Values(overflow), x.value), x);
    assert forall y | y in current :: y in In(current) + In(overflow);
  }

  lemma TakeHead(current: seq<Item>, overflow: seq<Item>, e: int)
    requires Lists(current, overflow, e) && current != []
    ensures Lists(current[1..], overflow, e) && current[0].value == Ticks(current[0].due) && Epoch(current[0].due) == e
    ensures Off(current[0].timer, In(current[1..]) + In(overflow))
    ensures In(current[1..]) + In(overflow) == In(current) + In(overflow) - {current[0]}
  {
    RemoveFromList(current, 0, e);
    assert RemoveAt(current, 0) == current[1..];
    assert current[0] in current;
  }

  ghost function Timers(xs: set<Item>): set<Timer> {
    set x | x in xs :: x.timer
  }

  /** What has become of the timers that were listed. */
  twostate predicate Carried(ts: set<Timer>, new xs: set<Item>)
    reads ts
  {
    forall t | t in ts :: t.Fate(true, t in Timers(xs))
  }

  /** No callback on record ran before its expiry. */
  ghost predicate NoneEarly(ts: set<Timer>, bound: int)
    reads ts
  {
    forall t | t in ts :: t.NotEarly(bound)
  }

  /** What has become of timers of which some were listed and some are now. */
  twostate predicate Followed(ts: set<Timer>, was: set<Timer>, new now: set<Timer>)
    reads ts
  {
    forall t | t in ts :: t.Fate(t in was, t in now)
  }

  /** Periods fit the counter, and no callback came early. */
  ghost predicate Fit(ts: set<Timer>, bound: int)
    reads ts
  {
    var periods, punctual := forall t | t in ts :: 0 < t.period < WRAP, NoneEarly(ts, bound);
    periods && punctual
  }

  lemma OffTimers(t: Timer, xs: set<Item>)
    ensures Off(t, xs) <==> t !in Timers(xs)
  {
  }

  lemma TimersPlus(xs: set<Item>, x: Item)
    ensures Timers(xs + {x}) == Timers(xs) + {x.timer}
  {
    assert x in xs + {x} && forall y | y in xs :: y in xs + {x};
  }

  lemma Replaced(xs: set<Item>, x: Item, y: Item, ys: set<Item>)
    requires x in xs && y.timer == x.timer
    requires ys == xs - {x} + {y} || ys == xs - {x}
    ensures Timers(ys) <= Timers(xs) && Timers(xs) - {x.timer} <= Timers(ys)
    ensures ys == xs - {x} + {y} ==> Timers(ys) == Timers(xs)
  {
    if ys == xs - {x} + {y} {
      assert y in ys;
    }
    forall z | z in xs && z.timer != x.timer
      ensures z.timer in Timers(ys)
    {
      assert z in ys;
    }
  }

  ghost function Due(xs: set<Item>, now: int): set<Item> {
    set x | x in xs && x.due <= now
  }

  lemma FewerDue(xs: set<Item>, x: Item, y: Item, ys: set<Item>, now: int)
    requires x in xs && x.due <= now
    requires ys == xs - {x} || (y.due > now && ys == xs - {x} + {y})
    ensures Due(ys, now) < Due(xs, now)
  {
    assert x in Due(xs, now) && x !in Due(ys, now);
  }

  /** Every listed timer is active and its callbacks are accounted for. */
  ghost predicate Booked(xs: set<Item>, bound: int)
    reads set x | x in xs :: x.timer
  {
    forall x | x in xs :: Entered(x, bound)
  }

  ghost predicate Entered(x: Item, bound: int)
    reads x.timer
  {
    var t := x.timer;
    t.active && 0 < t.period < WRAP && t.Accounted(x.due, bound, 0) && (t.autoReload || t.runs == [])
  }

  lemma BookedNoneEarly(xs: set<Item>, bound: int)
    requires Booked(xs, bound)
    ensures NoneEarly(Timers(xs), bound)
  {
  }

  lemma BookedLater(xs: set<Item>, bound: int, later: int)
    requires Booked(xs, bound) && bound <= later
    ensures Booked(xs, later)
  {
  }

  lemma BookedPlus(xs: set<Item>, x: Item, bound: int)
    requires Booked(xs, bound) && Entered(x, bound)
    ensures Booked(xs + {x}, bound)
  {
  }

  /** The head's tick value tells whether it is due. */
  lemma HeadDue(current: seq<Item>, overflow: seq<Item>, now: int)
    requires Lists(current, overflow, Epoch(now)) && current != []
    ensures current[0] in In(current) + In(overflow)
    ensures current[0].value <= Ticks(now) <==> current[0].due <= now
  {
    TakeHead(current, overflow, Epoch(now));
    SameEpoch(current[0].due, now);
  }

  /** With an empty current list or a head that is not due, nothing is due before
      the head's expiry, or before the tick count wraps. */
  lemma NothingDue(current: seq<Item>, overflow: seq<Item>, now: int)
    requires Lists(current, overflow, Epoch(now))
    requires current == [] || current[0].value > Ticks(now)
    ensures var next := if current == [] then 0 else current[0].value;
      var sleep := (next - Ticks(now)) % WRAP;
      forall x | x in In(current) + In(overflow) :: x.due > now && now + sleep <= x.due
  {
    Split(now);
    var next := if current == [] then 0 else current[0].value;
    var sleep := (next - Ticks(now)) % WRAP;
    forall x | x in In(current) + In(overflow)
      ensures x.due > now && now + sleep <= x.due
    {
      Split(x.due);
      if x in current {
        LeastFirst(current, Epoch(now));
        assert current[0] in current;
        SameEpoch(current[0].due, now);
        SameEpoch(current[0].due, x.due);
        WithinAWrap(now, current[0].due);
      } else if current != [] {
        assert current[0] in current;
        Split(current[0].due);
        SameEpoch(current[0].due, now);
        WithinAWrap(now, current[0].due);
      }
    }
  }

  lemma WakesAt(now: int, next: int)
    requires 0 <= next < WRAP
    ensures Ticks(now + (next - Ticks(now)) % WRAP) == next
  {
  }

  /** Where the timer is in the list, or the list's length. */
  function WhereIs(items: seq<Item>, t: Timer): (k: nat)
    ensures k <= |items| && (k < |items| ==> items[k].timer == t)
    ensures k == |items| ==> Off(t, In(items))
  {
    if items == [] || items[0].timer == t then 0 else
      var k := 1 + WhereIs(items[1..], t);
      assert k == |items| ==> forall x | x in items :: x == items[0] || x in In(items[1..]);
      k
  }

  lemma TakeAt(current: seq<Item>, overflow: seq<Item>, k: nat, e: int)
    requires Lists(current, overflow, e) && k < |current|
    ensures Lists(RemoveAt(current, k), overflow, e)
    ensures Off(current[k].timer, In(RemoveAt(current, k)) + In(overflow))
    ensures In(RemoveAt(current, k)) + In(overflow) == In(current) + In(overflow) - {current[k]}
  {
    RemoveFromList(current, k, e);
    assert current[k] in current;
    assert forall x | x in RemoveAt(current, k) :: x in In(current);
  }

  lemma TakeFromOverflow(current: seq<Item>, overflow: seq<Item>, k: nat, e: int)
    requires Lists(current, overflow, e) && k < |overflow|
    ensures Lists(current, RemoveAt(overflow, k), e)
    ensures Off(overflow[k].timer, In(current) + In(RemoveAt(overflow, k)))
    ensures In(current) + In(RemoveAt(overflow, k)) == In(current) + In(overflow) - {overflow[k]}
  {
    RemoveFromList(overflow, k, e + 1);
    assert overflow[k] in overflow;
    assert forall x | x in RemoveAt(overflow, k) :: x in In(overflow);
  }

  /** What the command queue carries. A start or reset carries the time it was sent. */
  datatype Command =
    | Start(timer: Timer, at: int)
    | Stop(timer: Timer)
    | ChangePeriod(timer: Timer, period: int)
    | Delete(timer: Timer)
    | PendedCall
  {
    ghost function Named(): set<Timer> {
      if PendedCall? then {} else {timer}
    }

    /** What the senders and the tick interrupt owe the daemon: a command is less
        than one wrap old when it is processed, and periods fit the counter. */
    ghost predicate Timely(now: int)
      reads Named()
    {
      && (Start? ==> at <= now < at + WRAP && 0 < timer.period < WRAP)
      && (ChangePeriod? ==> 0 < period < WRAP)
    }
  }

  /** A message and the unbounded time sampled when it is processed. */
  datatype Message = Message(command: Command, now: int) {
    ghost predicate Spares(t: Timer) {
      command.PendedCall? || command.timer != t
    }

    ghost predicate KeepsPeriod(t: Timer) {
      command.ChangePeriod? ==> command.timer != t
    }

    /** What the message leaves of its timer until another one names it. */
    ghost predicate Stands(r: map<Timer, Record>, listed: set<Timer>)
      requires command.Named() <= r.Keys
    {
      match command
      case Start(t, at) => r[t].start == at && r[t].Running(t in listed)
      case ChangePeriod(t, p) => r[t].start == now && r[t].period == p && r[t].Running(t in listed)
      case Stop(t) => !r[t].active && t !in listed
      case Delete(t) => !r[t].active && t !in listed
      case PendedCall => true
    }
  }

  /** One turn of the daemon's loop: the time sampled first, then what the command
      queue holds. */
  datatype Turn = Turn(now: int, messages: seq<Message>)

  ghost function Named(ms: seq<Message>): set<Timer> {
    set m, t | m in ms && t in m.command.Named() :: t
  }

  /** All messages of the turns, in order. */
  ghost function Sent(turns: seq<Turn>): (ms: seq<Message>)
    ensures turns != [] ==> ms == Sent(turns[..|turns| - 1]) + turns[|turns| - 1].messages
  {
    if turns == [] then [] else Sent(turns[..|turns| - 1]) + turns[|turns| - 1].messages
  }

  /** The time of the last sample after the messages. */
  ghost function ClockAfter(clock: int, ms: seq<Message>): int
    decreases |ms|
  {
    if ms == [] then clock
    else ClockAfter(if ms[0].command.PendedCall? then clock else ms[0].now, ms[1..])
  }

  /** Time goes on by less than one wrap between samples, start commands are less
      than one wrap old, and new periods fit the counter. */
  ghost predicate InTime(clock: int, ms: seq<Message>)
    decreases |ms|
  {
    ms != [] ==>
      && (!ms[0].command.PendedCall? ==> clock <= ms[0].now < clock + WRAP)
      && (ms[0].command.Start? ==> ms[0].command.at <= ms[0].now < ms[0].command.at + WRAP)
      && (ms[0].command.ChangePeriod? ==> 0 < ms[0].command.period < WRAP)
      && InTime(if ms[0].command.PendedCall? then clock else ms[0].now, ms[1..])
  }

  lemma NamedBy(ms: seq<Message>, i: nat)
    requires i < |ms|
    ensures ms[i].command.Named() <= Named(ms)
  {
    assert ms[i] in ms && forall t | t in ms[i].command.Named() :: t in Named(ms);
  }

  lemma NamedJoin(ms: seq<Message>, ns: seq<Message>)
    ensures Named(ms + ns) == Named(ms) + Named(ns)
  {
  }

  ghost function Records(ts: set<Timer>): (r: map<Timer, Record>)
    reads ts
    ensures r.Keys == ts
  {
    map t | t in ts :: t.Now()
  }

  ghost predicate GoOn(ts: set<Timer>, r: map<Timer, Record>, was: set<Timer>,
                       r': map<Timer, Record>, now: set<Timer>)
  {
    forall t | t in ts :: t in r && t in r' && r[t].GoesOn(t in was, r'[t], t in now) && (t in now ==> r'[t].active)
  }

  /** The message is the last one to name its timer. */
  ghost predicate LastTo(ms: seq<Message>, j: nat)
    requires j < |ms|
  {
    !ms[j].command.PendedCall? && forall k | j < k < |ms| :: ms[k].Spares(ms[j].command.timer)
  }

  ghost predicate Standing(ms: seq<Message>, r: map<Timer, Record>, listed: set<Timer>) {
    forall j | 0 <= j < |ms| && LastTo(ms, j) :: ms[j].command.timer in r && ms[j].Stands(r, listed)
  }

  /** Only a change of period changes a timer's period, and the last one does. */
  ghost predicate PeriodsSet(ms: seq<Message>, ts: set<Timer>, r: map<Timer, Record>, r': map<Timer, Record>)
    requires ts <= r.Keys && ts <= r'.Keys && Named(ms) <= ts
  {
    && (forall t | t in ts && forall m | m in ms :: m.KeepsPeriod(t) :: r'[t].period == r[t].period)
    && forall j | 0 <= j < |ms| && LastChange(ms, j) :: PeriodSet(ms[j], r')
  }

  ghost predicate LastChange(ms: seq<Message>, j: nat)
    requires j < |ms|
  {
    ms[j].command.ChangePeriod? && forall k | j < k < |ms| :: ms[k].KeepsPeriod(ms[j].command.timer)
  }

  ghost predicate PeriodSet(m: Message, r: map<Timer, Record>)
    requires m.command.ChangePeriod?
  {
    m.command.timer in r && r[m.command.timer].period == m.command.period
  }

  /** What the messages ms and the time between have made of the timers ts. */
  ghost predicate Went(ms: seq<Message>, ts: set<Timer>, r: map<Timer, Record>, was: set<Timer>,
                       r': map<Timer, Record>, now: set<Timer>)
    requires ts <= r.Keys && ts <= r'.Keys && Named(ms) <= ts
  {
    var spared, standing := GoOn(ts - Named(ms), r, was, r', now), Standing(ms, r', now);
    var periods, kinds := PeriodsSet(ms, ts, r, r'), forall t | t in ts :: r'[t].reloads == r[t].reloads;
    spared && standing && periods && kinds
  }

  lemma StandsOn(m: Message, r: map<Timer, Record>, was: set<Timer>, r': map<Timer, Record>, now: set<Timer>)
    requires !m.command.PendedCall? && m.command.timer in r && m.command.timer in r' && m.Stands(r, was)
    requires var t := m.command.timer; r[t].GoesOn(t in was, r'[t], t in now) && (t in now ==> r'[t].active)
    ensures m.Stands(r', now)
  {
  }

  lemma SparedByAll(ms: seq<Message>, t: Timer)
    requires forall k | 0 <= k < |ms| :: ms[k].Spares(t)
    ensures t !in Named(ms)
  {
  }

  lemma StandingOn(ms: seq<Message>, ns: seq<Message>, ts: set<Timer>, r: map<Timer, Record>, was: set<Timer>,
                   r': map<Timer, Record>, now: set<Timer>)
    requires Named(ms) <= ts && Standing(ms, r, was) && Standing(ns, r', now) && GoOn(ts - Named(ns), r, was, r', now)
    ensures Standing(ms + ns, r', now)
  {
    var all := ms + ns;
    forall j | 0 <= j < |all| && LastTo(all, j)
      ensures all[j].command.timer in r' && all[j].Stands(r', now)
    {
      if j < |ms| {
        var t := ms[j].command.timer;
        assert forall k | 0 <= k < |ns| :: ns[k] == all[|ms| + k];
        assert forall k | j < k < |ms| :: ms[k] == all[k];
        SparedByAll(ns, t);
        NamedBy(ms, j);
        assert LastTo(ms, j) && t in ms[j].command.Named();
        StandsOn(ms[j], r, was, r', now);
      } else {
        var i := j - |ms|;
        assert forall k | i < k < |ns| :: ns[k] == all[|ms| + k];
        assert LastTo(ns, i);
      }
    }
  }

  lemma PeriodsOn(ms: seq<Message>, ns: seq<Message>, ts: set<Timer>,
                  r0: map<Timer, Record>, r1: map<Timer, Record>, r2: map<Timer, Record>)
    requires ts <= r0.Keys && ts <= r1.Keys && ts <= r2.Keys && Named(ms) + Named(ns) <= ts && Named(ms + ns) <= ts
    requires PeriodsSet(ms, ts, r0, r1) && PeriodsSet(ns, ts, r1, r2)
    ensures PeriodsSet(ms + ns, ts, r0, r2)
  {
    var all := ms + ns;
    forall j | 0 <= j < |all| && LastChange(all, j)
      ensures PeriodSet(all[j], r2)
    {
      if j < |ms| {
        var t := ms[j].command.timer;
        assert forall k | 0 <= k < |ns| :: ns[k] == all[|ms| + k];
        assert forall k | j < k < |ms| :: ms[k] == all[k];
        NamedBy(ms, j);
        assert LastChange(ms, j) && t in ms[j].command.Named() && forall n | n in ns :: n.KeepsPeriod(t);
        assert PeriodSet(ms[j], r1);
      } else {
        var i := j - |ms|;
        assert forall k | i < k < |ns| :: ns[k] == all[|ms| + k];
        assert LastChange(ns, i);
      }
    }
    forall t | t in ts && forall m | m in all :: m.KeepsPeriod(t)
      ensures r2[t].period == r0[t].period
    {
      assert forall m | m in ms :: m in all;
      assert forall n | n in ns :: n in all;
    }
  }

  lemma NamedOne(m: Message)
    ensures Named([m]) == m.command.Named()
  {
    assert m in [m] && forall n | n in [m] :: n == m;
  }

  /** One message, when own is the record of the timer it names. */
  lemma OneWent(m: Message, ts: set<Timer>, r: map<Timer, Record>, was: set<Timer>,
                r': map<Timer, Record>, now: set<Timer>, own: map<Timer, Record>)
    requires ts == r.Keys == r'.Keys && Named([m]) <= ts && own.Keys == m.command.Named() <= ts
    requires var spared, stands := GoOn(ts - Named([m]), r, was, r', now), m.Stands(own, now); spared && stands
    requires !m.command.PendedCall? ==> var t := m.command.timer;
      own[t] == r'[t] && r'[t].reloads == r[t].reloads && (m.KeepsPeriod(t) ==> r'[t].period == r[t].period)
    ensures Went([m], ts, r, was, r', now)
  {
    NamedOne(m);
    assert LastChange([m], 0) ==> PeriodSet(m, r');
    assert m in [m];
    forall t | t in ts
      ensures r'[t].reloads == r[t].reloads && (m.KeepsPeriod(t) ==> r'[t].period == r[t].period)
    {
      assert t !in m.command.Named() ==> r[t].GoesOn(t in was, r'[t], t in now);
    }
  }

  /** First ms and then ns. */
  lemma WentOn(ms: seq<Message>, ns: seq<Message>, ts: set<Timer>, r0: map<Timer, Record>, was: set<Timer>,
               r1: map<Timer, Record>, mid: set<Timer>, r2: map<Timer, Record>, now: set<Timer>)
    requires ts <= r0.Keys && ts <= r1.Keys && ts <= r2.Keys && Named(ms) + Named(ns) <= ts
    requires Went(ms, ts, r0, was, r1, mid) && Went(ns, ts, r1, mid, r2, now)
    ensures Named(ms + ns) <= ts && Went(ms + ns, ts, r0, was, r2, now)
  {
    NamedJoin(ms, ns);
    StandingOn(ms, ns, ts, r1, mid, r2, now);
    PeriodsOn(ms, ns, ts, r0, r1, r2);
    forall t | t in ts - Named(ms + ns)
      ensures r0[t].GoesOn(t in was, r2[t], t in now)
    {
      assert t in ts - Named(ms) && t in ts - Named(ns);
    }
  }

  lemma WentNext(ms: seq<Message>, i: nat, ts: set<Timer>, r0: map<Timer, Record>, was: set<Timer>,
                 r1: map<Timer, Record>, mid: set<Timer>, r2: map<Timer, Record>, now: set<Timer>)
    requires i < |ms| && ts == r0.Keys == r1.Keys == r2.Keys && Named(ms[..i]) + Named([ms[i]]) <= ts
    requires Went(ms[..i], ts, r0, was, r1, mid) && Went([ms[i]], ts, r1, mid, r2, now)
    ensures Named(ms[..i + 1]) <= ts && var went := Went(ms[..i + 1], ts, r0, was, r2, now); went
  {
    assert ms[..i + 1] == ms[..i] + [ms[i]];
    WentOn(ms[..i], [ms[i]], ts, r0, was, r1, mid, r2, now);
  }

  /** In terms of the timers: the last message to name a timer stands, only the last
      change of period sets it, and a timer reloads as it always did. */
  lemma WentMeans(ms: seq<Message>, ts: set<Timer>, r: map<Timer, Record>, was: set<Timer>, listed: set<Timer>)
    requires Named(ms) <= ts == r.Keys && Went(ms, ts, r, was, Records(ts), listed)
    ensures forall j | 0 <= j < |ms| && !ms[j].command.PendedCall?
          && (forall k | j < k < |ms| :: ms[k].command.PendedCall? || ms[k].command.timer != ms[j].command.timer) ::
        match ms[j].command
        case Start(t, at) =>
          && t.start == at && (t.active <==> t in listed)
          && if t.autoReload then t.active else |t.runs| == if t.active then 0 else 1
        case ChangePeriod(t, p) =>
          && t.start == ms[j].now && t.period == p && (t.active <==> t in listed)
          && if t.autoReload then t.active else |t.runs| == if t.active then 0 else 1
        case Stop(t) => !t.active && t !in listed
        case Delete(t) => !t.active && t !in listed
        case PendedCall => true
    ensures forall t | t in ts && (forall m | m in ms && m.command.ChangePeriod? :: m.command.timer != t) ::
      t.period == r[t].period
    ensures forall j | 0 <= j < |ms| && ms[j].command.ChangePeriod?
              && (forall k | j < k < |ms| && ms[k].command.ChangePeriod? ::
                  ms[k].command.timer != ms[j].command.timer) ::
        ms[j].command.timer.period == ms[j].command.period
    ensures forall t | t in ts :: t.autoReload == r[t].reloads
  {
    var r' := Records(ts);
    forall j | 0 <= j < |ms|
      ensures ms[j].command.Named() <= ts
    {
      NamedBy(ms, j);
    }
  }

  /** If no message came, all timers went on. */
  lemma WentQuietly(ts: set<Timer>, r: map<Timer, Record>, was: set<Timer>, r': map<Timer, Record>, now: set<Timer>)
    requires ts <= r.Keys && ts <= r'.Keys && GoOn(ts, r, was, r', now)
    ensures Named([]) == {} && Went([], ts, r, was, r', now)
  {
  }

  /** The messages come in time, and the last sample is at `end`. */
  ghost predicate Ahead(clock: int, ms: seq<Message>, end: int) {
    var inTime, ends := InTime(clock, ms), ClockAfter(clock, ms) == end;
    inTime && ends
  }

  lemma NextAhead(clock: int, ms: seq<Message>, i: nat, end: int)
    requires i < |ms| && Ahead(clock, ms[i..], end)
    ensures InTime(clock, [ms[i]]) && ms[i].command.Named() <= Named(ms)
    ensures Ahead(if ms[i].command.PendedCall? then clock else ms[i].now, ms[i + 1..], end)
  {
    assert ms[i..][1..] == ms[i + 1..];
    NamedBy(ms, i);
  }

  lemma SentNext(turns: seq<Turn>, i: nat)
    requires i < |turns|
    ensures Sent(turns[..i + 1]) == Sent(turns[..i]) + turns[i].messages
    ensures Named(Sent(turns[..i + 1])) == Named(Sent(turns[..i])) + Named(turns[i].messages)
  {
    assert turns[..i + 1][..i] == turns[..i];
    NamedJoin(Sent(turns[..i]), turns[i].messages);
  }

  lemma {:induction false} SentWithin(turns: seq<Turn>, i: nat, n: nat)
    requires i <= n <= |turns|
    ensures Named(Sent(turns[..i])) <= Named(Sent(turns[..n]))
  {
    if i == n {
    } else {
      SentWithin(turns, i, n - 1);
      SentNext(turns, n - 1);
    }
  }

  ghost function ClockAfterTurns(clock: int, turns: seq<Turn>): int
    decreases |turns|
  {
    if turns == [] then clock
    else ClockAfterTurns(ClockAfter(turns[0].now, turns[0].messages), turns[1..])
  }

  ghost predicate TurnsInTime(clock: int, turns: seq<Turn>)
    decreases |turns|
  {
    turns != [] ==>
      && clock <= turns[0].now < clock + WRAP && InTime(turns[0].now, turns[0].messages)
      && TurnsInTime(ClockAfter(turns[0].now, turns[0].messages), turns[1..])
  }

  class Daemon {
    var current: seq<Item>
    var overflow: seq<Item>
    var lastTime: int
    /** The unbounded time of the last sample. */
    ghost var clock: int

    ghost function Listing(): set<Item>
      reads this
    {
      In(current) + In(overflow)
    }

    ghost predicate Listed(e: int)
      reads this
    {
      Lists(current, overflow, e)
    }

    ghost predicate Valid()
      reads this, Timers(Listing())
    {
      var listed, booked := Listed(Epoch(clock)), Booked(Listing(), clock);
      lastTime == Ticks(clock) && listed && booked
    }

    /** No listed timer is due. */
    ghost predicate CaughtUp()
      reads this
    {
      forall x | x in Listing() :: x.due > clock
    }

    /** Nothing is due before the daemon has slept for `sleep` ticks, or ever. */
    ghost predicate Asleep(sleep: int, forever: bool)
      reads this
    {
      CaughtUp() && if forever then Listing() == {} else forall x | x in Listing() :: clock + sleep <= x.due
    }

    ghost function Overdue(): set<Item>
      reads this
    {
      Due(Listing(), clock)
    }

    constructor ()
      ensures Valid() && Listing() == {} && clock == 0
    {
      current, overflow, lastTime, clock := [], [], 0, 0;
    }

    /** prvInsertTimerInActiveList */
    method InsertTimer(t: Timer, next: int, timeNow: int, command: int, ghost at: int, ghost now: int)
      returns (processNow: bool, ghost x: Item)
      requires Listed(Epoch(now)) && Off(t, Listing())
      requires at <= now < at + WRAP && 0 < t.period < WRAP
      requires next == Ticks(at + t.period) && timeNow == Ticks(now) && command == Ticks(at)
      modifies `current, `overflow
      ensures Listed(Epoch(now)) && (processNow <==> at + t.period <= now)
      ensures processNow || Epoch(at + t.period) != Epoch(now) ==> current == old(current)
      ensures processNow || Epoch(at + t.period) == Epoch(now) ==> overflow == old(overflow)
      ensures x.timer == t && x.due == at + t.period
      ensures Listing() == if processNow then old(Listing()) else old(Listing()) + {x}
    {
      DecideIsRight(at, now, t.period);
      processNow := false;
      var item := Item(t, next, at + t.period);
      x := item;
      if next <= timeNow {
        if (timeNow - command) % WRAP >= t.period {
          processNow := true;
        } else {
          PutInOverflow(current, overflow, x, Epoch(now));
          overflow := InsertAt(overflow, FirstAbove(Values(overflow), next), item);
        }
      } else {
        if timeNow < command && next >= command {
          processNow := true;
        } else {
          PutInCurrent(current, overflow, x, Epoch(now));
          current := InsertAt(current, FirstAbove(Values(current), next), item);
        }
      }
    }

    /** prvReloadTimer, for the expiry at the unbounded time `at` whose own callback
        is still to come; `when` is the time the callbacks run. */
    method Reload(t: Timer, expiredTime: int, timeNow: int, ghost at: int, ghost now: int, ghost when: int)
      returns (ghost x: Item)
      requires Listed(Epoch(now)) && Off(t, Listing())
      requires at <= now < at + WRAP && now <= when && 0 < t.period < WRAP
      requires expiredTime == Ticks(at) && timeNow == Ticks(now) && t.Accounted(at, when, 0)
      modifies `current, `overflow, t`runs
      ensures Listed(Epoch(now)) && t.Accounted(x.due, when, 1) && old(t.runs) <= t.runs
      ensures x.timer == t && now < x.due <= now + t.period
      ensures Epoch(x.due) != Epoch(now) ==> current == old(current)
      ensures Listing() == old(Listing()) + {x}
    {
      var expired := expiredTime;
      ghost var a := at;
      while true
        invariant a <= now < a + WRAP && expired == Ticks(a)
        invariant t.Accounted(a, when, 0) && old(t.runs) <= t.runs
        invariant current == old(current) && overflow == old(overflow)
        decreases now - a
      {
        TicksAdd(a, t.period);
        assert t.Accounted(a + t.period, when, 1);
        var processNow;
        processNow, x := InsertTimer(t, (expired + t.period) % WRAP, timeNow, expired, a, now);
        if !processNow {
          return;
        }
        expired := (expired + t.period) % WRAP;
        a := a + t.period;
        t.Callback(a, when);
      }
    }

    /** What both prvProcessExpiredTimer and a start that comes too late do with a
        timer on no list whose expiry `at` has come: reload it or retire it, then
        run its callback. The ghost result is its new item. */
    method Expire(t: Timer, expiredTime: int, timeNow: int, ghost at: int, ghost now: int, ghost when: int)
      returns (ghost x: Item)
      requires Listed(Epoch(now)) && Off(t, Listing()) && t.active
      requires at <= now < at + WRAP && now <= when && 0 < t.period < WRAP
      requires expiredTime == Ticks(at) && timeNow == Ticks(now) && t.Accounted(at, when, 0)
      modifies `current, `overflow, t`active, t`runs
      ensures Listed(Epoch(now)) && x.timer == t && t.active == t.autoReload
      ensures old(t.runs) <= t.runs && |t.runs| > |old(t.runs)|
      ensures t.autoReload ==> t.Accounted(x.due, when, 0) && x.due > now
      ensures (!t.autoReload ==> t.runs == old(t.runs) + [when]) && t.NotEarly(when)
      ensures !t.autoReload || Epoch(x.due) != Epoch(now) ==> current == old(current)
      ensures Listing() == if t.autoReload then old(Listing()) + {x} else old(Listing())
    {
      if t.autoReload {
        x := Reload(t, expiredTime, timeNow, at, now, when);
        t.Callback(x.due, when);
      } else {
        t.active := false;
        x := Item(t, 0, at + t.period);
        t.Callback(x.due, when);
      }
    }

    /** prvProcessExpiredTimer: takes the head of the current list. */
    method ProcessExpired(next: int, timeNow: int, ghost now: int, ghost when: int) returns (ghost y: Item)
      requires current != [] && next == current[0].value && timeNow == Ticks(now)
      requires Listed(Epoch(now)) && Booked(Listing(), when) && current[0].due <= now <= when
      modifies `current, `overflow, current[0].timer
      ensures Listed(Epoch(now)) && Booked(Listing(), when)
      ensures var x := old(current[0]); var t := x.timer;
        && t.Kept() && |t.runs| > |old(t.runs)| && t.active == t.autoReload && t.NotEarly(when)
        && y.timer == t && Listing() == old(Listing()) - {x} + (if t.autoReload then {y} else {})
        && (if t.autoReload then y.due > now else t.runs == [when] && old(t.runs) == [])
        && (!t.autoReload || Epoch(y.due) != Epoch(now) ==> current == old(current[1..]))
    {
      var x := current[0];
      var t := x.timer;
      ghost var rest := Listing() - {x};
      TakeHead(current, overflow, Epoch(now));
      SameEpoch(x.due, now);
      assert x in Listing();
      current := current[1..];
      y := Expire(t, next, timeNow, x.due, now, when);
      assert Booked(rest, when);
      if t.autoReload {
        BookedPlus(rest, y, when);
      }
    }

    /** One turn of the loop of prvSwitchTimerLists, as if at the end of the epoch e. */
    method ExpireHead(ghost e: int, ghost now: int)
      requires Listed(e) && Booked(Listing(), now) && Epoch(now) == e + 1 && current != []
      modifies `current, `overflow, Timers(Listing())
      ensures Listed(e) && Booked(Listing(), now) && |current| < |old(current)|
      ensures Timers(Listing()) <= old(Timers(Listing())) && Carried(old(Timers(Listing())), Listing())
      ensures NoneEarly(old(Timers(Listing())), now)
    {
      ghost var xs, x, last := Listing(), current[0], (e + 1) * WRAP - 1;
      var next := current[0].value;
      TakeHead(current, overflow, e);
      EndOfEpoch(e, x.due, now);
      assert x in xs;
      ghost var y := ProcessExpired(next, 0xFFFF_FFFF, last, now);
      Split(y.due);
      Replaced(xs, x, y, Listing());
      forall t | t in Timers(xs)
        ensures var fate, punctual := t.Fate(true, t in Timers(Listing())), t.NotEarly(now); fate && punctual
      {
        assert t != x.timer ==> unchanged(t);
      }
    }

    /** prvSwitchTimerLists, when the time `now` has passed into the next epoch. What
        is left on the current list has expired; no reload can bring it back there. */
    method SwitchLists(ghost now: int)
      requires Listed(Epoch(clock)) && Booked(Listing(), now) && Epoch(now) == Epoch(clock) + 1
      modifies `current, `overflow, Timers(Listing())
      ensures Listed(Epoch(now)) && Booked(Listing(), now)
      ensures Timers(Listing()) <= old(Timers(Listing())) && Carried(old(Timers(Listing())), Listing())
      ensures NoneEarly(old(Timers(Listing())), now)
    {
      ghost var ts, e := Timers(Listing()), Epoch(clock);
      BookedNoneEarly(Listing(), now);
      while current != []
        invariant Listed(e) && Booked(Listing(), now)
        invariant Timers(Listing()) <= ts && Carried(ts, Listing()) && NoneEarly(ts, now)
        decreases |current|
      {
        ghost var mid := Timers(Listing());
        label Before:
        ExpireHead(e, now);
        forall t | t in ts
          ensures t.Fate(true, t in Timers(Listing())) && t.NotEarly(now)
        {
          assert if t in mid then t.Fate@Before(true, t in Timers(Listing())) else unchanged@Before(t);
        }
      }
      current, overflow := overflow, current;
    }

    /** prvSampleTimeNow, at the unbounded time `now`. */
    method SampleTimeNow(now: int) returns (timeNow: int, switched: bool)
      requires Valid() && clock <= now < clock + WRAP
      modifies this, Timers(Listing())
      ensures Valid() && clock == now && timeNow == Ticks(now)
      ensures switched <==> Epoch(now) != Epoch(old(clock))
      ensures !switched ==> current == old(current) && overflow == old(overflow)
      ensures !switched ==> forall t | t in old(Timers(Listing())) :: unchanged(t)
      ensures Timers(Listing()) <= old(Timers(Listing())) && Carried(old(Timers(Listing())), Listing())
      ensures NoneEarly(old(Timers(Listing())), now)
    {
      timeNow := Ticks(now);
      WithinAWrap(clock, now);
      BookedLater(Listing(), clock, now);
      BookedNoneEarly(Listing(), now);
      switched := timeNow < lastTime;
      if switched {
        SwitchLists(now);
      }
      lastTime := timeNow;
      clock := now;
    }

    /** prvGetNextExpireTime: the least tick value on the current list. */
    method GetNextExpireTime() returns (next: int, listWasEmpty: bool)
      requires Valid()
      ensures listWasEmpty <==> current == []
      ensures next == if current == [] then 0 else current[0].value
      ensures !listWasEmpty ==> forall x | x in current :: next <= x.value
    {
      LeastFirst(current, Epoch(clock));
      listWasEmpty := current == [];
      next := if listWasEmpty then 0 else current[0].value;
    }

    /** The call of prvProcessExpiredTimer for a head that is due. */
    method ProcessHead(next: int, timeNow: int)
      requires Valid() && current != [] && next == current[0].value
      requires timeNow == Ticks(clock) && next <= timeNow
      modifies `current, `overflow, Timers(Listing())
      ensures Valid() && Timers(Listing()) <= old(Timers(Listing()))
      ensures Carried(old(Timers(Listing())), Listing()) && Overdue() < old(Overdue())
      ensures NoneEarly(old(Timers(Listing())), clock)
    {
      HeadDue(current, overflow, clock);
      BookedNoneEarly(Listing(), clock);
      ghost var xs, x := Listing(), current[0];
      ghost var y := ProcessExpired(next, timeNow, clock, clock);
      Replaced(xs, x, y, Listing());
      FewerDue(xs, x, y, Listing(), clock);
      forall t | t in Timers(xs)
        ensures var fate, punctual := t.Fate(true, t in Timers(Listing())), t.NotEarly(clock); fate && punctual
      {
        assert t != x.timer ==> unchanged(t);
      }
    }

    /** How long the daemon asks to sleep when nothing is due. */
    method SleepTime(next: int, listWasEmpty: bool, timeNow: int) returns (sleep: int, forever: bool)
      requires Valid() && timeNow == Ticks(clock)
      requires listWasEmpty <==> current == []
      requires next == if current == [] then 0 else current[0].value
      requires !listWasEmpty ==> next > timeNow
      ensures Asleep(sleep, forever)
      ensures 0 <= sleep < WRAP && Ticks(clock + sleep) == (if current == [] then 0 else current[0].value)
      ensures forever <==> current == [] && overflow == []
    {
      forever := listWasEmpty && overflow == [];
      sleep := (next - timeNow) % WRAP;
      NothingDue(current, overflow, clock);
      WakesAt(clock, next);
      if current != [] {
        TakeHead(current, overflow, Epoch(clock));
      }
    }

    /** prvProcessTimerOrBlockTask. When the daemon blocks it has nothing left to do,
        and it asks to be woken no later than any timer is due. */
    method ProcessTimerOrBlock(next: int, listWasEmpty: bool, now: int)
      returns (blocks: bool, sleep: int, forever: bool)
      requires Valid() && clock <= now < clock + WRAP
      requires listWasEmpty <==> current == []
      requires next == if current == [] then 0 else current[0].value
      modifies this, Timers(Listing())
      ensures Valid() && clock == now && Carried(old(Timers(Listing())), Listing())
      ensures Timers(Listing()) <= old(Timers(Listing())) && NoneEarly(old(Timers(Listing())), now)
      ensures blocks ==> Asleep(sleep, forever)
      ensures blocks ==> 0 <= sleep < WRAP && Ticks(now + sleep) == (if current == [] then 0 else current[0].value)
      ensures blocks ==> (forever <==> current == [] && overflow == [])
      ensures !blocks && now == old(clock) ==> Overdue() < old(Overdue())
    {
      ghost var ts := Timers(Listing());
      var timeNow, switched := SampleTimeNow(now);
      blocks, sleep, forever := false, 0, false;
      if !switched {
        if !listWasEmpty && next <= timeNow {
          label Sampled:
          ProcessHead(next, timeNow);
          forall t | t in ts
            ensures t.Fate(true, t in Timers(Listing()))
          {
            assert t.Fate@Sampled(true, t in Timers(Listing()));
          }
        } else {
          blocks := true;
          sleep, forever := SleepTime(next, listWasEmpty, timeNow);
        }
      }
    }

    /** The turns of the task's loop while the tick count stands and no command
        comes: the daemon catches up and blocks. */
    method CatchUp(now: int) returns (sleep: int, forever: bool)
      requires Valid() && clock <= now < clock + WRAP
      modifies this, Timers(Listing())
      ensures Valid() && clock == now && Carried(old(Timers(Listing())), Listing())
      ensures Asleep(sleep, forever) && NoneEarly(old(Timers(Listing())), now)
      ensures Timers(Listing()) <= old(Timers(Listing()))
    {
      ghost var ts := Timers(Listing());
      BookedNoneEarly(Listing(), clock);
      var blocks := false;
      sleep, forever := 0, false;
      while !blocks
        invariant Valid() && clock <= now < clock + WRAP
        invariant Timers(Listing()) <= ts && Carried(ts, Listing()) && NoneEarly(ts, clock)
        invariant blocks ==> clock == now && Asleep(sleep, forever)
        decreases !blocks, now - clock, Overdue()
      {
        var next, listWasEmpty := GetNextExpireTime();
        ghost var mid := Timers(Listing());
        label Before:
        blocks, sleep, forever := ProcessTimerOrBlock(next, listWasEmpty, now);
        forall t | t in ts
          ensures t.Fate(true, t in Timers(Listing())) && t.NotEarly(clock)
        {
          assert if t in mid then t.Fate@Before(true, t in Timers(Listing())) else unchanged@Before(t);
        }
      }
    }

    /** uxListRemove, for a timer that may be on either list or on none. */
    method TakeOff(t: Timer)
      requires Valid()
      modifies `current, `overflow
      ensures Valid() && Off(t, Listing()) && Listing() <= old(Listing())
      ensures Timers(old(Listing())) - {t} <= Timers(Listing())
    {
      var i, j := WhereIs(current, t), WhereIs(overflow, t);
      ghost var xs := Listing();
      if i < |current| {
        TakeAt(current, overflow, i, Epoch(clock));
        Replaced(xs, current[i], current[i], xs - {current[i]});
        current := RemoveAt(current, i);
      } else if j < |overflow| {
        TakeFromOverflow(current, overflow, j, Epoch(clock));
        Replaced(xs, overflow[j], overflow[j], xs - {overflow[j]});
        overflow := RemoveAt(overflow, j);
      }
    }

    /** What a start or reset does with the lists and the timer. */
    method Begin(t: Timer, at: int, timeNow: int) returns (ghost x: Item)
      requires Listed(Epoch(clock)) && Off(t, Listing()) && timeNow == Ticks(clock)
      requires at <= clock < at + WRAP && 0 < t.period < WRAP
      modifies `current, `overflow, t
      ensures Listed(Epoch(clock)) && t.start == at && t.period == old(t.period) && t.autoReload == old(t.autoReload)
      ensures t.active <==> t.autoReload || at + t.period > clock
      ensures x.timer == t && Listing() == if t.active then old(Listing()) + {x} else old(Listing())
      ensures t.active ==> x.due > clock && Entered(x, clock)
      ensures (!t.active ==> t.runs == [clock]) && t.NotEarly(clock)
    {
      t.active, t.start, t.runs := true, at, [];
      TicksAdd(at, t.period);
      var next := (Ticks(at) + t.period) % WRAP;
      ghost var due := at + t.period;
      assert due == Expiry(at, t.period, 1);
      var processNow;
      processNow, x := InsertTimer(t, next, timeNow, Ticks(at), at, clock);
      if processNow {
        x := Expire(t, next, timeNow, due, clock, clock);
      }
    }

    /** A start or reset sent at the unbounded time `at`, for a timer on no list. The
        ghost result is its item, if the timer is now on a list. */
    method StartTimer(t: Timer, at: int, timeNow: int) returns (ghost x: Item)
      requires Valid() && Off(t, Listing()) && timeNow == Ticks(clock)
      requires at <= clock < at + WRAP && 0 < t.period < WRAP
      modifies `current, `overflow, t
      ensures Valid() && t.start == at && t.period == old(t.period) && t.autoReload == old(t.autoReload)
      ensures t.active <==> t.autoReload || at + t.period > clock
      ensures x.timer == t && Listing() == if t.active then old(Listing()) + {x} else old(Listing())
      ensures t.active ==> x.due > clock && (!t.autoReload ==> t.runs == [])
      ensures (!t.active ==> t.runs == [clock]) && t.NotEarly(clock)
    {
      ghost var xs := Listing();
      x := Begin(t, at, timeNow);
      assert Booked(xs, clock);
      if t.active {
        BookedPlus(xs, x, clock);
      }
    }

    method BeginNow(t: Timer, period: int, timeNow: int) returns (ghost x: Item)
      requires Listed(Epoch(clock)) && Off(t, Listing()) && timeNow == Ticks(clock) && 0 < period < WRAP
      modifies `current, `overflow, t
      ensures Listed(Epoch(clock)) && t.start == clock && t.period == period && t.autoReload == old(t.autoReload)
      ensures t.active && t.runs == [] && Entered(x, clock)
      ensures x.timer == t && x.due == clock + period && Listing() == old(Listing()) + {x}
    {
      t.active, t.period, t.start, t.runs := true, period, clock, [];
      TicksAdd(clock, period);
      var next := (timeNow + t.period) % WRAP;
      assert clock + period == Expiry(clock, period, 1);
      var processNow;
      processNow, x := InsertTimer(t, next, timeNow, timeNow, clock, clock);
    }

    /** A change of period: the timer starts over from now. */
    method ChangeTimerPeriod(t: Timer, period: int, timeNow: int) returns (ghost x: Item)
      requires Valid() && Off(t, Listing()) && timeNow == Ticks(clock) && 0 < period < WRAP
      modifies `current, `overflow, t
      ensures Valid() && t.start == clock && t.period == period && t.autoReload == old(t.autoReload)
      ensures t.active && t.runs == []
      ensures x.timer == t && x.due == clock + period && Listing() == old(Listing()) + {x}
    {
      ghost var xs := Listing();
      x := BeginNow(t, period, timeNow);
      assert Booked(xs, clock);
      BookedPlus(xs, x, clock);
    }

    /** The start of every timer command: the timer comes off its list, and then
        the time is sampled. */
    method Recall(t: Timer, now: int) returns (timeNow: int)
      requires Valid() && clock <= now < clock + WRAP
      modifies this, Timers(Listing()) - {t}
      ensures Valid() && clock == now && timeNow == Ticks(now) && Off(t, Listing())
      ensures Timers(Listing()) <= old(Timers(Listing())) - {t}
      ensures Carried(old(Timers(Listing())) - {t}, Listing()) && NoneEarly(old(Timers(Listing())) - {t}, now)
    {
      TakeOff(t);
      OffTimers(t, Listing());
      var switched;
      timeNow, switched := SampleTimeNow(now);
      OffTimers(t, Listing());
    }

    /** The command itself, with the timer off its list and the time sampled. */
    method Obey(cmd: Command, timeNow: int)
      requires Valid() && !cmd.PendedCall? && cmd.Timely(clock)
      requires Off(cmd.timer, Listing()) && timeNow == Ticks(clock) && cmd.timer.NotEarly(clock)
      modifies `current, `overflow, cmd.timer
      ensures Valid() && Timers(old(Listing())) <= Timers(Listing()) <= Timers(old(Listing())) + {cmd.timer}
      ensures match cmd
        case Start(t, at) =>
          && t.start == at && (t.active <==> t.autoReload || at + t.period > clock)
          && (!t.active ==> t.runs == [clock])
        case ChangePeriod(t, p) => t.active && t.start == clock && t.period == p && t.runs == []
        case Stop(t) => !t.active
        case Delete(t) => !t.active
      ensures (cmd.timer.active <==> cmd.timer in Timers(Listing())) && cmd.timer.NotEarly(clock)
      ensures cmd.Start? || cmd.Stop? || cmd.Delete? ==> cmd.timer.period == old(cmd.timer.period)
      ensures cmd.timer.autoReload == old(cmd.timer.autoReload)
      ensures var stands := Message(cmd, clock).Stands(Records(cmd.Named()), Timers(Listing())); stands
    {
      var t := cmd.timer;
      ghost var xs := Listing();
      OffTimers(t, xs);
      match cmd
      case Start(_, at) =>
        ghost var x := StartTimer(t, at, timeNow);
        TimersPlus(xs, x);
      case ChangePeriod(_, period) =>
        ghost var x := ChangeTimerPeriod(t, period, timeNow);
        TimersPlus(xs, x);
      case Stop(_) =>
        t.active := false;
      case Delete(_) =>
        t.active := false;
    }

    /** One message of prvProcessReceivedCommands, sampled at the time `now`. */
    method ProcessCommand(cmd: Command, now: int)
      requires Valid() && (!cmd.PendedCall? ==> clock <= now < clock + WRAP) && cmd.Timely(now)
      requires NoneEarly(cmd.Named(), clock)
      modifies this, Timers(Listing()), cmd.Named()
      ensures Valid() && clock == if cmd.PendedCall? then old(clock) else now
      ensures Timers(Listing()) <= old(Timers(Listing())) + cmd.Named()
      ensures Carried(old(Timers(Listing())) - cmd.Named(), Listing())
      ensures NoneEarly(old(Timers(Listing())) + cmd.Named(), clock)
      ensures match cmd
        case Start(t, at) =>
          && t.start == at && (t.active <==> t.autoReload || at + t.period > now)
          && (!t.active ==> t.runs == [now])
        case ChangePeriod(t, p) => t.active && t.start == now && t.period == p && t.runs == []
        case Stop(t) => !t.active
        case Delete(t) => !t.active
        case PendedCall => true
      ensures !cmd.PendedCall? ==> (cmd.timer.active <==> cmd.timer in Timers(Listing()))
      ensures cmd.Start? || cmd.Stop? || cmd.Delete? ==> cmd.timer.period == old(cmd.timer.period)
      ensures !cmd.PendedCall? ==> cmd.timer.autoReload == old(cmd.timer.autoReload)
      ensures var stands := Message(cmd, now).Stands(Records(cmd.Named()), Timers(Listing())); stands
    {
      BookedNoneEarly(Listing(), clock);
      if cmd.PendedCall? {
        return;
      }
      assert cmd.timer.NotEarly(clock);
      var timeNow := Recall(cmd.timer, now);
      label Off:
      Obey(cmd, timeNow);
      forall t | t in old(Timers(Listing())) - cmd.Named()
        ensures unchanged@Off(t) && var punctual := t.NotEarly(clock); punctual
      {
        assert var punctual := old@Off(t.NotEarly(clock)); punctual;
      }
    }

    lemma ListedActive()
      requires Valid()
      ensures forall t | t in Timers(Listing()) :: t.active
    {
      assert forall x | x in Listing() :: Entered(x, clock);
    }

    /** One message of prvProcessReceivedCommands, when `all` are the timers there are. */
    method ProcessMessage(m: Message, ghost all: set<Timer>)
      requires Valid() && InTime(clock, [m]) && Timers(Listing()) + m.command.Named() <= all
      requires var fit := Fit(all, clock); fit
      modifies this, Timers(Listing()), m.command.Named()
      ensures Valid() && clock == (if m.command.PendedCall? then old(clock) else m.now) && Timers(Listing()) <= all
      ensures var fit := Fit(all, clock); fit
      ensures var followed := Followed(all - m.command.Named(), old(Timers(Listing())), Timers(Listing())); followed
      ensures var stands := m.Stands(Records(m.command.Named()), Timers(Listing())); stands
      ensures !m.command.PendedCall? ==> var t := m.command.timer;
        t.autoReload == old(t.autoReload) && (m.KeepsPeriod(t) ==> t.period == old(t.period))
    {
      assert allocated(all);
      ghost var was := Timers(Listing());
      ProcessCommand(m.command, m.now);
      forall t | t in all - m.command.Named()
        ensures t.Fate(t in was, t in Timers(Listing()))
      {
        assert t !in was ==> unchanged(t);
      }
      forall t | t in all
        ensures 0 < t.period < WRAP && t.NotEarly(clock)
      {
        assert t !in was + m.command.Named() ==> unchanged(t);
      }
    }

    /** The same, as it goes into the records. */
    method ProcessNext(m: Message, ghost all: set<Timer>)
      requires Valid() && InTime(clock, [m]) && Timers(Listing()) + Named([m]) <= all
      requires var fit := Fit(all, clock); fit
      modifies this, Timers(Listing()), m.command.Named()
      ensures Valid() && clock == (if m.command.PendedCall? then old(clock) else m.now) && Timers(Listing()) <= all
      ensures var fit := Fit(all, clock);
        var went := Went([m], all, old(Records(all)), old(Timers(Listing())), Records(all), Timers(Listing()));
        fit && went
    {
      NamedOne(m);
      ghost var r, was := Records(all), Timers(Listing());
      ProcessMessage(m, all);
      ListedActive();
      ghost var r', now := Records(all), Timers(Listing());
      forall t | t in all - Named([m])
        ensures r[t].GoesOn(t in was, r'[t], t in now)
      {
        assert t.Fate(t in was, t in now);
      }
      OneWent(m, all, r, was, r', now, Records(m.command.Named()));
    }

    /** prvProcessReceivedCommands: the last message that names a timer stands. */
    method ProcessReceivedCommands(ms: seq<Message>, ghost all: set<Timer>)
      requires Valid() && InTime(clock, ms) && Timers(Listing()) + Named(ms) <= all
      requires var fit := Fit(all, clock); fit
      modifies this, all
      ensures Valid() && clock == ClockAfter(old(clock), ms) && Timers(Listing()) <= all
      ensures var fit := Fit(all, clock);
        var went := Went(ms, all, old(Records(all)), old(Timers(Listing())), Records(all), Timers(Listing()));
        fit && went
      ensures forall j | 0 <= j < |ms| && !ms[j].command.PendedCall?
            && (forall k | j < k < |ms| :: ms[k].command.PendedCall? || ms[k].command.timer != ms[j].command.timer) ::
          match ms[j].command
          case Start(t, at) =>
            && t.start == at && (t.active <==> t in Timers(Listing()))
            && if t.autoReload then t.active else |t.runs| == if t.active then 0 else 1
          case ChangePeriod(t, p) =>
            && t.start == ms[j].now && t.period == p && (t.active <==> t in Timers(Listing()))
            && if t.autoReload then t.active else |t.runs| == if t.active then 0 else 1
          case Stop(t) => !t.active && t !in Timers(Listing())
          case Delete(t) => !t.active && t !in Timers(Listing())
          case PendedCall => true
      ensures forall t | t in all && (forall m | m in ms && m.command.ChangePeriod? :: m.command.timer != t) ::
        t.period == old(t.period)
      ensures forall j | 0 <= j < |ms| && ms[j].command.ChangePeriod?
                && (forall k | j < k < |ms| && ms[k].command.ChangePeriod? ::
                  ms[k].command.timer != ms[j].command.timer) ::
          ms[j].command.timer.period == ms[j].command.period
      ensures forall t | t in all :: t.autoReload == old(t.autoReload)
    {
      ghost var r, was := Records(all), Timers(Listing());
      ListedActive();
      WentQuietly(all, r, was, r, was);
      assert ms[..0] == [] && ms[..|ms|] == ms;
      var i := 0;
      while i < |ms|
        invariant 0 <= i <= |ms| && Ahead(clock, ms[i..], ClockAfter(old(clock), ms))
        invariant Valid() && Timers(Listing()) <= all && Named(ms[..i]) <= all
        invariant var fit, went := Fit(all, clock), Went(ms[..i], all, r, was, Records(all), Timers(Listing()));
          fit && went
      {
        NextAhead(clock, ms, i, ClockAfter(old(clock), ms));
        ghost var mid, listed := Records(all), Timers(Listing());
        NamedOne(ms[i]);
        ProcessNext(ms[i], all);
        WentNext(ms, i, all, r, was, mid, listed, Records(all), Timers(Listing()));
        i := i + 1;
      }
      WentMeans(ms, all, r, was, Timers(Listing()));
    }

    /** The part of a turn before the command queue. */
    method Wake(now: int, ghost all: set<Timer>)
      requires Valid() && clock <= now < clock + WRAP && Timers(Listing()) <= all
      requires var fit := Fit(all, clock); fit
      modifies this, all
      ensures Valid() && clock == now && Timers(Listing()) <= all
      ensures var fit := Fit(all, clock);
        var went := Went([], all, old(Records(all)), old(Timers(Listing())), Records(all), Timers(Listing()));
        fit && went
    {
      ghost var r, listed := Records(all), Timers(Listing());
      var next, listWasEmpty := GetNextExpireTime();
      var blocks, sleep, forever := ProcessTimerOrBlock(next, listWasEmpty, now);
      ListedActive();
      forall t | t in all
        ensures r[t].GoesOn(t in listed, t.Now(), t in Timers(Listing())) && t.NotEarly(clock)
      {
        assert t !in listed ==> unchanged(t);
      }
      WentQuietly(all, r, listed, Records(all), Timers(Listing()));
    }

    /** One turn of prvTimerTask's loop. */
    method TakeTurn(turn: Turn, ghost all: set<Timer>)
      requires Valid() && clock <= turn.now < clock + WRAP && InTime(turn.now, turn.messages)
      requires Timers(Listing()) + Named(turn.messages) <= all
      requires var fit := Fit(all, clock); fit
      modifies this, all
      ensures Valid() && clock == ClockAfter(turn.now, turn.messages) && Timers(Listing()) <= all
      ensures var fit := Fit(all, clock);
        var went := Went(turn.messages, all, old(Records(all)), old(Timers(Listing())),
                         Records(all), Timers(Listing()));
        fit && went
    {
      ghost var r, was := Records(all), Timers(Listing());
      Wake(turn.now, all);
      ghost var mid, listed := Records(all), Timers(Listing());
      ProcessReceivedCommands(turn.messages, all);
      assert Named([]) == {} && [] + turn.messages == turn.messages;
      WentOn([], turn.messages, all, r, was, mid, listed, Records(all), Timers(Listing()));
    }

    /** prvTimerTask: turns of its loop, each sampling the time, dealing with one due
        timer or blocking, and emptying the command queue. */
    method TimerTask(turns: seq<Turn>, ghost all: set<Timer>)
      requires Valid() && TurnsInTime(clock, turns) && Timers(Listing()) + Named(Sent(turns)) <= all
      requires var fit := Fit(all, clock); fit
      modifies this, all
      ensures Valid() && clock == ClockAfterTurns(old(clock), turns) && Timers(Listing()) <= all
      ensures var fit := Fit(all, clock);
        var went := Went(Sent(turns), all, old(Records(all)), old(Timers(Listing())), Records(all), Timers(Listing()));
        fit && went
    {
      ghost var r, was := Records(all), Timers(Listing());
      ListedActive();
      WentQuietly(all, r, was, r, was);
      assert turns[..0] == [] && turns[..|turns|] == turns;
      var i := 0;
      while i < |turns|
        invariant 0 <= i <= |turns| && TurnsInTime(clock, turns[i..])
        invariant ClockAfterTurns(clock, turns[i..]) == ClockAfterTurns(old(clock), turns)
        invariant Valid() && Timers(Listing()) <= all && Named(Sent(turns[..i])) <= all
        invariant var fit := Fit(all, clock);
          var went := Went(Sent(turns[..i]), all, r, was, Records(all), Timers(Listing()));
          fit && went
      {
        SentNext(turns, i);
        SentWithin(turns, i + 1, |turns|);
        assert turns[i..][1..] == turns[i + 1..];
        ghost var mid, listed := Records(all), Timers(Listing());
        TakeTurn(turns[i], all);
        WentOn(Sent(turns[..i]), turns[i].messages, all, r, was, mid, listed, Records(all), Timers(Listing()));
        i := i + 1;
      }
    }

    /** An auto-reload timer that was started at its `start` and left alone since has
        had exactly one callback for every period that has passed, none of them early. */
    lemma FiredExactly(x: Item)
      requires Valid() && CaughtUp() && x in Listing()
      ensures var t := x.timer; t.FiredBy(clock) && x.due == t.start + (|t.runs| + 1) * t.period
    {
      assert x.timer.Accounted(x.due, clock, 0);
      AllRan(x.timer.start, x.timer.period, x.timer.runs, x.due, clock);
    }

    /** A one-shot timer that is still listed has not run, and its time has not come. */
    lemma NotYet(x: Item)
      requires Valid() && CaughtUp() && x in Listing() && !x.timer.autoReload
      ensures x.timer.FiredOnce(clock)
    {
      assert Entered(x, clock) && x.due == Expiry(x.timer.start, x.timer.period, 1);
      NoDrift(x.timer.start, x.timer.period, 1);
    }

    /** The daemon is left to catch up. */
    method Rest(now: int, ghost all: set<Timer>)
      requires Valid() && clock <= now < clock + WRAP && Timers(Listing()) <= all
      requires var punctual := NoneEarly(all, clock); punctual
      modifies this, all
      ensures Valid() && CaughtUp() && clock == now
      ensures var punctual := NoneEarly(all, now);
        var went := Went([], all, old(Records(all)), old(Timers(Listing())), Records(all), Timers(Listing()));
        punctual && went
    {
      ghost var r, listed := Records(all), Timers(Listing());
      var sleep, forever := CatchUp(now);
      ListedActive();
      forall t | t in all
        ensures r[t].GoesOn(t in listed, t.Now(), t in Timers(Listing())) && t.NotEarly(now)
      {
        assert t !in listed ==> unchanged(t);
      }
      WentQuietly(all, r, listed, Records(all), Timers(Listing()));
    }

    /** The turns, and then the daemon is left to catch up. */
    method RunOut(turns: seq<Turn>, now: int, ghost all: set<Timer>)
      requires Valid() && TurnsInTime(clock, turns) && Timers(Listing()) + Named(Sent(turns)) <= all
      requires var fit := Fit(all, clock); fit
      requires ClockAfterTurns(clock, turns) <= now < ClockAfterTurns(clock, turns) + WRAP
      modifies this, all
      ensures Valid() && CaughtUp() && clock == now
      ensures var punctual := NoneEarly(all, now);
        var went := Went(Sent(turns), all, old(Records(all)), old(Timers(Listing())), Records(all), Timers(Listing()));
        punctual && went
    {
      ghost var r, was := Records(all), Timers(Listing());
      TimerTask(turns, all);
      ghost var mid, listed := Records(all), Timers(Listing());
      Rest(now, all);
      assert Named([]) == {} && Sent(turns) + [] == Sent(turns);
      WentOn(Sent(turns), [], all, r, was, mid, listed, Records(all), Timers(Listing()));
    }

    /** A timer that is listed when the daemon has caught up. */
    lemma ListedHasRun(t: Timer)
      requires Valid() && CaughtUp() && t in Timers(Listing())
      ensures if t.autoReload then t.FiredBy(clock) else t.FiredOnce(clock)
    {
      var x :| x in Listing() && x.timer == t;
      if t.autoReload {
        FiredExactly(x);
      } else {
        NotYet(x);
      }
    }

    /** A timer that was running when the daemon has caught up. */
    lemma RunningHasRun(t: Timer)
      requires Valid() && CaughtUp() && t.NotEarly(clock) && (t.active <==> t in Timers(Listing()))
      requires if t.autoReload then t.active else |t.runs| == if t.active then 0 else 1
      ensures if t.autoReload then t.FiredBy(clock) else t.FiredOnce(clock)
    {
      if t.active {
        ListedHasRun(t);
      } else {
        RanOnce(t, clock);
      }
    }

    /** The timers that messages started last. */
    lemma NamedHaveRun(ms: seq<Message>, ts: set<Timer>, r: map<Timer, Record>, was: set<Timer>)
      requires Valid() && CaughtUp() && Named(ms) <= ts == r.Keys
      requires var punctual, went := NoneEarly(ts, clock), Went(ms, ts, r, was, Records(ts), Timers(Listing()));
        punctual && went
      ensures forall j | 0 <= j < |ms| && !ms[j].command.PendedCall?
            && (forall k | j < k < |ms| :: ms[k].command.PendedCall? || ms[k].command.timer != ms[j].command.timer) ::
        match ms[j].command
        case Start(t, at) => t.start == at && if t.autoReload then t.FiredBy(clock) else t.FiredOnce(clock)
        case ChangePeriod(t, p) =>
          t.start == ms[j].now && t.period == p && if t.autoReload then t.FiredBy(clock) else t.FiredOnce(clock)
        case Stop(t) => !t.active && t !in Timers(Listing())
        case Delete(t) => !t.active && t !in Timers(Listing())
        case PendedCall => true
    {
      WentMeans(ms, ts, r, was, Timers(Listing()));
      forall j | 0 <= j < |ms| && (ms[j].command.Start? || ms[j].command.ChangePeriod?)
               && (forall k | j < k < |ms| :: ms[k].command.PendedCall? || ms[k].command.timer != ms[j].command.timer)
        ensures var t := ms[j].command.timer; if t.autoReload then t.FiredBy(clock) else t.FiredOnce(clock)
      {
        NamedBy(ms, j);
        RunningHasRun(ms[j].command.timer);
      }
    }

    /** The timers that were listed and that no message named. */
    lemma SparedHaveRun(ms: seq<Message>, ts: set<Timer>, r: map<Timer, Record>, was: set<Timer>)
      requires Valid() && CaughtUp() && Named(ms) + was <= ts == r.Keys
      requires forall t | t in was :: r[t].reloads || r[t].runs == []
      requires var punctual, went := NoneEarly(ts, clock), Went(ms, ts, r, was, Records(ts), Timers(Listing()));
        punctual && went
      ensures forall t | t in was && (forall m | m in ms :: m.command.PendedCall? || m.command.timer != t) ::
        && t.start == r[t].start && t.period == r[t].period && t.autoReload == r[t].reloads
        && if t.autoReload then t.FiredBy(clock) else t.FiredOnce(clock)
    {
      ListedActive();
      forall t | t in was && (forall m | m in ms :: m.command.PendedCall? || m.command.timer != t)
        ensures t.start == r[t].start && t.period == r[t].period && t.autoReload == r[t].reloads
        ensures if t.autoReload then t.FiredBy(clock) else t.FiredOnce(clock)
      {
        assert t in ts - Named(ms);
        assert r[t].GoesOn(true, Records(ts)[t], t in Timers(Listing()));
        RunningHasRun(t);
      }
    }

    /** Whatever the turns brought, once the daemon has caught up with the time `now`
        each timer has run exactly as it should since it was started: when the last
        message to name it started it, from then on, and when none named it and it was
        listed, from before. With auto-reload it has had a callback for every period since
        its start, and as a one-shot just one if its period has passed and none otherwise.
        No callback since a timer's last start has come before its expiry. */
    method TimerTaskCaughtUp(turns: seq<Turn>, now: int, ghost all: set<Timer>)
      requires Valid() && TurnsInTime(clock, turns) && Timers(Listing()) + Named(Sent(turns)) <= all
      requires (forall t | t in all :: 0 < t.period < WRAP) && NoneEarly(all, clock)
      requires ClockAfterTurns(clock, turns) <= now < ClockAfterTurns(clock, turns) + WRAP
      modifies this, all
      ensures Valid() && CaughtUp() && clock == now && NoneEarly(all, now)
      ensures forall t | t in old(Timers(Listing()))
                && (forall m | m in Sent(turns) :: m.command.PendedCall? || m.command.timer != t) ::
        && t.start == old(t.start) && t.period == old(t.period) && t.autoReload == old(t.autoReload)
        && if t.autoReload then t.FiredBy(now) else t.FiredOnce(now)
      ensures var ms := Sent(turns);
        forall j | 0 <= j < |ms| && !ms[j].command.PendedCall?
          && (forall k | j < k < |ms| :: ms[k].command.PendedCall? || ms[k].command.timer != ms[j].command.timer) ::
        match ms[j].command
        case Start(t, at) => t.start == at && if t.autoReload then t.FiredBy(now) else t.FiredOnce(now)
        case ChangePeriod(t, p) =>
          t.start == ms[j].now && t.period == p && if t.autoReload then t.FiredBy(now) else t.FiredOnce(now)
        case Stop(t) => !t.active && t !in Timers(Listing())
        case Delete(t) => !t.active && t !in Timers(Listing())
        case PendedCall => true
      ensures forall t | t in all :: t.autoReload == old(t.autoReload)
    {
      ghost var r, was, ms := Records(all), Timers(Listing()), Sent(turns);
      OneShotsFresh();
      RunOut(turns, now, all);
      WentMeans(ms, all, r, was, Timers(Listing()));
      NamedHaveRun(ms, all, r, was);
      SparedHaveRun(ms, all, r, was);
    }

    lemma OneShotsFresh()
      requires Valid()
      ensures forall t | t in Timers(Listing()) :: t.autoReload || t.runs == []
    {
      assert forall x | x in Listing() :: Entered(x, clock);
    }
  }

  lemma RanOnce(t: Timer, now: int)
    requires !t.active && |t.runs| == 1 && t.NotEarly(now)
    ensures t.FiredOnce(now)
  {
    NoDrift(t.start, t.period, 1);
  }
}
