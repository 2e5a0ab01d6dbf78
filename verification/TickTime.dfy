/** The 32-bit tick counter against unbounded time, as timers.c compares the two. */
module TickTime {

  const WRAP: int := 0x1_0000_0000

  /** What the tick counter shows at the unbounded time t. */
  function Ticks(t: int): int {
    t % WRAP
  }

  /** How often the tick counter has wrapped at the unbounded time t. */
  function Epoch(t: int): int {
    t / WRAP
  }

  datatype Place = ProcessNow | CurrentList | OverflowList

  /** The tests of prvInsertTimerInActiveList, on tick counter values. */
  function Decide(next: int, now: int, command: int, period: int): Place {
    if next <= now then
      if (now - command) % WRAP >= period then ProcessNow else OverflowList
    else
      if now < command && next >= command then ProcessNow else CurrentList
  }

  lemma Split(t: int)
    ensures t == Epoch(t) * WRAP + Ticks(t) && 0 <= Ticks(t) < WRAP
  {
  }

  /** Less than one wrap apart, either in the same epoch or in the next. */
  lemma WithinAWrap(a: int, b: int)
    requires a <= b < a + WRAP
    ensures Epoch(b) == Epoch(a) || Epoch(b) == Epoch(a) + 1
    ensures Epoch(b) == Epoch(a) <==> Ticks(a) <= Ticks(b)
    ensures (Ticks(b) - Ticks(a)) % WRAP == b - a
  {
    Split(a);
    Split(b);
  }

  lemma TicksAdd(t: int, d: int)
    ensures (Ticks(t) + d) % WRAP == Ticks(t + d)
  {
  }

  /** The residue tests decide exactly what unbounded time says, for any command
      less than one wrap old and any period the timers allow. */
  lemma DecideIsRight(command: int, now: int, period: int)
    requires command <= now < command + WRAP && 0 < period < WRAP
    ensures var due := command + period;
      && Decide(Ticks(due), Ticks(now), Ticks(command), period) ==
         (if due <= now then ProcessNow else if Epoch(due) == Epoch(now) then CurrentList else OverflowList)
      && (due > now ==> Epoch(due) == Epoch(now) || Epoch(due) == Epoch(now) + 1)
  {
    var due := command + period;
    WithinAWrap(command, now);
    WithinAWrap(command, due);
    if due > now {
      WithinAWrap(now, due);
    } else {
      WithinAWrap(due, now);
    }
  }

  /** In one epoch, tick values order times. */
  lemma SameEpoch(a: int, b: int)
    requires Epoch(a) == Epoch(b)
    ensures a <= b <==> Ticks(a) <= Ticks(b)
    ensures -WRAP < a - b < WRAP
  {
    Split(a);
    Split(b);
  }

  /** At the end of the epoch e everything due in it has expired. */
  lemma EndOfEpoch(e: int, due: int, now: int)
    requires Epoch(due) == e && Epoch(now) == e + 1
    ensures var last := (e + 1) * WRAP - 1;
      Epoch(last) == e && Ticks(last) == 0xFFFF_FFFF && due <= last <= now && last < due + WRAP
  {
    Split(due);
    Split(now);
  }
}
