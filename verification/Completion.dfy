/** completion.c: a one-shot completion with one waiter and any number of callers of
    done, over a semaphore that holds at most one token. */
module Completion {
  datatype Status = INIT | WAIT | DONE

  datatype Ret = OK | BUSY | TIMEOUT | EMPTY

  /** Where the waiting task is: in no wait, blocked on the semaphore, back from it
      with or without a token, or taking left-over tokens before it returns OK. */
  datatype Place = Outside | Blocked | Back(token: bool) | Draining

  /** A step that runs without interruption. */
  datatype Event = Wait(timeout: nat) | Take | TimeOut | Resume | DrainOnce | Done

  /** The completion, where its waiter is, and what has happened so far: done calls
      that returned OK, completions taken, and waits that returned OK. */
  datatype State = State(status: Status, thread: bool, sem: nat, at: Place,
                         oks: nat, taken: nat, okWaits: nat) {
    predicate Enabled(e: Event) {
      match e
      case Wait(_) => at == Outside
      case Take => at == Blocked && sem > 0
      case TimeOut => at == Blocked
      case Resume => at.Back?
      case DrainOnce => at == Draining
      case Done => true
    }

    function Next(e: Event): State
      requires Enabled(e)
    {
      match e
      case Wait(timeout) =>
        if status == DONE then TakeCompletion()
        else if status == WAIT || timeout == 0 || thread then this
        else this.(status := WAIT, thread := true, at := Blocked)
      case Take => this.(sem := sem - 1, at := Back(true))
      case TimeOut => this.(at := Back(false))
      case Resume =>
        if !at.token && status != DONE then this.(status := INIT, thread := false, at := Outside)
        else TakeCompletion()
      case DrainOnce =>
        if sem > 0 then this.(sem := sem - 1) else this.(at := Outside, okWaits := okWaits + 1)
      case Done =>
        if Accepts() then this.(status := DONE, thread := false, sem := 1, oks := oks + 1) else this
    }

    function TakeCompletion(): State {
      this.(status := INIT, thread := false, at := Draining, taken := taken + 1)
    }

    predicate Accepts() {
      status == INIT || (status == WAIT && thread)
    }

    /** Every accepted done is one completion: taken by a wait, or still there. */
    predicate Counted() {
      && oks == taken + (if status == DONE then 1 else 0)
      && taken == okWaits + (if at == Draining then 1 else 0)
    }

    predicate Inv() {
      && sem <= 1 && Counted() && (thread <==> status == WAIT)
      && (status == WAIT ==> sem == 0 && (at == Blocked || at == Back(false)))
      && (status == INIT ==> at == Draining || (at == Outside && sem == 0))
      && (status == DONE && at == Blocked ==> sem == 1)
    }

    function Run(events: seq<Event>): State
      decreases |events|
    {
      if events == [] then this
      else (if Enabled(events[0]) then Next(events[0]) else this).Run(events[1..])
    }
  }

  const START := State(INIT, false, 0, Outside, 0, 0, 0)

  /** In any interleaving no completion is lost and none counts twice. */
  lemma {:induction false} RunKeeps(s: State, events: seq<Event>)
    requires s.Inv()
    ensures s.Run(events).Inv()
    decreases |events|
  {
    if events == [] {
    } else {
      RunKeeps(if s.Enabled(events[0]) then s.Next(events[0]) else s, events[1..]);
    }
  }

  /** A waiter blocked on the semaphore while the completion is done finds a token; one
      blocked while it is not finds none, so it is not woken for nothing. */
  lemma BlockedHasToken(events: seq<Event>)
    ensures var s := START.Run(events); s.at == Blocked ==> (s.Enabled(Take) <==> s.status == DONE)
  {
    RunKeeps(START, events);
  }

  /** A timeout that races with a done: the wait reports a timeout exactly when no
      done was accepted before it looked again, and otherwise takes the completion. */
  lemma TimeoutRace(events: seq<Event>)
    requires START.Run(events).at == Back(false)
    ensures var s := START.Run(events); var n := s.Next(Resume);
      if s.oks == s.taken then n.at == Outside && n.taken == s.taken
      else n.at == Draining && n.taken == s.taken + 1 == s.oks
  {
    RunKeeps(START, events);
  }

  /** A done is refused exactly when a completion is pending already. */
  lemma DoneRefused(events: seq<Event>)
    ensures var s := START.Run(events); !s.Accepts() <==> s.oks == s.taken + 1
  {
    RunKeeps(START, events);
  }

  /** How many more tokens the draining waiter can find. */
  function TokensLeft(s: State): nat {
    s.sem + if s.status == INIT then 1 else 0
  }

  function Drains(events: seq<Event>): nat {
    if events == [] then 0 else (if events[0] == DrainOnce then 1 else 0) + Drains(events[1..])
  }

  predicate Returned(s: State, n: State) {
    n.at == Outside && n.okWaits == s.okWaits + 1
  }

  /** Whatever the callers of done do, a draining waiter tries the semaphore at most
      three times before it returns. */
  lemma {:induction false} DrainEnds(s: State, events: seq<Event>)
    requires s.Inv() && s.at == Draining
    requires Drains(events) > TokensLeft(s)
    ensures exists k | 0 <= k <= |events| :: Returned(s, s.Run(events[..k]))
    decreases |events|
  {
    var e := events[0];
    var n := if s.Enabled(e) then s.Next(e) else s;
    var j := 0;
    if n.at == Draining {
      assert TokensLeft(n) <= TokensLeft(s) - if e == DrainOnce then 1 else 0;
      DrainEnds(n, events[1..]);
      var k :| 0 <= k <= |events[1..]| && Returned(n, n.Run(events[1..][..k]));
      j := k;
    } else {
      assert n.Run(events[1..][..0]) == n;
    }
    assert events[..j + 1][1..] == events[1..][..j];
    assert s.Run(events[..j + 1]) == n.Run(events[1..][..j]);
  }

  /** The completion itself. Its methods are the critical sections of the source and
      the calls that may block; the ghost fields record what has happened. */
  class OneShot {
    var status: Status
    var waitThread: bool
    var sem: nat
    ghost var at: Place
    ghost var oks: nat
    ghost var taken: nat
    ghost var okWaits: nat

    ghost function Now(): State
      reads this
    {
      State(status, waitThread, sem, at, oks, taken, okWaits)
    }

    /** completion_sem_init */
    constructor ()
      ensures Now() == START && Now().Inv()
    {
      status, waitThread, sem := INIT, false, 0;
      at, oks, taken, okWaits := Outside, 0, 0, 0;
    }

    /** completion_sem_wait_one_shot, up to where the waiter blocks or starts to drain.
        The only waiter is never refused as busy. */
    method StartWait(timeout: nat) returns (left: bool, ret: Ret)
      requires Now().Inv() && at == Outside
      modifies this
      ensures Now() == old(Now()).Next(Wait(timeout)) && Now().Inv()
      ensures left <==> at == Outside
      ensures left ==> ret == TIMEOUT && timeout == 0 && oks == taken
      ensures old(status) == DONE ==> status == INIT && !waitThread && at == Draining && taken == old(taken) + 1
      ensures old(status) != DONE && timeout == 0 ==> ret == TIMEOUT && unchanged(this)
      ensures old(status) != DONE && timeout > 0 ==>
        status == WAIT && waitThread && at == Blocked && taken == old(taken)
      ensures unchanged(`sem) && unchanged(`oks) && unchanged(`okWaits)
    {
      left, ret := false, OK;
      if status == WAIT {
        return true, BUSY;
      }
      if status == DONE {
        status, waitThread := INIT, false;
        at, taken := Draining, taken + 1;
        return;
      }
      if timeout == 0 {
        return true, TIMEOUT;
      }
      if waitThread {
        return true, BUSY;
      }
      waitThread, status := true, WAIT;
      at := Blocked;
    }

    /** What osal_sem_wait does once it returns to the blocked waiter. */
    method ComeBack(timedOut: bool)
      requires Now().Inv() && at == Blocked && (!timedOut ==> sem > 0)
      modifies this
      ensures Now() == old(Now()).Next(if timedOut then TimeOut else Take) && Now().Inv()
      ensures at == Back(!timedOut) && sem == old(sem) - if timedOut then 0 else 1
      ensures unchanged(`status) && unchanged(`waitThread)
      ensures unchanged(`oks) && unchanged(`taken) && unchanged(`okWaits)
    {
      if !timedOut {
        sem := sem - 1;
      }
      at := Back(!timedOut);
    }

    /** The second critical section of completion_sem_wait_one_shot. */
    method ResumeWait(waitOk: bool) returns (timedOut: bool)
      requires Now().Inv() && at == Back(waitOk)
      modifies this
      ensures Now() == old(Now()).Next(Resume) && Now().Inv()
      ensures timedOut <==> at == Outside
      ensures timedOut ==> oks == taken == old(taken)
      ensures !timedOut ==> oks == taken == old(taken) + 1
      ensures timedOut <==> !waitOk && old(status) != DONE
      ensures status == INIT && !waitThread && at == if timedOut then Outside else Draining
      ensures unchanged(`sem) && unchanged(`oks) && unchanged(`okWaits)
    {
      timedOut := false;
      if !waitOk && status != DONE {
        waitThread, status := false, INIT;
        at := Outside;
        return true;
      }
      waitThread, status := false, INIT;
      at, taken := Draining, taken + 1;
    }

    /** One turn of completion_sem_drain's loop. After the last, the wait returns OK. */
    method DrainStep() returns (again: bool)
      requires Now().Inv() && at == Draining
      modifies this
      ensures Now() == old(Now()).Next(DrainOnce) && Now().Inv()
      ensures again <==> at == Draining
      ensures again ==> TokensLeft(Now()) < old(TokensLeft(Now()))
      ensures (again <==> old(sem) > 0) && sem == (if again then old(sem) - 1 else 0)
      ensures okWaits == (if again then old(okWaits) else old(okWaits) + 1) && (!again ==> at == Outside)
      ensures unchanged(`status) && unchanged(`waitThread) && unchanged(`oks) && unchanged(`taken)
    {
      again := sem > 0;
      if again {
        sem := sem - 1;
      } else {
        at, okWaits := Outside, okWaits + 1;
      }
    }

    /** completion_sem_done_one_shot. A done is refused when a completion is pending. */
    method DoneOneShot() returns (ret: Ret)
      requires Now().Inv()
      modifies this
      ensures Now() == old(Now()).Next(Done) && Now().Inv()
      ensures ret == if old(oks == taken) then OK else BUSY
      ensures old(status) == DONE ==> ret == BUSY && unchanged(this)
      ensures old(status) != DONE ==> ret == OK && status == DONE && !waitThread && sem == 1 && oks == old(oks) + 1
      ensures unchanged(`at) && unchanged(`taken) && unchanged(`okWaits)
    {
      match status {
        case INIT =>
          status := DONE;
          Post();
          oks := oks + 1;
          ret := OK;
        case WAIT =>
          if waitThread {
            Post();
            waitThread := false;
            status := DONE;
            oks := oks + 1;
            ret := OK;
          } else {
            ret := EMPTY;
          }
        case DONE =>
          ret := BUSY;
      }
    }

    /** osal_sem_post on a semaphore created with room for one token. */
    method Post()
      modifies `sem
      ensures sem == if old(sem) == 0 then 1 else old(sem)
    {
      if sem == 0 {
        sem := sem + 1;
      }
    }
  }
}
