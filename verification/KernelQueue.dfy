/** queue.c: items queued by copy, and the tasks that wait for items or for room. */
module KernelQueue {
  import opened Circular
  import opened Sequences

  datatype Position = ToBack | ToFront | Overwrite

  const UNLOCKED := -1

  function Min(a: nat, b: nat): nat {
    if a < b then a else b
  }

  class Queue<T(0)> {
    const storage: array<T>
    var writeTo: nat
    var readFrom: nat
    var messagesWaiting: nat
    /** Tasks blocked on the queue, the first to wake first. */
    var waitingToReceive: seq<nat>
    var waitingToSend: seq<nat>
    var txLock: int
    var rxLock: int
    /** How many tasks there are, and the value of each one's event list item: the
        greatest priority less its own. */
    const tasks: nat
    const rank: nat -> int
    /** The items, oldest first, and what interrupts did while the queue was locked. */
    ghost var items: seq<T>
    ghost var posts: nat
    ghost var takes: nat

    /** The items follow the slot that was read last; the next one goes after them. */
    ghost predicate Stored()
      reads `writeTo, `readFrom, `messagesWaiting, `items, storage
    {
      var laid := Laid();
      laid && messagesWaiting == |items|
    }

    ghost predicate Laid()
      reads `writeTo, `readFrom, `items, storage
    {
      var n := storage.Length;
      && 0 < n && readFrom < n && |items| <= n
      && writeTo == At(At(readFrom, 1, n), |items|, n)
      && forall i | 0 <= i < |items| :: storage[At(At(readFrom, 1, n), i, n)] == items[i]
    }

    /** A lock count is capped at the number of tasks, and fits a signed byte. */
    ghost predicate Locked()
      reads `txLock, `rxLock, `posts, `takes
    {
      && (txLock == UNLOCKED || txLock == Min(posts, tasks) <= 127)
      && (rxLock == UNLOCKED || rxLock == Min(takes, tasks) <= 127)
    }

    /** No more tasks can wait than there are, and they wait by priority. */
    ghost predicate Queued()
      reads `waitingToReceive, `waitingToSend
    {
      var receivers, senders := ByRank(waitingToReceive, rank), ByRank(waitingToSend, rank);
      |waitingToReceive| <= tasks && |waitingToSend| <= tasks && receivers && senders
    }

    ghost predicate Valid()
      reads this, storage
    {
      var stored, locked, queued := Stored(), Locked(), Queued();
      stored && locked && queued
    }

    /** xQueueGenericReset of a new queue. */
    constructor (storage: array<T>, tasks: nat, rank: nat -> int)
      requires storage.Length > 0
      ensures Valid() && items == [] && txLock == rxLock == UNLOCKED && this.tasks == tasks && this.rank == rank
      ensures waitingToReceive == waitingToSend == [] && this.storage == storage
    {
      this.storage, this.tasks, this.rank := storage, tasks, rank;
      writeTo, readFrom, messagesWaiting, items := 0, storage.Length - 1, 0, [];
      waitingToReceive, waitingToSend, txLock, rxLock := [], [], UNLOCKED, UNLOCKED;
      posts, takes := 0, 0;
    }

    /** xQueueGenericReset: the queue is empty, so a task can send. */
    method Reset()
      requires Valid()
      modifies `writeTo, `readFrom, `messagesWaiting, `items, `waitingToSend, `txLock, `rxLock
      ensures Valid() && items == [] && txLock == rxLock == UNLOCKED
      ensures waitingToSend == if old(waitingToSend) == [] then [] else old(waitingToSend)[1..]
    {
      messagesWaiting, items := 0, [];
      writeTo, readFrom := 0, storage.Length - 1;
      rxLock, txLock := UNLOCKED, UNLOCKED;
      if waitingToSend != [] {
        waitingToSend := waitingToSend[1..];
      }
    }

    method CopyToBack(x: T)
      requires Laid() && |items| < storage.Length
      modifies `writeTo, `items, storage
      ensures Laid() && items == old(items) + [x]
    {
      ghost var n, first := storage.Length, At(readFrom, 1, storage.Length);
      forall i | 0 <= i < |items|
        ensures At(first, i, n) != writeTo
      {
        AtApart(first, i, |items|, n);
      }
      storage[writeTo] := x;
      writeTo := writeTo + 1;
      if writeTo >= storage.Length {
        writeTo := 0;
      }
      items := items + [x];
    }

    /** The slot that was read last is free, or holds the one item to be replaced. */
    method CopyToFront(x: T, replace: bool)
      requires Laid() && if replace then storage.Length == 1 else |items| < storage.Length
      modifies `readFrom, `items, storage
      ensures Laid() && items == if replace then [x] else [x] + old(items)
    {
      ghost var n, first := storage.Length, At(readFrom, 1, storage.Length);
      forall i | 0 <= i < |items| && !replace
        ensures At(first, i, n) != readFrom
      {
      }
      storage[readFrom] := x;
      if readFrom == 0 {
        readFrom := storage.Length - 1;
      } else {
        readFrom := readFrom - 1;
      }
      items := if replace then [x] else [x] + items;
    }

    /** prvCopyDataToQueue, for items that have a size. */
    method CopyDataTo(x: T, position: Position)
      requires Stored() && (|items| < storage.Length || position == Overwrite)
      requires position == Overwrite ==> storage.Length == 1
      modifies `writeTo, `readFrom, `messagesWaiting, `items, storage
      ensures Stored()
      ensures items == match position
        case ToBack => old(items) + [x]
        case ToFront => [x] + old(items)
        case Overwrite => [x]
    {
      var waiting := messagesWaiting;
      if position == ToBack {
        CopyToBack(x);
      } else {
        CopyToFront(x, position == Overwrite);
        if position == Overwrite {
          if waiting > 0 {
            waiting := waiting - 1;
          }
        }
      }
      messagesWaiting := waiting + 1;
    }

    /** prvCopyDataFromQueue: the slot after the one read last is read. */
    method CopyDataFrom() returns (x: T)
      requires Stored() && items != []
      modifies `readFrom
      ensures x == items[0] && readFrom == At(old(readFrom), 1, storage.Length)
    {
      readFrom := readFrom + 1;
      if readFrom >= storage.Length {
        readFrom := 0;
      }
      x := storage[readFrom];
    }

    /** xQueueGenericSend without blocking: the first task that waits to receive wakes. */
    method Send(x: T, position: Position) returns (sent: bool)
      requires Valid() && (position == Overwrite ==> storage.Length == 1)
      modifies this, storage
      ensures Valid() && txLock == old(txLock) && posts == old(posts) && rxLock == old(rxLock) && takes == old(takes)
      ensures sent <==> |old(items)| < storage.Length || position == Overwrite
      ensures !sent ==> items == old(items)
      ensures sent ==> items == match position
        case ToBack => old(items) + [x]
        case ToFront => [x] + old(items)
        case Overwrite => [x]
      ensures waitingToReceive ==
              if sent && old(waitingToReceive) != [] then old(waitingToReceive)[1..] else old(waitingToReceive)
      ensures waitingToSend == old(waitingToSend)
    {
      sent := messagesWaiting < storage.Length || position == Overwrite;
      if sent {
        CopyDataTo(x, position);
        if waitingToReceive != [] {
          waitingToReceive := waitingToReceive[1..];
        }
      }
    }

    /** xQueueGenericSendFromISR: while the queue is locked the post is only counted. The
        assertion on the count fails, and halts the system, exactly if it would pass 127. */
    method SendFromIsr(x: T, position: Position) returns (sent: bool, halted: bool)
      requires Valid() && (position == Overwrite ==> storage.Length == 1)
      modifies this, storage
      ensures Valid() && waitingToSend == old(waitingToSend) && rxLock == old(rxLock) && takes == old(takes)
      ensures sent <==> |old(items)| < storage.Length || position == Overwrite
      ensures !sent ==> items == old(items)
      ensures sent ==> items == match position
        case ToBack => old(items) + [x]
        case ToFront => [x] + old(items)
        case Overwrite => [x]
      ensures (txLock == UNLOCKED) == old(txLock == UNLOCKED)
      ensures posts == if sent && old(txLock) != UNLOCKED && !halted then old(posts) + 1 else old(posts)
      ensures halted <==> sent && old(txLock) != UNLOCKED && old(posts) >= 127 && tasks > 127
      ensures waitingToReceive ==
              if sent && old(txLock) == UNLOCKED && old(waitingToReceive) != [] then old(waitingToReceive)[1..]
              else old(waitingToReceive)
    {
      sent, halted := messagesWaiting < storage.Length || position == Overwrite, false;
      if sent {
        CopyDataTo(x, position);
        if txLock == UNLOCKED {
          if waitingToReceive != [] {
            waitingToReceive := waitingToReceive[1..];
          }
        } else {
          if txLock < tasks {
            if txLock == 127 {
              halted := true;
              return;
            }
            txLock := txLock + 1;
          }
          posts := posts + 1;
        }
      }
    }

    /** xQueueReceive without blocking: the first task that waits to send wakes. */
    method Receive() returns (received: bool, x: T)
      requires Valid()
      modifies this
      ensures Valid() && txLock == old(txLock) && posts == old(posts) && rxLock == old(rxLock) && takes == old(takes)
      ensures received <==> old(items) != []
      ensures received ==> [x] + items == old(items)
      ensures !received ==> items == old(items)
      ensures waitingToSend ==
              if received && old(waitingToSend) != [] then old(waitingToSend)[1..] else old(waitingToSend)
      ensures waitingToReceive == old(waitingToReceive)
    {
      received, x := messagesWaiting > 0, *;
      if received {
        x := TakeOut();
        if waitingToSend != [] {
          waitingToSend := waitingToSend[1..];
        }
      }
    }

    method TakeOut() returns (x: T)
      requires Stored() && items != []
      modifies `readFrom, `messagesWaiting, `items
      ensures Stored() && [x] + items == old(items)
    {
      ghost var n, first := storage.Length, At(readFrom, 1, storage.Length);
      forall i | 0 <= i < |items|
        ensures At(At(first, 1, n), i, n) == At(first, i + 1, n)
      {
        AtAt(first, 1, i, n);
      }
      x := CopyDataFrom();
      messagesWaiting := messagesWaiting - 1;
      items := items[1..];
    }

    /** xQueueReceiveFromISR, with the same assertion on its own count. */
    method ReceiveFromIsr() returns (received: bool, x: T, halted: bool)
      requires Valid()
      modifies this
      ensures Valid() && waitingToReceive == old(waitingToReceive) && txLock == old(txLock) && posts == old(posts)
      ensures received <==> old(items) != []
      ensures received ==> [x] + items == old(items)
      ensures !received ==> items == old(items)
      ensures (rxLock == UNLOCKED) == old(rxLock == UNLOCKED)
      ensures takes == if received && old(rxLock) != UNLOCKED && !halted then old(takes) + 1 else old(takes)
      ensures halted <==> received && old(rxLock) != UNLOCKED && old(takes) >= 127 && tasks > 127
      ensures waitingToSend ==
              if received && old(rxLock) == UNLOCKED && old(waitingToSend) != [] then old(waitingToSend)[1..]
              else old(waitingToSend)
    {
      received, x, halted := messagesWaiting > 0, *, false;
      if received {
        x := TakeOut();
        if rxLock == UNLOCKED {
          if waitingToSend != [] {
            waitingToSend := waitingToSend[1..];
          }
        } else {
          if rxLock < tasks {
            if rxLock == 127 {
              halted := true;
              return;
            }
            rxLock := rxLock + 1;
          }
          takes := takes + 1;
        }
      }
    }

    /** xQueuePeek without blocking: the item stays, and the next receiver is woken too. */
    method Peek() returns (there: bool, x: T)
      requires Valid()
      modifies `readFrom, `waitingToReceive
      ensures Valid() && readFrom == old(readFrom)
      ensures there <==> items != []
      ensures there ==> x == items[0]
      ensures waitingToReceive ==
              if there && old(waitingToReceive) != [] then old(waitingToReceive)[1..] else old(waitingToReceive)
    {
      there, x := messagesWaiting > 0, *;
      if there {
        var original := readFrom;
        x := CopyDataFrom();
        readFrom := original;
        if waitingToReceive != [] {
          waitingToReceive := waitingToReceive[1..];
        }
      }
    }

    /** prvLockQueue */
    method Lock()
      requires Valid()
      modifies `txLock, `rxLock, `posts, `takes
      ensures Valid() && txLock != UNLOCKED && rxLock != UNLOCKED
      ensures old(txLock) == UNLOCKED ==> posts == 0
      ensures old(rxLock) == UNLOCKED ==> takes == 0
      ensures old(txLock) != UNLOCKED ==> posts == old(posts)
      ensures old(rxLock) != UNLOCKED ==> takes == old(takes)
    {
      if rxLock == UNLOCKED {
        rxLock, takes := 0, 0;
      }
      if txLock == UNLOCKED {
        txLock, posts := 0, 0;
      }
    }

    /** prvUnlockQueue: as many receivers wake as there were posts while the queue was
        locked, or all that wait if there are fewer; and so for the senders. */
    method Unlock()
      requires Valid() && txLock != UNLOCKED && rxLock != UNLOCKED
      modifies `txLock, `rxLock, `waitingToReceive, `waitingToSend
      ensures Valid() && txLock == rxLock == UNLOCKED
      ensures waitingToReceive ==
              if posts <= |old(waitingToReceive)| then old(waitingToReceive)[posts..] else []
      ensures waitingToSend == if takes <= |old(waitingToSend)| then old(waitingToSend)[takes..] else []
    {
      UnlockTx();
      UnlockRx();
    }

    method UnlockTx()
      requires Valid() && txLock != UNLOCKED
      modifies `txLock, `waitingToReceive
      ensures var valid := Valid(); valid && txLock == UNLOCKED
      ensures waitingToReceive ==
              if posts <= |old(waitingToReceive)| then old(waitingToReceive)[posts..] else []
    {
      var lock := txLock;
      ghost var k := 0;
      while lock > 0 && waitingToReceive != []
        invariant 0 <= k <= |old(waitingToReceive)| && lock == old(txLock) - k >= 0 && txLock == old(txLock)
        invariant waitingToReceive == old(waitingToReceive)[k..]
      {
        waitingToReceive := waitingToReceive[1..];
        lock, k := lock - 1, k + 1;
      }
      txLock := UNLOCKED;
    }

    method UnlockRx()
      requires Valid() && rxLock != UNLOCKED
      modifies `rxLock, `waitingToSend
      ensures var valid := Valid(); valid && rxLock == UNLOCKED
      ensures waitingToSend == if takes <= |old(waitingToSend)| then old(waitingToSend)[takes..] else []
    {
      var lock := rxLock;
      ghost var k := 0;
      while lock > 0 && waitingToSend != []
        invariant 0 <= k <= |old(waitingToSend)| && lock == old(rxLock) - k >= 0 && rxLock == old(rxLock)
        invariant waitingToSend == old(waitingToSend)[k..]
      {
        waitingToSend := waitingToSend[1..];
        lock, k := lock - 1, k + 1;
      }
      rxLock := UNLOCKED;
    }

    /** vTaskPlaceOnEventList: a task waits behind all that have its priority or a
        greater one, at the place k. */
    method Block(task: nat, toReceive: bool) returns (ghost k: nat)
      requires Valid() && |if toReceive then waitingToReceive else waitingToSend| < tasks
      modifies `waitingToReceive, `waitingToSend
      ensures Valid()
      ensures if toReceive then waitingToSend == old(waitingToSend) else waitingToReceive == old(waitingToReceive)
      ensures var was, now := if toReceive then old(waitingToReceive) else old(waitingToSend),
                              if toReceive then waitingToReceive else waitingToSend;
        && k <= |was| && now == was[..k] + [task] + was[k..]
        && (forall i | 0 <= i < k :: rank(was[i]) <= rank(task))
        && (forall i | k <= i < |was| :: rank(was[i]) > rank(task))
    {
      if toReceive {
        k := JoinedInOrder(waitingToReceive, task, rank);
        waitingToReceive := Joined(waitingToReceive, task, rank);
      } else {
        k := JoinedInOrder(waitingToSend, task, rank);
        waitingToSend := Joined(waitingToSend, task, rank);
      }
    }
  }

  /** No task waits behind one of lower priority. */
  ghost predicate ByRank(waiting: seq<nat>, rank: nat -> int) {
    forall i, j | 0 <= i < j < |waiting| :: rank(waiting[i]) <= rank(waiting[j])
  }

  function Ranks(waiting: seq<nat>, rank: nat -> int): (r: seq<int>)
    ensures |r| == |waiting| && forall i | 0 <= i < |r| :: r[i] == rank(waiting[i])
  {
    seq(|waiting|, i requires 0 <= i < |waiting| => rank(waiting[i]))
  }

  function Joined(waiting: seq<nat>, task: nat, rank: nat -> int): seq<nat> {
    InsertAt(waiting, FirstAbove(Ranks(waiting, rank), rank(task)), task)
  }

  lemma JoinedInOrder(waiting: seq<nat>, task: nat, rank: nat -> int) returns (k: nat)
    requires ByRank(waiting, rank)
    ensures ByRank(Joined(waiting, task, rank), rank)
    ensures k <= |waiting| && Joined(waiting, task, rank) == waiting[..k] + [task] + waiting[k..]
    ensures forall i | 0 <= i < k :: rank(waiting[i]) <= rank(task)
    ensures forall i | k <= i < |waiting| :: rank(waiting[i]) > rank(task)
  {
    var ranks, now := Ranks(waiting, rank), Joined(waiting, task, rank);
    k := FirstAbove(ranks, rank(task));
    assert now == waiting[..k] + [task] + waiting[k..];
    InsertSorted(ranks, rank(task));
    assert Sorted(InsertAt(ranks, k, rank(task)));
    forall i | 0 <= i < |now|
      ensures rank(now[i]) == InsertAt(ranks, k, rank(task))[i]
    {
    }
  }

  /** The assertion can fail: with 200 tasks, the 128th post to a locked queue. */
  method HaltReached() returns (halted: bool)
    ensures halted
  {
    var storage := new int[1];
    var q := new Queue(storage, 200, t => 0);
    q.Lock();
    var i, sent := 0, true;
    while i < 127
      invariant 0 <= i <= 127 && q.Valid() && q.storage == storage && q.tasks == 200
      invariant q.txLock != UNLOCKED && q.posts == i && fresh(q) && fresh(storage)
    {
      sent, halted := q.SendFromIsr(0, Overwrite);
      i := i + 1;
    }
    sent, halted := q.SendFromIsr(0, Overwrite);
  }
}
