/** hal_can_core.c: the message nodes of a FIFO and the lists they are on. */
module CanFifo {
  import opened Sequences

  datatype Frame = Frame(id: nat, data: seq<nat>)

  /** The owner of a node that belongs to no filter and no mailbox. */
  const NONE := -1

  /** A message node. Its owner and contents are written only while it is on no list,
      so a node on a list is a value. */
  datatype Msg = Msg(node: nat, owner: int, frame: Frame)

  /** Where a node is on the used list. */
  function Position(ms: seq<Msg>, n: nat): (k: nat)
    ensures k <= |ms| && (k < |ms| ==> ms[k].node == n)
    ensures forall i | 0 <= i < k :: ms[i].node != n
  {
    if ms == [] || ms[0].node == n then 0 else 1 + Position(ms[1..], n)
  }

  /** No node is in two places: free, used, or in the driver's hands. */
  predicate Placed(free: seq<Msg>, used: seq<Msg>, hand: set<nat>) {
    && Distinct(free) && Distinct(used) && Off(free, hand) && Off(used, hand)
    && (forall m | m in free :: m.owner == NONE)
    && forall m, n | m in free && n in used :: m.node != n.node
  }

  predicate Distinct(ms: seq<Msg>) {
    forall i, j | 0 <= i < j < |ms| :: ms[i].node != ms[j].node
  }

  predicate Off(ms: seq<Msg>, hand: set<nat>) {
    forall m | m in ms :: m.node !in hand
  }

  lemma PositionOf(ms: seq<Msg>, k: nat)
    requires Distinct(ms) && k < |ms|
    ensures Position(ms, ms[k].node) == k
  {
    var p := Position(ms, ms[k].node);
    assert !(p < k);
  }

  lemma TakeOut(ms: seq<Msg>, k: nat)
    requires Distinct(ms) && k < |ms|
    ensures Distinct(RemoveAt(ms, k)) && Position(ms, ms[k].node) == k && ms[k] in ms
    ensures forall m | m in RemoveAt(ms, k) :: m in ms && m.node != ms[k].node
  {
    PositionOf(ms, k);
    var us := RemoveAt(ms, k);
    forall i | 0 <= i < |us|
      ensures us[i] == ms[if i < k then i else i + 1] && us[i] in ms && us[i].node != ms[k].node
    {
    }
  }

  lemma PutIn(ms: seq<Msg>, m: Msg)
    requires Distinct(ms) && Off(ms, {m.node})
    ensures Distinct(ms + [m])
  {
    assert forall i | 0 <= i < |ms| :: ms[i] in ms;
  }

  lemma FreeToHand(free: seq<Msg>, used: seq<Msg>)
    requires Placed(free, used, {}) && free != []
    ensures Placed(free[1..], used, {free[0].node}) && free[0].owner == NONE
  {
    TakeOut(free, 0);
    assert free[1..] == RemoveAt(free, 0);
  }

  lemma UsedToHand(free: seq<Msg>, used: seq<Msg>, k: nat)
    requires Placed(free, used, {}) && k < |used|
    ensures Placed(free, RemoveAt(used, k), {used[k].node}) && Position(used, used[k].node) == k
  {
    TakeOut(used, k);
  }

  lemma HandToFree(free: seq<Msg>, used: seq<Msg>, m: Msg)
    requires Placed(free, used, {m.node}) && m.owner == NONE
    ensures Placed(free + [m], used, {})
  {
    PutIn(free, m);
  }

  lemma HandToUsed(free: seq<Msg>, used: seq<Msg>, m: Msg)
    requires Placed(free, used, {m.node})
    ensures Placed(free, used + [m], {})
  {
    PutIn(used, m);
  }

  lemma HandToFront(free: seq<Msg>, used: seq<Msg>, m: Msg)
    requires Placed(free, used, {m.node})
    ensures Placed(free, [m] + used, {})
  {
    assert forall i | 0 <= i < |used| :: used[i] in used;
  }
}
