/** stream_buffer.c: a message buffer that one sender and one receiver share. */
module MessageBuffer {
  import opened Circular

  type Byte = b: int | 0 <= b < 256

  /** Bytes that hold the length of a message, least significant byte first. */
  const PREFIX := 4

  function Prefix(n: nat): (p: seq<Byte>)
    ensures |p| == PREFIX
  {
    [n % 256, n / 0x100 % 256, n / 0x1_0000 % 256, n / 0x100_0000 % 256]
  }

  function LengthOf(p: seq<Byte>): nat
    requires |p| >= PREFIX
  {
    (p[0] as int) + 0x100 * (p[1] as int) + 0x1_0000 * (p[2] as int) + 0x100_0000 * (p[3] as int)
  }

  lemma PrefixHoldsLength(n: nat)
    requires n < 0x1_0000_0000
    ensures LengthOf(Prefix(n)) == n
  {
    var a := n / 0x100;
    var b := a / 0x100;
    assert n / 0x1_0000 == b && n / 0x100_0000 == b / 0x100;
  }

  predicate Sendable(m: seq<Byte>) {
    |m| < 0xffff_fffc
  }

  function Frame(m: seq<Byte>): (f: seq<Byte>)
    ensures |f| == PREFIX + |m|
  {
    Prefix(|m|) + m
  }

  /** The bytes of the messages that are pending, oldest first. */
  function Encode(ms: seq<seq<Byte>>): seq<Byte> {
    if ms == [] then [] else Frame(ms[0]) + Encode(ms[1..])
  }

  lemma {:induction false} EncodeAppend(ms: seq<seq<Byte>>, m: seq<Byte>)
    ensures Encode(ms + [m]) == Encode(ms) + Frame(m)
  {
    if ms == [] {
      assert ms + [m] == [m] && [m][1..] == [];
    } else {
      assert (ms + [m])[1..] == ms[1..] + [m];
      EncodeAppend(ms[1..], m);
      assert Frame(ms[0]) + (Encode(ms[1..]) + Frame(m)) == (Frame(ms[0]) + Encode(ms[1..])) + Frame(m);
    }
  }

  /** The bytes tell the messages: no two sequences of messages look the same. */
  lemma {:induction false} EncodeTells(a: seq<seq<Byte>>, b: seq<seq<Byte>>)
    requires (forall m | m in a :: Sendable(m)) && (forall m | m in b :: Sendable(m)) && Encode(a) == Encode(b)
    ensures a == b
  {
    if a == [] || b == [] {
    } else {
      assert a[0] in a && b[0] in b;
      PrefixHoldsLength(|a[0]|);
      PrefixHoldsLength(|b[0]|);
      var bytes := Encode(a);
      assert bytes[..PREFIX] == Prefix(|a[0]|) && bytes[..PREFIX] == Prefix(|b[0]|);
      var n := PREFIX + |a[0]|;
      assert a[0] == bytes[PREFIX..n] && b[0] == bytes[PREFIX..n];
      assert Encode(a[1..]) == bytes[n..] && Encode(b[1..]) == bytes[n..];
      EncodeTells(a[1..], b[1..]);
      assert a == [a[0]] + a[1..] && b == [b[0]] + b[1..];
    }
  }

  /** The messages of a buffer: an empty one is never there. */
  predicate AllSendable(ms: seq<seq<Byte>>) {
    forall m | m in ms :: Sendable(m) && m != []
  }

  lemma Later(received: seq<seq<Byte>>, pending: seq<seq<Byte>>, m: seq<Byte>)
    ensures received + (pending + [m]) == (received + pending) + [m]
    ensures pending != [] ==> (pending + [m])[0] == pending[0]
  {
  }

  lemma Earlier(received: seq<seq<Byte>>, pending: seq<seq<Byte>>)
    requires pending != []
    ensures (received + [pending[0]]) + pending[1..] == received + pending
    ensures forall m | m in pending[1..] :: m in pending
  {
  }

  /** The bytes are in the buffer, from an index on. */
  ghost predicate Held(buf: array<Byte>, base: nat, bytes: seq<Byte>)
    requires base < buf.Length && |bytes| < buf.Length
    reads buf
  {
    forall k | 0 <= k < |bytes| :: buf[At(base, k, buf.Length)] == bytes[k]
  }

  lemma HeldJoin(buf: array<Byte>, base: nat, a: seq<Byte>, b: seq<Byte>)
    requires base < buf.Length && |a| + |b| < buf.Length
    requires Held(buf, base, a) && Held(buf, At(base, |a|, buf.Length), b)
    ensures Held(buf, base, a + b)
  {
    forall k | |a| <= k < |a| + |b|
      ensures buf[At(base, k, buf.Length)] == (a + b)[k]
    {
      AtAt(base, |a|, k - |a|, buf.Length);
    }
  }

  lemma HeldDrop(buf: array<Byte>, base: nat, a: seq<Byte>, b: seq<Byte>)
    requires base < buf.Length && |a| + |b| < buf.Length && Held(buf, base, a + b)
    ensures Held(buf, At(base, |a|, buf.Length), b)
  {
    forall k | 0 <= k < |b|
      ensures buf[At(At(base, |a|, buf.Length), k, buf.Length)] == b[k]
    {
      AtAt(base, |a|, k, buf.Length);
      assert (a + b)[|a| + k] == b[k];
    }
  }

  /** How far the sender is with its looks at the tail. */
  datatype Looks = NoLook | TailNoted | SpaceNoted | Settled

  /** A step of the sender or of the receiver. */
  datatype Step =
    | NoteTail | NoteSpace | Agree | StartSend(m: seq<Byte>) | WriteByte | FinishSend
    | StartReceive(room: nat) | ReadByte | FinishReceive

  /** What the two sides have done so far, and what they are at. */
  datatype View = View(looks: Looks, original: nat, seen: int, sending: bool, data: seq<Byte>, frame: seq<Byte>,
                       written: nat, receiving: bool, room: nat, got: seq<Byte>, tail: nat,
                       pending: seq<seq<Byte>>, sent: seq<seq<Byte>>, received: seq<seq<Byte>>) {
    /** What a step makes of it in a buffer of n bytes; one that is not due is skipped. */
    function Next(s: Step, n: nat): View {
      match s
      case NoteTail => if sending then this else this.(looks := TailNoted, original := tail)
      case NoteSpace =>
        if looks == TailNoted then this.(looks := SpaceNoted, seen := n - 1 - |Encode(pending)|) else this
      case Agree => if looks == SpaceNoted then this.(looks := if original == tail then Settled else NoLook) else this
      case StartSend(m) =>
        if sending || looks != Settled then this
        else if 4 + |m| > seen then this.(looks := NoLook)
        else this.(looks := NoLook, sending := true, data := m, frame := Frame(m), written := 0)
      case WriteByte => if sending && written < |frame| then this.(written := written + 1) else this
      case FinishSend =>
        var whole := if data == [] then [] else [data];
        if sending && written == |frame|
        then this.(sending := false, frame := [], written := 0, pending := pending + whole, sent := sent + whole)
        else this
      case StartReceive(r) =>
        if receiving || pending == [] then this else this.(receiving := true, room := r, got := [])
      case ReadByte =>
        if receiving && pending != [] && Due() then this.(got := got + [Frame(pending[0])[|got|]]) else this
      case FinishReceive =>
        if !receiving || pending == [] || Due() then this
        else if |pending[0]| > room then this.(receiving := false, got := [])
        else this.(receiving := false, got := [], pending := pending[1..], received := received + [pending[0]],
                   tail := if tail < n && 4 + |pending[0]| <= n then At(tail, 4 + |pending[0]|, n) else tail)
    }

    /** There is more of the oldest message to read: of its length, or of itself if
        there is room for it. */
    predicate Due()
      requires pending != []
    {
      |got| < 4 || (|pending[0]| <= room && |got| < 4 + |pending[0]|)
    }
  }

  lemma SendEnds(v: View, w: View, n: nat)
    requires v.sending && v.written == |v.frame|
    requires w.looks == v.looks && w.original == v.original && w.seen == v.seen && w.tail == v.tail && w.data == v.data
    requires w.receiving == v.receiving && w.room == v.room && w.got == v.got && w.received == v.received
    requires !w.sending && w.frame == [] && w.written == 0
    requires w.pending == if v.data == [] then v.pending else v.pending + [v.data]
    requires w.sent == if v.data == [] then v.sent else v.sent + [v.data]
    ensures w == v.Next(FinishSend, n)
  {
  }

  lemma ReceiveEnds(v: View, w: View, n: nat)
    requires v.receiving && v.pending != [] && !v.Due() && v.tail < n && 4 + |v.pending[0]| <= n
    requires w.looks == v.looks && w.original == v.original && w.seen == v.seen && w.data == v.data && w.sent == v.sent
    requires w.sending == v.sending && w.frame == v.frame && w.written == v.written && w.room == v.room
    requires !w.receiving && w.got == []
    requires var taken := |v.pending[0]| <= v.room;
      && w.tail == (if taken then At(v.tail, 4 + |v.pending[0]|, n) else v.tail)
      && w.pending == (if taken then v.pending[1..] else v.pending)
      && w.received == if taken then v.received + [v.pending[0]] else v.received
    ensures w == v.Next(FinishReceive, n)
  {
  }

  /** Each view is what the next step makes of the one before. */
  predicate Follows(views: seq<View>, steps: seq<Step>, n: nat) {
    |views| == |steps| + 1 && forall i | 0 <= i < |steps| :: views[i + 1] == views[i].Next(steps[i], n)
  }

  lemma FollowsOn(views: seq<View>, steps: seq<Step>, i: nat, v: View, n: nat)
    requires i < |steps| && Follows(views, steps[..i], n) && v == views[i].Next(steps[i], n)
    ensures Follows(views + [v], steps[..i + 1], n) && (views + [v])[0] == views[0]
  {
  }

  class Buffer {
    const buf: array<Byte>
    var head: nat
    var tail: nat
    /** The sender's looks: the tail it noted, the space it worked out, and what was
        free when it did. */
    var looks: Looks
    var original: nat
    var space: nat
    ghost var seen: nat
    /** The sender's message and its frame, while it writes, and how far it is. */
    var sending: bool
    var data: seq<Byte>
    var frame: seq<Byte>
    var written: nat
    /** The receiver's room, the bytes it saw and what it has read so far. */
    var receiving: bool
    var room: nat
    var available: nat
    var got: seq<Byte>
    /** The messages in the buffer, all that were sent and all that were received. */
    ghost var pending: seq<seq<Byte>>
    ghost var sent: seq<seq<Byte>>
    ghost var received: seq<seq<Byte>>

    /** The bytes from tail to head. */
    ghost var bytes: seq<Byte>

    /** They are those of the pending messages, which are sent and not received. */
    ghost predicate Messages()
      reads `pending, `sent, `received, `bytes
    {
      bytes == Encode(pending) && sent == received + pending && AllSendable(pending)
    }

    ghost predicate Stored()
      reads `bytes, `head, `tail, `frame, `written, buf
    {
      var n := buf.Length;
      && 0 < n < 0x8000_0000 && tail < n && |bytes| + |frame| < n && head == At(tail, |bytes|, n)
      && written <= |frame|
      && var stored, begun := Held(buf, tail, bytes), Held(buf, head, frame[..written]); stored && begun
    }

    ghost predicate Sender()
      reads `sending, `data, `frame
    {
      if sending then Sendable(data) && frame == Frame(data) else frame == []
    }

    /** The space worked out is what was free at that moment; as only the sender fills the
        buffer, there is no less now. */
    ghost predicate Looking()
      reads `looks, `space, `seen, `bytes, `sending, buf
    {
      && (sending ==> looks.NoLook?) && (looks.SpaceNoted? || looks.Settled? ==> |bytes| + seen < buf.Length)
      && (looks.SpaceNoted? ==> space == seen + 1 || space == seen + 1 + buf.Length)
      && (looks.Settled? ==> space == seen)
    }

    ghost predicate Receiver()
      reads `pending, `receiving, `available, `got, `room
    {
      receiving ==>
        && pending != [] && got <= Frame(pending[0]) && |Frame(pending[0])| <= available
        && (|got| > PREFIX ==> |pending[0]| <= room)
    }

    ghost predicate Valid()
      reads this, buf
    {
      var a, b, c, d, e := Messages(), Stored(), Sender(), Receiver(), Looking();
      a && b && c && d && e
    }

    ghost function Now(): View
      reads this
    {
      View(looks, original, seen, sending, data, frame, written, receiving, room, got, tail, pending, sent, received)
    }

    constructor (buf: array<Byte>)
      requires 0 < buf.Length < 0x8000_0000
      ensures Valid() && sent == [] && received == [] && !sending && !receiving && this.buf == buf
      ensures looks == NoLook
    {
      this.buf, head, tail := buf, 0, 0;
      looks, original, space, seen := NoLook, 0, 0, 0;
      sending, data, frame, written := false, [], [], 0;
      receiving, room, available, got := false, 0, 0, [];
      pending, sent, received, bytes := [], [], [], [];
    }

    /** prvBytesInBuffer */
    method BytesInBuffer() returns (count: nat)
      requires Valid()
      ensures count == |bytes|
    {
      count := buf.Length + head - tail;
      if count >= buf.Length {
        count := count - buf.Length;
      }
    }

    /** The first read of the tail in the loop of xStreamBufferSpacesAvailable. */
    method NoteTail()
      requires Valid() && !sending
      modifies `looks, `original
      ensures Valid() && looks == TailNoted && original == tail
      ensures Now() == old(Now()).Next(Step.NoteTail, buf.Length)
    {
      looks, original := TailNoted, tail;
    }

    /** The space is worked out from another read of the tail. */
    method NoteSpace()
      requires Valid() && looks == TailNoted
      modifies `looks, `space, `seen
      ensures Valid() && looks == SpaceNoted && seen == buf.Length - 1 - |bytes|
      ensures Now() == old(Now()).Next(Step.NoteSpace, buf.Length)
    {
      space := buf.Length + tail - head;
      looks, seen := SpaceNoted, buf.Length - 1 - |bytes|;
    }

    /** The test of the loop, and if the tail is as it was first, the rest: the space is
        what was free when it was worked out, and no more than is free now. */
    method Agree() returns (agreed: bool)
      requires Valid() && looks == SpaceNoted
      modifies `looks, `space
      ensures Valid() && (agreed <==> original == tail)
      ensures if agreed then looks == Settled && space == seen <= buf.Length - 1 - |bytes| else looks == NoLook
      ensures Now() == old(Now()).Next(Step.Agree, buf.Length)
    {
      agreed := original == tail;
      if agreed {
        space := space - 1;
        if space >= buf.Length {
          space := space - buf.Length;
        }
        looks := Settled;
      } else {
        looks := NoLook;
      }
    }

    /** xStreamBufferSpacesAvailable, with the receiver at rest: its loop runs once. */
    method SpacesAvailable() returns (available: nat)
      requires Valid() && !sending
      modifies `looks, `original, `space, `seen
      ensures Valid() && looks == Settled && available == space == seen == buf.Length - 1 - |bytes|
    {
      NoteTail();
      NoteSpace();
      var agreed := Agree();
      available := space;
    }

    /** xStreamBufferSend as far as prvWriteMessageToBuffer's look at the space, of which
        there may be more by now. A message that does not fit is not begun. */
    method StartSend(m: seq<Byte>) returns (fits: bool)
      requires Valid() && !sending && looks == Settled && Sendable(m)
      modifies `looks, `sending, `data, `frame, `written
      ensures var valid := Valid(); valid && sending == fits && looks == NoLook
      ensures fits <==> 4 + |m| <= seen
      ensures fits ==> 4 + |m| + |bytes| < buf.Length && data == m && written == 0
      ensures fits ==> var n := |m|;
        frame == [n % 256, n / 0x100 % 256, n / 0x1_0000 % 256, n / 0x100_0000 % 256] + m
      ensures Now() == old(Now()).Next(Step.StartSend(m), buf.Length)
    {
      fits := space >= PREFIX + |m|;
      looks := NoLook;
      if fits {
        sending, data, frame, written := true, m, Frame(m), 0;
      }
    }

    /** One byte of prvWriteBytesToBuffer, of the length or of the message. */
    method WriteByte()
      requires Valid() && sending && written < |frame|
      modifies `written, buf
      ensures var valid := Valid(); valid && written == old(written) + 1
      ensures Now() == old(Now()).Next(Step.WriteByte, buf.Length)
    {
      ghost var n, used := buf.Length, |bytes|;
      AtAt(tail, used, written, n);
      assert frame[..written + 1][..written] == frame[..written];
      forall k | 0 <= k < used
        ensures At(tail, k, n) != At(head, written, n)
      {
        AtApart(tail, k, used + written, n);
      }
      forall j | 0 <= j < written
        ensures At(head, j, n) != At(head, written, n)
      {
        AtApart(head, j, written, n);
      }
      buf[At(head, written, buf.Length)] := frame[written];
      written := written + 1;
    }

    /** The end of prvWriteMessageToBuffer: the head moves past the message, except that
        an empty message leaves no trace. */
    method FinishSend() returns (length: nat)
      requires Valid() && sending && written == |frame|
      modifies `sending, `frame, `written, `head, `pending, `sent, `bytes
      ensures var valid := Valid(); valid && !sending && length == |data|
      ensures pending == if data == [] then old(pending) else old(pending) + [data]
      ensures sent == if data == [] then old(sent) else old(sent) + [data]
      ensures Now() == old(Now()).Next(Step.FinishSend, buf.Length)
    {
      ghost var was := Now();
      length := Commit();
      SendEnds(was, Now(), buf.Length);
    }

    method Commit() returns (length: nat)
      requires Valid() && sending && written == |frame|
      modifies `sending, `frame, `written, `head, `pending, `sent, `bytes
      ensures var valid := Valid(); valid && !sending && length == |data| && frame == [] && written == 0
      ensures pending == if data == [] then old(pending) else old(pending) + [data]
      ensures sent == if data == [] then old(sent) else old(sent) + [data]
    {
      length := |data|;
      if length != 0 {
        MoveHead(length);
        Enqueue(data);
      } else {
        assert frame[..0] == [];
        frame, written := [], 0;
      }
      sending := false;
    }

    ghost method Enqueue(m: seq<Byte>)
      requires Sendable(m) && m != [] && AllSendable(pending)
      requires sent == received + pending && bytes == Encode(pending) + Frame(m)
      modifies `pending, `sent
      ensures Messages() && pending == old(pending) + [m] && sent == old(sent) + [m]
      ensures old(pending) != [] ==> pending[0] == old(pending[0])
    {
      EncodeAppend(pending, m);
      Later(received, pending, m);
      pending, sent := pending + [m], sent + [m];
    }

    ghost method Dequeue()
      requires pending != [] && AllSendable(pending)
      requires sent == received + pending && bytes == Encode(pending[1..])
      modifies `pending, `received
      ensures Messages() && pending == old(pending[1..]) && received == old(received + [pending[0]])
    {
      Earlier(received, pending);
      received, pending := received + [pending[0]], pending[1..];
    }

    method MoveHead(length: nat)
      requires Stored() && written == |frame| == PREFIX + length
      modifies `head, `bytes, `frame, `written
      ensures Stored() && bytes == old(bytes + frame) && frame == [] && written == 0
    {
      assert frame[..written] == frame;
      HeldJoin(buf, tail, bytes, frame);
      AtAt(tail, |bytes|, PREFIX, buf.Length);
      AtAt(tail, |bytes| + PREFIX, length, buf.Length);
      head := NextIndex(NextIndex(head, PREFIX), length);
      bytes := bytes + frame;
      frame, written := [], 0;
    }

    /** How prvWriteBytesToBuffer and prvReadBytesFromBuffer move an index. */
    function NextIndex(i: nat, count: nat): (r: nat)
      reads this
      requires i < buf.Length && count < buf.Length
      ensures r == At(i, count, buf.Length)
    {
      var next := i + count;
      if next >= buf.Length then next - buf.Length else next
    }

    lemma WhatIsThere()
      requires Messages()
      ensures if pending == [] then bytes == [] else |bytes| >= |Frame(pending[0])| > PREFIX
    {
      if pending != [] {
        assert pending[0] in pending && bytes == Frame(pending[0]) + Encode(pending[1..]);
      }
    }

    /** xStreamBufferReceive up to its look at the bytes available. */
    method StartReceive(room: nat) returns (any: bool)
      requires Valid() && !receiving
      modifies `receiving, `room, `available, `got
      ensures var valid := Valid(); valid && receiving == any && (any <==> pending != [])
      ensures any ==> this.room == room && got == []
      ensures Now() == old(Now()).Next(Step.StartReceive(room), buf.Length)
    {
      var count := BytesInBuffer();
      any := count > PREFIX;
      WhatIsThere();
      if any {
        receiving, this.room, available, got := true, room, count, [];
      }
    }

    /** Whether there is another byte to read: of the length, or of a message for which
        the receiver has room. */
    function Reading(): bool
      reads this
    {
      |got| < PREFIX || (|got| - PREFIX < LengthOf(got) <= room && |got| < available)
    }

    /** One byte of prvReadBytesFromBuffer. */
    method ReadByte()
      requires Valid() && receiving && Reading()
      modifies `got
      ensures var valid := Valid(); valid && |got| == |old(got)| + 1
      ensures Now() == old(Now()).Next(Step.ReadByte, buf.Length)
    {
      OldestFirst();
      got := got + [buf[At(tail, |got|, buf.Length)]];
    }

    lemma OldestFirst()
      requires Valid() && receiving
      ensures bytes == Frame(pending[0]) + Encode(pending[1..])
      ensures |got| >= PREFIX ==> LengthOf(got) == |pending[0]|
    {
      PrefixHoldsLength(|pending[0]|);
      assert |got| >= PREFIX ==> got[..PREFIX] == Frame(pending[0])[..PREFIX] == Prefix(|pending[0]|);
    }

    /** All that there is to read has been read: the length, or the whole message too if
        there is room for it. */
    lemma AllRead()
      requires Valid() && receiving && !Reading()
      ensures |got| >= PREFIX && LengthOf(got) == |pending[0]|
      ensures |pending[0]| <= room ==> got == Frame(pending[0]) && got[PREFIX..] == pending[0]
      ensures |pending[0]| > room ==> got[PREFIX..] == []
    {
      OldestFirst();
    }

    /** The oldest message leaves the buffer. */
    method Deliver(ghost m: seq<Byte>, count: nat)
      requires Messages() && Stored() && Sender() && pending != [] && m == pending[0] && count == |m|
      modifies `tail, `bytes, `pending, `received
      ensures Messages() && Stored() && Sender()
      ensures pending == old(pending[1..]) && received == old(received) + [m]
      ensures tail == At(old(tail), 4 + count, buf.Length)
    {
      ghost var rest := pending[1..];
      assert bytes == Frame(m) + Encode(rest);
      MoveTail(count, Frame(m), Encode(rest));
      Dequeue();
    }

    /** The end of prvReadMessageFromBuffer. The oldest message is received whole; one
        for which there is not enough room stays where it is. */
    method FinishReceive() returns (m: seq<Byte>)
      requires Valid() && receiving && !Reading()
      modifies `receiving, `got, `tail, `pending, `received, `bytes
      ensures var valid := Valid(); valid && !receiving
      ensures if |old(pending[0])| <= room then m == old(pending[0]) && pending == old(pending[1..])
              else m == [] && pending == old(pending)
      ensures received == if |old(pending[0])| <= room then old(received) + [m] else old(received)
      ensures Now() == old(Now()).Next(Step.FinishReceive, buf.Length)
    {
      ghost var was := Now();
      WhatIsLeft();
      m := Release();
      ReceiveEnds(was, Now(), buf.Length);
    }

    method Release() returns (m: seq<Byte>)
      requires Valid() && receiving && !Reading()
      modifies `receiving, `got, `tail, `pending, `received, `bytes
      ensures var valid := Valid(); valid && !receiving && got == []
      ensures if |old(pending[0])| <= room then m == old(pending[0]) && pending == old(pending[1..])
              else m == [] && pending == old(pending)
      ensures received == if |old(pending[0])| <= room then old(received) + [m] else old(received)
      ensures 4 + |old(pending[0])| < buf.Length
      ensures tail == if |old(pending[0])| <= room then At(old(tail), 4 + |m|, buf.Length) else old(tail)
    {
      AllRead();
      m := got[PREFIX..];
      if LengthOf(got) <= room {
        Deliver(m, |m|);
      }
      receiving, got := false, [];
    }

    method MoveTail(count: nat, ghost read: seq<Byte>, ghost rest: seq<Byte>)
      requires Stored() && bytes == read + rest && |read| == PREFIX + count
      modifies `tail, `bytes
      ensures Stored() && bytes == rest && tail == At(old(tail), 4 + count, buf.Length)
    {
      HeldDrop(buf, tail, read, rest);
      AtAt(tail, PREFIX, count, buf.Length);
      AtAt(tail, |read|, |rest|, buf.Length);
      tail := NextIndex(NextIndex(tail, PREFIX), count);
      bytes := rest;
    }

    /** One step of the sender, if it is due. */
    method PerformSend(s: Step)
      requires !s.StartReceive? && !s.ReadByte? && !s.FinishReceive?
      requires Valid() && (s.StartSend? ==> Sendable(s.m))
      modifies this, buf
      ensures var valid := Valid(); valid && Now() == old(Now()).Next(s, buf.Length)
      ensures old(sent) <= sent && old(received) <= received
    {
      match s {
        case NoteTail => if !sending { NoteTail(); }
        case NoteSpace => if looks == TailNoted { NoteSpace(); }
        case Agree => if looks == SpaceNoted { var agreed := Agree(); }
        case StartSend(m) => if !sending && looks == Settled { var fits := StartSend(m); }
        case WriteByte => if sending && written < |frame| { WriteByte(); }
        case FinishSend => if sending && written == |frame| { var n := FinishSend(); }
      }
    }

    /** One step of the receiver, if it is due. */
    method PerformReceive(s: Step)
      requires s.StartReceive? || s.ReadByte? || s.FinishReceive?
      requires Valid()
      modifies this, buf
      ensures var valid := Valid(); valid && Now() == old(Now()).Next(s, buf.Length)
      ensures old(sent) <= sent && old(received) <= received
    {
      if receiving {
        WhatIsLeft();
      }
      match s {
        case StartReceive(room) => if !receiving { var any := StartReceive(room); }
        case ReadByte => if receiving && Reading() { ReadByte(); }
        case FinishReceive => if receiving && !Reading() { var m := FinishReceive(); }
      }
    }

    method Perform(s: Step)
      requires Valid() && (s.StartSend? ==> Sendable(s.m))
      modifies this, buf
      ensures var valid := Valid(); valid && Now() == old(Now()).Next(s, buf.Length)
      ensures old(sent) <= sent && old(received) <= received
    {
      if s.StartReceive? || s.ReadByte? || s.FinishReceive? {
        PerformReceive(s);
      } else {
        PerformSend(s);
      }
    }

    lemma WhatIsLeft()
      requires Valid() && receiving
      ensures pending != [] && (Reading() <==> Now().Due())
    {
      OldestFirst();
    }

    /** However the steps of the two sides interleave, each is performed when it is due,
        and the messages received are the first of those sent, whole and in order. The
        ghost result is how things stood between the steps. */
    method Interleave(steps: seq<Step>) returns (ghost views: seq<View>)
      requires Valid() && forall s | s in steps && s.StartSend? :: Sendable(s.m)
      modifies this, buf
      ensures var valid := Valid(); valid && old(sent) <= sent && old(received) <= received <= sent
      ensures |views| == |steps| + 1 && views[0] == old(Now()) && views[|steps|] == Now()
      ensures forall i | 0 <= i < |steps| :: views[i + 1] == views[i].Next(steps[i], buf.Length)
    {
      var i := 0;
      views := [Now()];
      while i < |steps|
        invariant 0 <= i <= |steps| && old(sent) <= sent && old(received) <= received && var valid := Valid(); valid
        invariant |views| == i + 1 && views[0] == old(Now()) && views[i] == Now()
        invariant var follows := Follows(views, steps[..i], buf.Length); follows
      {
        assert steps[i] in steps;
        Perform(steps[i]);
        FollowsOn(views, steps, i, Now(), buf.Length);
        views := views + [Now()];
        i := i + 1;
      }
      assert steps[..i] == steps;
    }
  }
}
