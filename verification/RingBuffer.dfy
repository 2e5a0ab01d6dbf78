/** ringbuffer.c: a ring that one producer and one consumer share without a lock. */
module RingBuffer {
  /** Positions are counted modulo the width of an unsigned int. */
  const WRAP := 0x1_0000_0000

  function Pow2(e: nat): nat {
    if e == 0 then 1 else 2 * Pow2(e - 1)
  }

  predicate PowerOfTwo(n: nat) {
    exists e: nat :: e <= 31 && n == Pow2(e)
  }

  lemma {:induction false} Pow2Split(e: nat, n: nat)
    requires e <= n
    ensures Pow2(n) == Pow2(n - e) * Pow2(e)
  {
    if e == 0 {
    } else {
      Pow2Split(e - 1, n - 1);
      Regroup(Pow2(n - e), Pow2(e - 1));
    }
  }

  lemma Regroup(a: int, b: int)
    ensures 2 * (a * b) == a * (2 * b)
  {
  }

  lemma {:induction false} Pow2Grows(e: nat, n: nat)
    requires e <= n
    ensures 0 < Pow2(e) <= Pow2(n)
  {
    if e < n {
      Pow2Grows(e, n - 1);
    } else if e > 0 {
      Pow2Grows(e - 1, e - 1);
    }
  }

  lemma Pow2Constants()
    ensures Pow2(32) == WRAP && Pow2(31) == 0x8000_0000
  {
    assert Pow2(4) == 16;
    Pow2Split(4, 8);
    Pow2Split(8, 16);
    Pow2Split(16, 32);
    assert Pow2(32) == 2 * Pow2(31);
  }

  /** A capacity that is a power of two divides the range of the positions. */
  lemma DividesWrap(cap: nat) returns (q: nat)
    requires PowerOfTwo(cap)
    ensures 0 < cap <= 0x8000_0000 && WRAP == q * cap
  {
    var e: nat :| e <= 31 && cap == Pow2(e);
    Pow2Constants();
    Pow2Split(e, 32);
    Pow2Grows(e, 31);
    q := Pow2(32 - e);
  }

  /** The difference of two positions, as unsigned arithmetic has it. */
  function Gap(a: int, b: int): int {
    (a - b) % WRAP
  }

  lemma GapIs(a: nat, b: nat)
    requires b <= a < b + WRAP
    ensures Gap(a % WRAP, b % WRAP) == a - b
  {
  }

  lemma SmallGap(a: nat, b: nat)
    requires b <= a < WRAP
    ensures Gap(a, b) == a - b
  {
  }

  lemma Advance(a: nat, n: nat)
    ensures (a % WRAP + n) % WRAP == (a + n) % WRAP
  {
  }

  /** Where the j-th item of a copy goes that starts at a position: up to the end of
      the buffer, and then on from its beginning. */
  function Slot(pos: int, j: int, cap: nat): int
    requires cap > 0
  {
    var off := pos % cap;
    if j < cap - off then off + j else j - (cap - off)
  }

  lemma MultipleMod(k: int, cap: nat, x: int)
    requires cap > 0
    ensures (k * cap + x) % cap == x % cap
  {
    var m := x / cap;
    assert x == m * cap + x % cap;
    var y := k * cap + x;
    Unique(y, cap, k + m, x % cap);
  }

  lemma AtLeast(a: int, c: nat)
    requires a >= 1
    ensures a * c >= c
  {
  }

  lemma Difference(d: int, e: int, c: int)
    ensures (d - e) * c == d * c - e * c
  {
  }

  lemma DivMod(y: int, cap: nat)
    requires cap > 0
    ensures y == (y / cap) * cap + y % cap && 0 <= y % cap < cap
  {
  }

  lemma Unique(y: int, cap: nat, d: int, r: int)
    requires 0 <= r < cap && y == d * cap + r
    ensures y % cap == r
  {
    var e := y / cap;
    DivMod(y, cap);
    Difference(d, e, cap);
    Difference(e, d, cap);
    if d > e {
      AtLeast(d - e, cap);
    } else if e > d {
      AtLeast(e - d, cap);
    }
  }

  /** A position that has wrapped has the offset that it would have had without. */
  lemma SameOffset(count: nat, cap: nat)
    requires PowerOfTwo(cap)
    ensures cap > 0 && count % cap == (count % WRAP) % cap
  {
    var q := DividesWrap(cap);
    var w := count / WRAP;
    DivMod(count, WRAP);
    Rewrap(w, q, cap);
    MultipleMod(w * q, cap, count % WRAP);
  }

  lemma SlotFrom(count: nat, j: nat, cap: nat, off: int)
    requires j < cap && off == count % cap
    ensures (count + j) % cap == if j < cap - off then off + j else j - (cap - off)
  {
    DivMod(count, cap);
    if j < cap - off {
      Unique(count + j, cap, count / cap, off + j);
    } else {
      Difference(count / cap + 1, count / cap, cap);
      Unique(count + j, cap, count / cap + 1, j - (cap - off));
    }
  }

  /** The items of a copy land one after the other, modulo the capacity, also when the
      position has wrapped. */
  lemma SlotIs(count: nat, j: nat, cap: nat)
    requires PowerOfTwo(cap) && j < cap
    ensures cap > 0 && Slot(count % WRAP, j, cap) == (count + j) % cap
  {
    SameOffset(count, cap);
    SlotFrom(count, j, cap, count % cap);
  }

  lemma Rewrap(w: int, q: int, cap: int)
    ensures w * (q * cap) == (w * q) * cap
  {
  }

  /** Items less than a capacity apart are in different slots. */
  lemma Apart(a: nat, b: nat, cap: nat)
    requires a < b < a + cap
    ensures a % cap != b % cap
  {
    DivMod(a, cap);
    var d := b - a;
    if a % cap + d < cap {
      Unique(b, cap, a / cap, a % cap + d);
    } else {
      Difference(a / cap + 1, a / cap, cap);
      Unique(b, cap, a / cap + 1, a % cap + d - cap);
    }
  }

  /** From the position `from` on, the items are in their slots. */
  ghost predicate Held<T>(buf: array<T>, from: nat, items: seq<T>)
    requires buf.Length > 0
    reads buf
  {
    forall k | from <= k < |items| :: buf[k % buf.Length] == items[k]
  }

  /** So are the first `copied` of the items that follow. */
  ghost predicate Begun<T>(buf: array<T>, from: nat, items: seq<T>, copied: nat)
    requires buf.Length > 0 && copied <= |items|
    reads buf
  {
    forall j | 0 <= j < copied :: buf[(from + j) % buf.Length] == items[j]
  }

  lemma HeldJoin<T>(buf: array<T>, from: nat, put: seq<T>, input: seq<T>)
    requires buf.Length > 0 && from <= |put|
    requires Held(buf, from, put) && Begun(buf, |put|, input, |input|)
    ensures Held(buf, from, put + input)
  {
    forall k | from <= k < |put + input|
      ensures buf[k % buf.Length] == (put + input)[k]
    {
      if k >= |put| {
        var j := k - |put|;
        assert k == |put| + j && (put + input)[k] == input[j];
      }
    }
  }

  lemma PrefixGrows<T>(output: seq<T>, taken: seq<T>, put: seq<T>, input: seq<T>)
    requires taken <= put && output <= put[|taken|..]
    ensures taken <= put + input && output <= (put + input)[|taken|..]
  {
    assert (put + input)[|taken|..] == put[|taken|..] + input;
  }

  /** A step of the producer or of the consumer. */
  datatype Step<T> = StartIn(items: seq<T>) | CopyIn | Publish | StartOut(n: nat) | CopyOut | Consume

  /** What the two sides have done so far, and what they are at. */
  datatype View<T> = View(put: seq<T>, taken: seq<T>, putting: bool, input: seq<T>, copied: nat,
                          getting: bool, wanted: nat, output: seq<T>) {
    /** What a step makes of it in a ring of `cap` slots; one that is not due is skipped. */
    function Next(s: Step<T>, cap: int): View<T> {
      match s
      case StartIn(items) =>
        var room := cap - |put| + |taken|;
        if putting then this
        else this.(putting := true, copied := 0, input := if 0 <= room < |items| then items[..room] else items)
      case CopyIn => if putting && copied < |input| then this.(copied := copied + 1) else this
      case Publish =>
        if putting && copied == |input| then this.(put := put + input, putting := false, input := [], copied := 0)
        else this
      case StartOut(n) =>
        if getting then this
        else
          this.(getting := true, output := [], wanted := if |taken| <= |put| < |taken| + n then |put| - |taken| else n)
      case CopyOut =>
        var k := |taken| + |output|;
        if getting && |output| < wanted && k < |put| then this.(output := output + [put[k]]) else this
      case Consume =>
        if getting && |output| == wanted
        then this.(taken := taken + output, getting := false, wanted := 0, output := []) else this
    }
  }

  /** Each view is what the next step makes of the one before. */
  ghost predicate Follows<T>(views: seq<View<T>>, steps: seq<Step<T>>, cap: int) {
    |views| == |steps| + 1 && forall i | 0 <= i < |steps| :: views[i + 1] == views[i].Next(steps[i], cap)
  }

  lemma FollowsOn<T>(views: seq<View<T>>, steps: seq<Step<T>>, i: nat, v: View<T>, cap: int)
    requires i < |steps| && Follows(views, steps[..i], cap) && v == views[i].Next(steps[i], cap)
    ensures Follows(views + [v], steps[..i + 1], cap) && (views + [v])[0] == views[0]
  {
  }

  class Ringbuf<T(0)> {
    const cap: nat
    const buf: array<T>
    var writePos: int
    var readPos: int
    /** The producer's item count and items, while it copies them in, and how far it is. */
    var putting: bool
    var input: seq<T>
    var copied: nat
    /** The consumer's item count, while it copies them out, and what it has. */
    var getting: bool
    var wanted: nat
    var output: seq<T>
    /** All the items put in and all the items taken out so far. */
    ghost var put: seq<T>
    ghost var taken: seq<T>

    ghost predicate Valid()
      reads this, buf
    {
      && PowerOfTwo(cap) && cap == buf.Length && cap > 0 && taken <= put && copied <= |input|
      && var positions, room := writePos == |put| % WRAP && readPos == |taken| % WRAP, |put| + |input| <= |taken| + cap;
         var producer := !putting ==> input == [];
         var consumer := output <= put[|taken|..] && |output| <= wanted <= |put| - |taken|;
         var resting := !getting ==> wanted == 0;
         var stored, begun := Held(buf, |taken|, put), Begun(buf, |put|, input, copied);
         positions && room && producer && consumer && resting && stored && begun
    }

    ghost function Now(): View<T>
      reads this
    {
      View(put, taken, putting, input, copied, getting, wanted, output)
    }

    /** ringbuf_init, with a buffer of a capacity that is a power of two. */
    constructor (buf: array<T>)
      requires PowerOfTwo(buf.Length)
      ensures Valid() && put == [] && taken == [] && !putting && !getting && this.buf == buf
    {
      var q := DividesWrap(buf.Length);
      cap, this.buf, writePos, readPos := buf.Length, buf, 0, 0;
      putting, input, copied := false, [], 0;
      getting, wanted, output := false, 0, [];
      put, taken := [], [];
    }

    /** ringbuf_in up to the copy: the producer loads the positions. The consumer's may
        be out of date by the time it is used. */
    method StartIn(items: seq<T>)
      requires Valid() && !putting && |items| < WRAP
      modifies `putting, `input, `copied
      ensures var valid := Valid(); valid && putting && copied == 0
      ensures input == items[..if |items| > cap - (|put| - |taken|) then cap - (|put| - |taken|) else |items|]
      ensures Now() == old(Now()).Next(Step.StartIn(items), cap)
    {
      var q := DividesWrap(cap);
      GapIs(|put|, |taken|);
      SmallGap(cap, |put| - |taken|);
      var avail := Gap(cap, Gap(writePos, readPos));
      putting, copied := true, 0;
      input := if |items| > avail then items[..avail] else items;
    }

    /** One item of ringbuf_copy_in. */
    method CopyIn()
      requires Valid() && putting && copied < |input|
      modifies `copied, buf
      ensures Valid() && copied == old(copied) + 1
      ensures Now() == old(Now()).Next(Step.CopyIn, cap)
    {
      SlotIs(|put|, copied, cap);
      forall k | |taken| <= k < |put| + copied
        ensures k % cap != (|put| + copied) % cap
      {
        Apart(k, |put| + copied, cap);
      }
      buf[Slot(writePos, copied, cap)] := input[copied];
      copied := copied + 1;
    }

    /** The end of ringbuf_in: the items become visible to the consumer. */
    method Publish() returns (n: nat)
      requires Valid() && putting && copied == |input|
      modifies `writePos, `putting, `input, `copied, `put
      ensures var valid := Valid(); valid && !putting && n == |old(input)| && put == old(put) + old(input)
      ensures Now() == old(Now()).Next(Step.Publish, cap)
    {
      n := |input|;
      HeldJoin(buf, |taken|, put, input);
      PrefixGrows(output, taken, put, input);
      Advance(|put|, n);
      writePos := (writePos + n) % WRAP;
      put := put + input;
      putting, input, copied := false, [], 0;
    }

    /** ringbuf_out up to the copy: the consumer loads the positions. */
    method StartOut(n: nat)
      requires Valid() && !getting
      modifies `getting, `wanted, `output
      ensures var valid := Valid(); valid && getting && output == []
      ensures wanted == if n > |put| - |taken| then |put| - |taken| else n
      ensures Now() == old(Now()).Next(Step.StartOut(n), cap)
    {
      var q := DividesWrap(cap);
      GapIs(|put|, |taken|);
      var used := Gap(writePos, readPos);
      getting, output := true, [];
      wanted := if n > used then used else n;
    }

    /** One item of ringbuf_copy_out. */
    method CopyOut()
      requires Valid() && getting && |output| < wanted
      modifies `output
      ensures var valid := Valid(); valid && output == old(output) + [put[|taken| + |old(output)|]]
      ensures Now() == old(Now()).Next(Step.CopyOut, cap)
    {
      SlotIs(|taken|, |output|, cap);
      output := output + [buf[Slot(readPos, |output|, cap)]];
    }

    /** The end of ringbuf_out: the producer may use the slots again. */
    method Consume() returns (items: seq<T>)
      requires Valid() && getting && |output| == wanted
      modifies `readPos, `getting, `wanted, `output, `taken
      ensures var valid := Valid(); valid && !getting && items == old(output) && taken == old(taken) + items
      ensures Now() == old(Now()).Next(Step.Consume, cap)
    {
      items := output;
      assert taken + output == put[..|taken| + wanted];
      assert taken + output <= put && |taken + output| == |taken| + wanted;
      Advance(|taken|, wanted);
      readPos := (readPos + wanted) % WRAP;
      taken := taken + output;
      getting, wanted, output := false, 0, [];
    }

    /** ringbuf_in, with the consumer at rest: what there is room for is put in. */
    method In(items: seq<T>) returns (n: nat)
      requires Valid() && !putting && |items| < WRAP
      modifies this, buf
      ensures Valid() && !putting && taken == old(taken) && getting == old(getting) && output == old(output)
      ensures n == if |items| > cap - |old(put[|taken|..])| then cap - |old(put[|taken|..])| else |items|
      ensures put == old(put) + items[..n]
    {
      StartIn(items);
      while copied < |input|
        invariant Valid() && putting && put == old(put) && taken == old(taken)
        invariant |input| <= |items| && input == items[..|input|] && getting == old(getting) && output == old(output)
        invariant |input| == if |items| > cap - (|put| - |taken|) then cap - (|put| - |taken|) else |items|
      {
        CopyIn();
      }
      n := Publish();
    }

    /** ringbuf_out, with the producer at rest: the oldest items come out. */
    method Out(n: nat) returns (items: seq<T>)
      requires Valid() && !getting
      modifies this
      ensures var valid := Valid(); valid && !getting && put == old(put) && putting == old(putting)
      ensures |items| == if n > |old(put[|taken|..])| then |old(put[|taken|..])| else n
      ensures items == old(put[|taken|..])[..|items|] && taken == old(taken) + items
    {
      StartOut(n);
      while |output| < wanted
        invariant Valid() && getting && put == old(put) && taken == old(taken) && putting == old(putting)
        invariant wanted == if n > |put| - |taken| then |put| - |taken| else n
      {
        CopyOut();
      }
      items := Consume();
    }

    /** One step, if it is due. */
    method Perform(s: Step<T>)
      requires Valid() && (s.StartIn? ==> |s.items| < WRAP)
      modifies this, buf
      ensures var valid := Valid(); valid && Now() == old(Now()).Next(s, cap) && old(put) <= put && old(taken) <= taken
    {
      match s {
        case StartIn(items) => if !putting { StartIn(items); }
        case CopyIn => if putting && copied < |input| { CopyIn(); }
        case Publish => if putting && copied == |input| { var n := Publish(); }
        case StartOut(n) => if !getting { StartOut(n); }
        case CopyOut => if getting && |output| < wanted { CopyOut(); }
        case Consume => if getting && |output| == wanted { var items := Consume(); }
      }
    }

    /** However the steps of the two sides interleave, each is performed when it is due,
        what has been taken out is a prefix of what was put in, and no more than the
        capacity is in between. The ghost result is how things stood between the steps. */
    method Interleave(steps: seq<Step<T>>) returns (ghost views: seq<View<T>>)
      requires Valid() && forall s | s in steps && s.StartIn? :: |s.items| < WRAP
      modifies this, buf
      ensures var valid := Valid(); valid && old(put) <= put && old(taken) <= taken
      ensures taken <= put && |put| - |taken| <= cap
      ensures |views| == |steps| + 1 && views[0] == old(Now()) && views[|steps|] == Now()
      ensures forall i | 0 <= i < |steps| :: views[i + 1] == views[i].Next(steps[i], cap)
    {
      var i := 0;
      views := [Now()];
      while i < |steps|
        invariant 0 <= i <= |steps| && old(put) <= put && old(taken) <= taken && var valid := Valid(); valid
        invariant |views| == i + 1 && views[0] == old(Now()) && views[i] == Now()
        invariant var follows := Follows(views, steps[..i], cap); follows
      {
        assert steps[i] in steps;
        Perform(steps[i]);
        FollowsOn(views, steps, i, Now(), cap);
        views := views + [Now()];
        i := i + 1;
      }
      assert steps[..i] == steps;
    }
  }
}
