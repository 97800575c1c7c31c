// ringBuff.c: free-running 32-bit counters over a buffer of fixed-size elements.
module RingBuffer {
  import opened Grid
  import opened Options
  import opened WordBits
  import opened Words

  // rb_attr_t; a null buffer is one of the cases ring_buffer_init refuses.
  datatype Attr = Attr(s_elem: uint32, n_elem: uint32, buffer: array?<uint8>)

  // Number of unread elements, and the slot the i-th of them is stored in.
  function Count(head: uint32, tail: uint32): uint32 { Wrap32(head - tail) }

  function SlotOf(counter: nat, n: nat): (slot: nat)
    requires n >= 1
    ensures slot < n
  {
    DivModOf(counter, n);
    counter % n
  }

  ghost predicate ValidSize(n: uint32) {
    n == 0 || IsPow2(n)
  }

  function Slot(bytes: seq<uint8>, n: nat, s: nat, j: nat): (r: seq<uint8>)
    requires |bytes| == n * s && j < n
    ensures |r| == s
  {
    SlotInRange(n, s, j);
    bytes[j * s..j * s + s]
  }

  // The buffer as its n slots.
  function Slots(bytes: seq<uint8>, n: nat, s: nat): (slots: seq<seq<uint8>>)
    requires |bytes| == n * s
    ensures |slots| == n
  {
    seq(n, j requires 0 <= j < n => Slot(bytes, n, s, j))
  }

  // The `count` elements from counter `tail` on, oldest first.
  function Unread<T>(slots: seq<T>, tail: nat, count: nat): (r: seq<T>)
    requires count <= |slots|
    ensures |r| == count
  {
    if count == 0 then [] else Unread(slots, tail, count - 1) + [slots[SlotOf(tail + (count - 1), |slots|)]]
  }

  function Overwrite(bytes: seq<uint8>, offset: nat, data: seq<uint8>): (r: seq<uint8>)
    requires offset + |data| <= |bytes|
    ensures |r| == |bytes|
  {
    bytes[..offset] + data + bytes[offset + |data|..]
  }

  class Ring {
    var s_elem: uint32
    var n_elem: uint32
    var buf: array<uint8>
    var head: uint32
    var tail: uint32

    ghost predicate Valid()
      reads this, buf
    {
      ValidRing(buf[..], n_elem, s_elem, head, tail)
    }

    // The unread elements, oldest first.
    ghost function Contents(): (c: seq<seq<uint8>>)
      requires Valid()
      reads this, buf
      ensures |c| == Count(head, tail)
    {
      UnreadBytes(buf[..], n_elem, s_elem, head, tail)
    }

    constructor ()
      ensures Valid() && n_elem == 0 && fresh(buf)
    {
      s_elem, n_elem, head, tail := 1, 0, 0, 0;
      buf := new uint8[0];
    }

    // The caller's buffer, if there is one, has room for n_elem elements of s_elem bytes.
    method Init(attr: Option<Attr>) returns (err: int)
      requires attr.Some? && attr.value.buffer != null ==> attr.value.buffer.Length == attr.value.n_elem * attr.value.s_elem
      modifies this
      ensures err == if attr.Some? && attr.value.buffer != null && attr.value.s_elem > 0 && ValidSize(attr.value.n_elem)
                     then 0 else -1
      ensures err == 0 ==> n_elem == attr.value.n_elem && s_elem == attr.value.s_elem && buf == attr.value.buffer
      ensures err == 0 ==> Valid() && Contents() == []
      ensures err != 0 ==> unchanged(this)
    {
      err := -1;
      if attr.Some? {
        var Attr(s, n, buffer) := attr.value;
        if buffer != null && s > 0 {
          SizeTest(n);
          if WordAnd(Wrap32(n - 1), n) == 0 {
            head, tail := 0, 0;
            buf, s_elem, n_elem := buffer, s, n;
            err := 0;
          }
        }
      }
    }

    method Put(data: seq<uint8>) returns (err: int)
      requires Valid() && |data| == s_elem
      modifies this`head, buf
      ensures Valid()
      ensures err == if |old(Contents())| < n_elem then 0 else -1
      ensures Contents() == if err == 0 then old(Contents()) + [data] else old(Contents())
    {
      if Count(head, tail) == n_elem { return -1; }
      MaskedCounter(head, n_elem);
      var slot := WordAnd(head, n_elem - 1);
      SlotInRange(n_elem, s_elem, slot);
      var offset := slot * s_elem;
      PutStep(buf[..], n_elem, s_elem, head, tail, data);
      CopyIn(offset, data);
      head := Wrap32(head + 1);
      err := 0;
    }

    method Get() returns (err: int, data: seq<uint8>)
      requires Valid()
      modifies this`tail
      ensures Valid()
      ensures err == if old(Contents()) == [] then -1 else 0
      ensures err == 0 ==> data == old(Contents())[0] && Contents() == old(Contents())[1..]
      ensures err != 0 ==> data == [] && Contents() == old(Contents())
    {
      if Count(head, tail) == 0 { return -1, []; }
      MaskedCounter(tail, n_elem);
      var slot := WordAnd(tail, n_elem - 1);
      SlotInRange(n_elem, s_elem, slot);
      var offset := slot * s_elem;
      GetStep(buf[..], n_elem, s_elem, head, tail);
      data := CopyOut(offset);
      tail := Wrap32(tail + 1);
      err := 0;
    }

    // The element's bytes into the buffer ...
    method CopyIn(offset: nat, data: seq<uint8>)
      requires offset + |data| <= buf.Length
      modifies buf
      ensures buf[..] == Overwrite(old(buf[..]), offset, data)
    {
      var i := 0;
      while i < |data|
        invariant 0 <= i <= |data|
        invariant forall j | 0 <= j < buf.Length ::
          buf[j] == if offset <= j < offset + i then data[j - offset] else old(buf[j])
      {
        buf[offset + i] := data[i];
        i := i + 1;
      }
    }

    // ... and out of it.
    method CopyOut(offset: nat) returns (data: seq<uint8>)
      requires offset + s_elem <= buf.Length
      ensures data == buf[..][offset..offset + s_elem]
    {
      data := [];
      while |data| < s_elem
        invariant |data| <= s_elem && data == buf[offset..offset + |data|]
      {
        data := data + [buf[offset + |data|]];
      }
    }
  }

  // The test of ring_buffer_init accepts exactly 0 and the powers of two.
  lemma SizeTest(n: uint32)
    ensures WordAnd(Wrap32(n - 1), n) == 0 <==> ValidSize(n)
  {
    if n > 0 { PowerOfTwoTest(n); }
  }

  // Advancing a counter changes the count by one, whether or not the counter wraps.
  lemma CountPut(head: uint32, tail: uint32)
    requires Count(head, tail) < TWO32 - 1
    ensures Count(Wrap32(head + 1), tail) == Count(head, tail) + 1
  {
  }

  lemma CountGet(head: uint32, tail: uint32)
    requires Count(head, tail) > 0
    ensures Count(head, Wrap32(tail + 1)) == Count(head, tail) - 1
  {
  }

  // Overwriting the slot behind the unread elements appends to them.
  lemma PutUnread<T>(slots: seq<T>, tail: nat, count: nat, data: T)
    requires count < |slots|
    ensures SlotOf(tail + count, |slots|) < |slots|
    ensures Unread(slots[SlotOf(tail + count, |slots|) := data], tail, count + 1) == Unread(slots, tail, count) + [data]
  {
    OtherSlots(slots, tail, count, count, data);
  }

  lemma {:induction false} OtherSlots<T>(slots: seq<T>, tail: nat, count: nat, at: nat, data: T)
    requires count <= at < |slots|
    ensures Unread(slots[SlotOf(tail + at, |slots|) := data], tail, count) == Unread(slots, tail, count)
  {
    if count > 0 {
      OtherSlots(slots, tail, count - 1, at, data);
      SlotsDistinct(tail, count - 1, at, |slots|);
    }
  }

  // Advancing the tail drops the oldest unread element.
  lemma {:induction false} GetUnread<T>(slots: seq<T>, tail: uint32, count: nat)
    requires 1 <= |slots| < TWO32 && IsPow2(|slots|) && 1 <= count <= |slots|
    ensures Unread(slots, tail, count)
         == [slots[SlotOf(tail, |slots|)]] + Unread(slots, Wrap32(tail + 1), count - 1)
  {
    var next := Wrap32(tail + 1);
    if count == 1 {
      UnreadMore(slots, tail, 0);
    } else {
      GetUnread(slots, tail, count - 1);
      TailMoves(tail, count - 2, |slots|);
      BothMore(slots, tail, next, count - 1, slots[SlotOf(tail, |slots|)], SlotOf(tail + (count - 1), |slots|));
    }
  }

  lemma BothMore<T>(slots: seq<T>, tail: nat, next: nat, count: nat, first: T, at: nat)
    requires 1 <= count < |slots| && SlotOf(next + (count - 1), |slots|) == at == SlotOf(tail + count, |slots|) < |slots|
    requires Unread(slots, tail, count) == [first] + Unread(slots, next, count - 1)
    ensures Unread(slots, tail, count + 1) == [first] + Unread(slots, next, count)
  {
    UnreadMoreAt(slots, tail, count, at);
    UnreadMoreAt(slots, next, count - 1, at);
    Regroup(first, Unread(slots, next, count - 1), slots[at]);
  }

  lemma UnreadMoreAt<T>(slots: seq<T>, tail: nat, count: nat, at: nat)
    requires count < |slots| && at == SlotOf(tail + count, |slots|) < |slots|
    ensures Unread(slots, tail, count + 1) == Unread(slots, tail, count) + [slots[at]]
  {
    UnreadMore(slots, tail, count);
  }

  lemma Regroup<T>(first: T, rest: seq<T>, last: T)
    ensures ([first] + rest) + [last] == [first] + (rest + [last])
  {
  }

  lemma UnreadMore<T>(slots: seq<T>, tail: nat, count: nat)
    requires count < |slots|
    ensures SlotOf(tail + count, |slots|) < |slots|
    ensures Unread(slots, tail, count + 1) == Unread(slots, tail, count) + [slots[SlotOf(tail + count, |slots|)]]
  {
  }

  ghost predicate ValidRing(bytes: seq<uint8>, n: uint32, s: uint32, head: uint32, tail: uint32) {
    s >= 1 && ValidSize(n) && |bytes| == n * s && Count(head, tail) <= n
  }

  ghost function UnreadBytes(bytes: seq<uint8>, n: uint32, s: uint32, head: uint32, tail: uint32): (c: seq<seq<uint8>>)
    requires ValidRing(bytes, n, s, head, tail)
    ensures |c| == Count(head, tail)
  {
    Unread(Slots(bytes, n, s), tail, Count(head, tail))
  }

  lemma PutStep(bytes: seq<uint8>, n: uint32, s: uint32, head: uint32, tail: uint32, data: seq<uint8>)
    requires ValidRing(bytes, n, s, head, tail) && |data| == s && Count(head, tail) < n
    ensures 0 <= SlotOf(head, n) * s && SlotOf(head, n) * s + s <= n * s
    ensures var after := Overwrite(bytes, SlotOf(head, n) * s, data); var head' := Wrap32(head + 1);
      ValidRing(after, n, s, head', tail)
      && UnreadBytes(after, n, s, head', tail) == UnreadBytes(bytes, n, s, head, tail) + [data]
  {
    SlotInRange(n, s, SlotOf(head, n));
    HeadFollows(head, tail, n);
    CountPut(head, tail);
    SlotsOverwrite(bytes, n, s, SlotOf(head, n), data);
    PutUnread(Slots(bytes, n, s), tail, Count(head, tail), data);
  }

  lemma GetStep(bytes: seq<uint8>, n: uint32, s: uint32, head: uint32, tail: uint32)
    requires ValidRing(bytes, n, s, head, tail) && Count(head, tail) > 0
    ensures ValidRing(bytes, n, s, head, Wrap32(tail + 1))
    ensures UnreadBytes(bytes, n, s, head, tail)
         == [Slot(bytes, n, s, SlotOf(tail, n))] + UnreadBytes(bytes, n, s, head, Wrap32(tail + 1))
  {
    CountGet(head, tail);
    GetUnread(Slots(bytes, n, s), tail, Count(head, tail));
  }

  lemma SlotsOverwrite(bytes: seq<uint8>, n: nat, s: nat, h: nat, data: seq<uint8>)
    requires |bytes| == n * s && |data| == s && h < n
    ensures 0 <= h * s && h * s + s <= n * s
    ensures Slots(Overwrite(bytes, h * s, data), n, s) == Slots(bytes, n, s)[h := data]
  {
    SlotInRange(n, s, h);
    forall j | 0 <= j < n
      ensures Slot(Overwrite(bytes, h * s, data), n, s, j) == if j == h then data else Slot(bytes, n, s, j)
    {
      SlotOverwrite(bytes, n, s, h, data, j);
    }
  }

  lemma SlotOverwrite(bytes: seq<uint8>, n: nat, s: nat, h: nat, data: seq<uint8>, j: nat)
    requires |bytes| == n * s && |data| == s && h < n && j < n
    requires 0 <= h * s && h * s + s <= n * s
    ensures Slot(Overwrite(bytes, h * s, data), n, s, j) == if j == h then data else Slot(bytes, n, s, j)
  {
    SlotInRange(n, s, j);
    SlotsApart(s, h, j);
    OverwriteSlice(bytes, h * s, data, j * s);
  }

  // A stretch of the same length at another place is untouched, unless it overlaps.
  lemma OverwriteSlice(bytes: seq<uint8>, offset: nat, data: seq<uint8>, at: nat)
    requires offset + |data| <= |bytes| && at + |data| <= |bytes|
    requires at == offset || at + |data| <= offset || offset + |data| <= at
    ensures Overwrite(bytes, offset, data)[at..at + |data|] == if at == offset then data else bytes[at..at + |data|]
  {
  }

  lemma SlotInRange(n: nat, s: nat, j: nat)
    requires j < n
    ensures 0 <= j * s && j * s + s <= n * s
  {
    ProductStep(j, s);
    ProductMonotone(j + 1, n, s);
  }

  // Different slots share no byte.
  lemma SlotsApart(s: nat, j: nat, j': nat)
    ensures j < j' ==> j * s + s <= j' * s
    ensures j' < j ==> j' * s + s <= j * s
  {
    ProductStep(j, s);
    ProductStep(j', s);
    if j < j' { ProductMonotone(j + 1, j', s); }
    if j' < j { ProductMonotone(j' + 1, j, s); }
  }

  // Masking a counter gives its slot.
  lemma MaskedCounter(counter: uint32, n: uint32)
    requires n >= 1 && IsPow2(n)
    ensures WordAnd(counter, n - 1) == SlotOf(counter, n) < n
  {
    var k: nat :| n == Pow2(k);
    AndMask(counter, k);
    DivModOf(counter, n);
  }

  // The head's slot is the one after the last unread element, also when the counters have wrapped.
  lemma HeadFollows(head: uint32, tail: uint32, n: uint32)
    requires n >= 1 && IsPow2(n)
    ensures SlotOf(head, n) == SlotOf(tail + Count(head, tail), n)
  {
    assert head == Wrap32(tail + Count(head, tail));
    WrapThenMod(tail + Count(head, tail), n);
  }

  lemma TailMoves(tail: uint32, i: nat, n: uint32)
    requires n >= 1 && IsPow2(n)
    ensures SlotOf(Wrap32(tail + 1) + i, n) == SlotOf(tail + (i + 1), n)
  {
    WrapThenMod(Wrap32(tail + 1) + i, n);
    WrapThenMod(tail + (i + 1), n);
    WrapTwice(tail, i);
  }

  // Fewer than n apart, two elements lie in different slots.
  lemma SlotsDistinct(t: nat, i: nat, j: nat, n: nat)
    requires n >= 1 && i < j < i + n
    ensures SlotOf(t + i, n) != SlotOf(t + j, n)
  {
    DivModOf(t + i, n);
    DivModOf(t + j, n);
    var q, q', r := (t + i) / n, (t + j) / n, (t + i) % n;
    if (t + j) % n == r {
      if q == q' {
      } else if q < q' {
        ProductStep(q, n);
        ProductMonotone(q + 1, q', n);
      } else {
        ProductMonotone(q', q, n);
      }
    }
  }

  lemma WrapTwice(tail: uint32, i: nat)
    ensures Wrap32(Wrap32(tail + 1) + i) == Wrap32(tail + (i + 1))
  {
  }
}
