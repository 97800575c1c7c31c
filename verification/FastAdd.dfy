// fast_add.c: held keys move values towards a bound, slowly at first; a list of what is being moved.
module FastAdd {
  import opened Words

  const FAST_ADD_LIST_SIZE: nat := 8
  const SLOW_STEPS: nat := 15

  datatype Sign = FP_MINUS | FP_PLUS | FP_PLUS_10 | FP_MINUS_10

  // A value that is moved, by its address.
  class Cell {
    var v: uint32
  }

  datatype Entry = Entry(value: Cell, max: uint32, min: uint32, sign: Sign, counter: uint32, delay: uint32)

  function Delta(sign: Sign): int {
    match sign
    case FP_MINUS => -1
    case FP_PLUS => 1
    case FP_PLUS_10 => 10
    case FP_MINUS_10 => -10
  }

  // _add_process, in 32-bit unsigned arithmetic.
  function AddProcess(sign: Sign, min: uint32, max: uint32, v: uint32): uint32 {
    match sign
    case FP_PLUS => if v < max then v + 1 else v
    case FP_MINUS => if v > min then v - 1 else v
    case FP_PLUS_10 => if v < Wrap32(max - 10) then Wrap32(v + 10) else if v < max then max else v
    case FP_MINUS_10 => if v > Wrap32(min + 10) then Wrap32(v - 10) else if v > min then min else v
  }

  function Clamp(v: int, min: int, max: int): (r: int)
    requires min <= max
    ensures min <= r <= max
  {
    if v < min then min else if v > max then max else v
  }

  // The bound the steps of ten are compared with does not wrap.
  predicate BoundsReachable(sign: Sign, min: uint32, max: uint32) {
    (sign == FP_PLUS_10 ==> max >= 10) && (sign == FP_MINUS_10 ==> min + 10 < TWO32)
  }

  // A step is the clamped sum exactly if those comparisons do not wrap; otherwise it always leaves the bounds.
  lemma AddIsClamped(sign: Sign, min: uint32, max: uint32, v: uint32)
    requires min <= v <= max
    ensures AddProcess(sign, min, max, v) == Clamp(v + Delta(sign), min, max) <==> BoundsReachable(sign, min, max)
    ensures min <= AddProcess(sign, min, max, v) <= max <==> BoundsReachable(sign, min, max)
  {
    WrapNear(max - 10);
    WrapNear(min + 10);
    WrapNear(v + 10);
    WrapNear(v - 10);
  }

  lemma WrapNear(x: int)
    requires -0x1_0000_0000 <= x < 2 * TWO32
    ensures Wrap32(x) == if x < 0 then x + TWO32 else if x < TWO32 then x else x - TWO32
  {
  }

  // ------ One entry over time ------

  // What a pass does to an entry's counters, and whether it applies the step.
  function Count(counter: uint32, delay: uint32): (uint32, uint32, bool) {
    if counter < SLOW_STEPS && delay < 1 then (counter, Wrap32(delay + 1), false)
    else (Wrap32(counter + 1), 0, true)
  }

  function PassEntry(e: Entry): Entry {
    var (counter, delay, _) := Count(e.counter, e.delay);
    e.(counter := counter, delay := delay)
  }

  function PassValue(e: Entry, v: uint32): uint32 {
    if Count(e.counter, e.delay).2 then AddProcess(e.sign, e.min, e.max, v) else v
  }

  // An entry and its value after t passes.
  function After(e: Entry, v: uint32, t: nat): (Entry, uint32) {
    if t == 0 then (e, v)
    else
      var (e1, v1) := After(e, v, t - 1);
      (PassEntry(e1), PassValue(e1, v1))
  }

  // How often t passes apply the step: every second one thirty times, then each.
  function Applications(t: nat): nat {
    if t <= 2 * SLOW_STEPS then t / 2 else t - SLOW_STEPS
  }

  // As fastProcessStart registers it.
  predicate JustStarted(e: Entry) {
    e.counter == 0 && e.delay == 0
  }

  function CounterAt(t: nat): uint32 {
    Wrap32(Applications(t))
  }

  function DelayAt(t: nat): uint32 {
    if t < 2 * SLOW_STEPS then t % 2 else 0
  }

  lemma CountStep(t: nat)
    requires 0 < t <= TWO32 + SLOW_STEPS
    ensures Count(CounterAt(t - 1), DelayAt(t - 1)) == (CounterAt(t), DelayAt(t), Applications(t) == Applications(t - 1) + 1)
    ensures Applications(t - 1) <= Applications(t) <= Applications(t - 1) + 1
  {
    WrapNear(Applications(t - 1));
    WrapNear(Applications(t));
  }

  // The counter and the delay, too, depend only on the number of passes.
  lemma {:induction false} CountersAfter(e: Entry, v: uint32, t: nat)
    requires JustStarted(e) && t <= TWO32 + SLOW_STEPS
    ensures After(e, v, t).0 == e.(counter := CounterAt(t), delay := DelayAt(t))
  {
    if t > 0 {
      CountersAfter(e, v, t - 1);
      CountStep(t);
    }
  }

  // Pass t applies the step exactly if it counts as an application.
  lemma PassApplies(e: Entry, v: uint32, t: nat)
    requires JustStarted(e) && 0 < t <= TWO32 + SLOW_STEPS
    ensures Applications(t) == Applications(t - 1) || Applications(t) == Applications(t - 1) + 1
    ensures var before := After(e, v, t - 1).1;
      After(e, v, t).1 == if Applications(t) == Applications(t - 1) then before else AddProcess(e.sign, e.min, e.max, before)
  {
    CountersAfter(e, v, t - 1);
    CountStep(t);
  }

  lemma ValueMore(e: Entry, v: uint32, t: nat)
    requires e.min <= v <= e.max && BoundsReachable(e.sign, e.min, e.max)
    requires After(e, v, t).1 == Clamp(v + Delta(e.sign) * Applications(t), e.min, e.max)
    ensures AddProcess(e.sign, e.min, e.max, After(e, v, t).1) == Clamp(v + Delta(e.sign) * (Applications(t) + 1), e.min, e.max)
  {
    AddIsClamped(e.sign, e.min, e.max, After(e, v, t).1);
    ClampTwice(v, Delta(e.sign), Applications(t), e.min, e.max);
  }

  lemma {:induction false} ValueAfter(e: Entry, v: uint32, t: nat)
    requires JustStarted(e) && t <= TWO32 + SLOW_STEPS && e.min <= v <= e.max && BoundsReachable(e.sign, e.min, e.max)
    ensures After(e, v, t).1 == Clamp(v + Delta(e.sign) * Applications(t), e.min, e.max)
  {
    if t > 0 {
      ValueAfter(e, v, t - 1);
      PassApplies(e, v, t);
      ValueMore(e, v, t - 1);
      if Applications(t) != Applications(t - 1) { assert Applications(t) == Applications(t - 1) + 1; }
    } else {
      assert Delta(e.sign) * 0 == 0;
    }
  }

  // In figures: a held key moves the value by 1 or 10 in every second pass of the first thirty and in every pass
  // after them, and stops at the bound.
  lemma HeldKey(e: Entry, v: uint32, t: nat)
    requires JustStarted(e) && t <= 0x1_0000_0000 + 15 && e.min <= v <= e.max
    requires (e.sign == FP_PLUS_10 ==> e.max >= 10) && (e.sign == FP_MINUS_10 ==> e.min + 10 < 0x1_0000_0000)
    ensures var n := if t <= 30 then t / 2 else t - 15;
      After(e, v, t).1 == match e.sign
        case FP_PLUS => if v + n > e.max then e.max else v + n
        case FP_MINUS => if v - n < e.min then e.min else v - n
        case FP_PLUS_10 => if v + 10 * n > e.max then e.max else v + 10 * n
        case FP_MINUS_10 => if v - 10 * n < e.min then e.min else v - 10 * n
  {
    ValueAfter(e, v, t);
  }

  // The value never leaves its bounds exactly if the bound of its steps of ten does not wrap.
  lemma InBoundsAlways(e: Entry, v: uint32)
    requires JustStarted(e) && e.min <= v <= e.max
    ensures (forall t: nat | t <= TWO32 + SLOW_STEPS :: e.min <= After(e, v, t).1 <= e.max)
        <==> BoundsReachable(e.sign, e.min, e.max)
  {
    if BoundsReachable(e.sign, e.min, e.max) {
      forall t: nat | t <= TWO32 + SLOW_STEPS ensures e.min <= After(e, v, t).1 <= e.max { ValueAfter(e, v, t); }
    } else {
      AddIsClamped(e.sign, e.min, e.max, v);
      AfterTwo(e, v);
    }
  }

  // The second pass applies the first step.
  lemma AfterTwo(e: Entry, v: uint32)
    requires JustStarted(e)
    ensures After(e, v, 2).1 == AddProcess(e.sign, e.min, e.max, v)
  {
    var e1 := e.(delay := 1);
    assert After(e, v, 0) == (e, v);
    assert PassEntry(e) == e1 && PassValue(e, v) == v;
    assert After(e, v, 1) == (e1, v);
    assert PassValue(e1, v) == AddProcess(e.sign, e.min, e.max, v);
  }

  lemma ClampTwice(v: int, d: int, n: nat, min: int, max: int)
    requires min <= v <= max
    ensures Clamp(Clamp(v + d * n, min, max) + d, min, max) == Clamp(v + d * (n + 1), min, max)
  {
    assert d * (n + 1) == d * n + d;
    if d >= 0 { assert d * n >= 0; } else { assert d * n <= 0; }
  }

  // ------ The list ------

  class FastAdd {
    // The first list_cnt entries.
    var list: seq<Entry>

    ghost predicate Valid()
      reads this
    {
      |list| <= FAST_ADD_LIST_SIZE && forall i, j | 0 <= i < j < |list| :: list[i].value != list[j].value
    }

    ghost predicate Registered(value: Cell)
      reads this
    {
      exists i :: 0 <= i < |list| && list[i].value == value
    }

    constructor ()
      ensures Valid() && list == []
    {
      list := [];
    }

    method Start(value: Cell, max: uint32, min: uint32, sign: Sign)
      requires Valid()
      modifies this
      ensures Valid()
      ensures list == if |old(list)| >= FAST_ADD_LIST_SIZE || old(Registered(value)) then old(list)
                      else old(list) + [Entry(value, max, min, sign, 0, 0)]
    {
      if |list| >= FAST_ADD_LIST_SIZE { return; }
      var i := 0;
      while i < |list|
        invariant 0 <= i <= |list| && forall j | 0 <= j < i :: list[j].value != value
      {
        // fastProcessStop cannot take the mutex that is held here: nothing is removed.
        if list[i].value == value { return; }
        i := i + 1;
      }
      list := list + [Entry(value, max, min, sign, 0, 0)];
    }

    // The last entry takes the place of the removed one.
    method Stop(value: Cell)
      requires Valid()
      modifies this
      ensures Valid() && !Registered(value)
      ensures !old(Registered(value)) ==> list == old(list)
      ensures forall i | 0 <= i < |old(list)| && old(list)[i].value == value :: list == SwapRemove(old(list), i)
    {
      var i := 0;
      while i < |list|
        invariant 0 <= i <= |list| && list == old(list) && forall j | 0 <= j < i :: list[j].value != value
      {
        if list[i].value == value {
          list := SwapRemove(list, i);
          return;
        }
        i := i + 1;
      }
    }

    // One pass over all entries.
    method Pass()
      requires Valid()
      modifies this, set e | e in list :: e.value
      ensures Valid() && |list| == |old(list)|
      ensures forall i | 0 <= i < |list| :: list[i] == PassEntry(old(list)[i])
      ensures forall i | 0 <= i < |list| :: list[i].value.v == PassValue(old(list)[i], old(list[i].value.v))
    {
      var i := 0;
      while i < |list|
        invariant 0 <= i <= |list| == |old(list)|
        invariant forall j | 0 <= j < |list| :: list[j] == if j < i then PassEntry(old(list)[j]) else old(list)[j]
        invariant forall j | 0 <= j < |list| ::
          list[j].value.v == if j < i then PassValue(old(list)[j], old(list[j].value.v)) else old(list[j].value.v)
      {
        PassOne(i);
        i := i + 1;
      }
    }

    // The body of the loop.
    method PassOne(i: nat)
      requires Valid() && i < |list|
      modifies this, list[i].value
      ensures list == old(list)[i := PassEntry(old(list)[i])]
      ensures list[i].value.v == PassValue(old(list)[i], old(list[i].value.v))
    {
      var e := list[i];
      if e.counter < SLOW_STEPS {
        if e.delay < 1 {
          list := list[i := e.(delay := e.delay + 1)];
        } else {
          list := list[i := e.(delay := 0, counter := e.counter + 1)];
          e.value.v := AddProcess(e.sign, e.min, e.max, e.value.v);
        }
      } else {
        list := list[i := e.(delay := 0, counter := Wrap32(e.counter + 1))];
        e.value.v := AddProcess(e.sign, e.min, e.max, e.value.v);
      }
    }
  }

  // The last entry in the place of entry i, and the list one shorter.
  function SwapRemove<T>(s: seq<T>, i: int): (r: seq<T>)
    requires 0 <= i < |s|
    ensures |r| == |s| - 1
    ensures forall j | 0 <= j < |r| :: r[j] == if j == i then s[|s| - 1] else s[j]
  {
    s[i := s[|s| - 1]][..|s| - 1]
  }

  // Every other entry stays, with its counters.
  lemma OthersKept<T>(s: seq<T>, i: nat)
    requires i < |s|
    ensures multiset(SwapRemove(s, i)) == multiset(s) - multiset{s[i]}
  {
    var n := |s| - 1;
    if i == n {
      assert SwapRemove(s, i) == s[..n] && s == s[..n] + [s[n]];
    } else {
      assert s == s[..i] + [s[i]] + s[i + 1..n] + [s[n]];
      assert SwapRemove(s, i) == s[..i] + [s[n]] + s[i + 1..n];
      Replaced(s[..i], s[i], s[i + 1..n], s[n]);
    }
  }

  lemma Replaced<T>(a: seq<T>, x: T, b: seq<T>, y: T)
    ensures multiset(a + [y] + b) == multiset(a + [x] + b + [y]) - multiset{x}
  {
  }
}
