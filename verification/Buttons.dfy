// but.c: buttons sampled at a fixed rate, low meaning pressed.
module Buttons {
  import opened Words

  const TIMER_CNT_TIMEOUT: nat := 20
  const TIMER_LONG_CNT_TIMEOUT: nat := 100

  // The callbacks of a button.
  datatype Event = Rise | Fall | Timer | TimerLong

  datatype State = State(value: bool, tim_cnt: uint32, state: uint8)

  // init_but_struct: not pressed
  const INITIAL: State := State(true, 0, 0)

  function When(c: bool, e: Event): seq<Event> {
    if c then [e] else []
  }

  // One sample of one button: its new state and the callbacks, in order.
  function Step(b: State, high: bool): (State, seq<Event>) {
    var edge := When(high && !b.value, Rise) + When(!high && b.value, Fall);
    if high then (State(high, 0, 0), edge)
    else
      var cnt := Wrap32(b.tim_cnt + 1);
      var timer := cnt >= TIMER_CNT_TIMEOUT && b.state == 0;
      var state := if timer then 1 else b.state;
      var long := cnt >= TIMER_LONG_CNT_TIMEOUT && state == 1;
      (State(high, if long then 0 else cnt, if long then 2 else state), edge + When(timer, Timer) + When(long, TimerLong))
  }

  class Button {
    var tim_cnt: uint32
    var state: uint8
    var value: bool

    function Fields(): State
      reads this
    {
      State(value, tim_cnt, state)
    }

    constructor ()
      ensures Fields() == INITIAL
    {
      tim_cnt, state, value := 0, 0, true;
    }

    // The body of process_button for one button; read is what read_button returned.
    method Process(read: bool) returns (called: seq<Event>)
      modifies this
      ensures (Fields(), called) == Step(old(Fields()), read)
    {
      called := [];
      if read != value {
        value := read;
        if read { called := called + [Rise]; } else { called := called + [Fall]; }
      }
      ghost var edge := called;
      assert edge == When(read && !old(value), Rise) + When(!read && old(value), Fall);
      assert edge + [] == edge;
      if !read {
        tim_cnt := Wrap32(tim_cnt + 1);
        if tim_cnt >= TIMER_CNT_TIMEOUT && state == 0 {
          called := called + [Timer];
          state := 1;
        }
        assert called + [] == called;
        if tim_cnt >= TIMER_LONG_CNT_TIMEOUT && state == 1 {
          called := called + [TimerLong];
          tim_cnt := 0;
          state := 2;
        }
      } else {
        tim_cnt := 0;
        state := 0;
      }
    }
  }

  // A button over time, from its initial state.
  function After(samples: seq<bool>): State {
    if samples == [] then INITIAL else Step(After(samples[..|samples| - 1]), samples[|samples| - 1]).0
  }

  // The callbacks of sample i.
  function Called(samples: seq<bool>, i: nat): seq<Event>
    requires i < |samples|
  {
    Step(After(samples[..i]), samples[i]).1
  }

  // The length of the low run the samples end with.
  function LowRun(samples: seq<bool>): nat {
    if samples == [] || samples[|samples| - 1] then 0 else 1 + LowRun(samples[..|samples| - 1])
  }

  // The state at the end of a low run of length n; from the long event on the counter runs on, unobserved.
  function StateFor(n: nat): State {
    State(n == 0,
          if n < TIMER_LONG_CNT_TIMEOUT then n else Wrap32(n - TIMER_LONG_CNT_TIMEOUT),
          if n < TIMER_CNT_TIMEOUT then 0 else if n < TIMER_LONG_CNT_TIMEOUT then 1 else 2)
  }

  lemma OneMoreLow(n: nat)
    ensures Step(StateFor(n), false)
         == (StateFor(n + 1), When(n == 0, Fall) + When(n + 1 == TIMER_CNT_TIMEOUT, Timer)
                              + When(n + 1 == TIMER_LONG_CNT_TIMEOUT, TimerLong))
  {
    if n >= TIMER_LONG_CNT_TIMEOUT { WrapNext(n - TIMER_LONG_CNT_TIMEOUT); }
    assert [] + When(n == 0, Fall) == When(n == 0, Fall);
  }

  lemma WrapNext(n: nat)
    ensures Wrap32(Wrap32(n) + 1) == Wrap32(n + 1)
  {
  }

  // The state is a function of the low run's length.
  lemma {:induction false} StateOfRun(samples: seq<bool>)
    ensures After(samples) == StateFor(LowRun(samples))
  {
    if samples != [] {
      StateOfRun(samples[..|samples| - 1]);
      OneMoreLow(LowRun(samples[..|samples| - 1]));
    }
  }

  lemma {:induction false} LowRunFrom(samples: seq<bool>, a: nat, i: nat)
    requires a <= i <= |samples| && (a == 0 || samples[a - 1])
    requires forall k | a <= k < i :: !samples[k]
    ensures LowRun(samples[..i]) == i - a
  {
    if i > a {
      assert samples[..i][..i - 1] == samples[..i - 1];
      LowRunFrom(samples, a, i - 1);
    }
  }

  // A maximal low run, samples a to b, whatever came before it: one Fall at its start, Timer at its 20th
  // sample and TimerLong at its 100th, if it gets there, and one Rise after it; nothing else.
  lemma RunEvents(samples: seq<bool>, a: nat, b: nat, i: nat)
    requires a < b <= |samples| && (a == 0 || samples[a - 1]) && (b < |samples| ==> samples[b])
    requires forall k | a <= k < b :: !samples[k]
    requires a <= i <= b && i < |samples|
    ensures Called(samples, i)
         == When(i == a, Fall) + When(i < b && i - a + 1 == 20, Timer) + When(i < b && i - a + 1 == 100, TimerLong)
            + When(i == b, Rise)
  {
    LowRunFrom(samples, a, i);
    StateOfRun(samples[..i]);
    if i < b { OneMoreLow(i - a); }
  }

  // Between runs nothing is called.
  lemma QuietEvents(samples: seq<bool>, i: nat)
    requires i < |samples| && samples[i] && (i == 0 || samples[i - 1])
    ensures Called(samples, i) == []
  {
    LowRunFrom(samples, i, i);
    StateOfRun(samples[..i]);
  }
}
