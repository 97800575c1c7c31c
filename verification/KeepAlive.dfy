// keepalive.c: after a silence two keep-alive frames are sent, a timeout apart, and then an error is raised.
module KeepAlive {
  import opened Folding
  import opened Options

  const KEEP_ALIVE_TRY: nat := 2
  const KEEP_ALIVE_TIME_TO_NEXT: nat := 100

  datatype Record = Record(deadline: nat, timeout: nat, tries: nat, error: bool, active: bool)

  // What happens to a record, with the time in milliseconds.  A pass looks at the clock, and again
  // `spent` later, when its send has returned; that send may itself have accepted.
  datatype Event = Accept(now: nat) | Start(now: nat) | Stop | Pass(now: nat, spent: nat, accepts: bool)

  datatype Output = FrameSent(at: nat) | ErrorRaised(at: nat)

  function Accepted(r: Record, now: nat): Record {
    r.(deadline := now + r.timeout, tries := 0, error := false)
  }

  // A pass is late on an active record.
  predicate Due(r: Record, now: nat) {
    !r.error && r.active && r.deadline < now
  }

  function Step(r: Record, e: Event): (Record, Option<Output>) {
    match e
    case Accept(now) => (Accepted(r, now), None)
    case Start(now) => (Accepted(r.(active := true), now), None)
    case Stop => (r.(active := false), None)
    case Pass(now, spent, accepts) =>
      if !Due(r, now) then (r, None)
      else if r.tries < KEEP_ALIVE_TRY then
        (r.(deadline := now + spent + r.timeout, tries := if accepts then 1 else r.tries + 1), Some(FrameSent(now)))
      else (r.(error := true), Some(ErrorRaised(now)))
  }

  class KeepAlive {
    var keepAlive: nat
    var timeout: nat
    var keepAliveTry: nat
    var keepAliveErrorFlag: bool
    var keepAliveActiveFlag: bool

    function State(): Record
      reads this
    {
      Record(keepAlive, timeout, keepAliveTry, keepAliveErrorFlag, keepAliveActiveFlag)
    }

    constructor (timeout: nat, now: nat)
      ensures this.timeout >= timeout && this.timeout >= KEEP_ALIVE_TIME_TO_NEXT
      ensures this.timeout == timeout || this.timeout == KEEP_ALIVE_TIME_TO_NEXT
      ensures State() == Record(now + this.timeout, this.timeout, 0, false, false)
    {
      keepAliveActiveFlag := false;
      this.timeout := if timeout < KEEP_ALIVE_TIME_TO_NEXT then KEEP_ALIVE_TIME_TO_NEXT else timeout;
      keepAliveErrorFlag, keepAliveTry := false, 0;
      keepAlive := now + if timeout < KEEP_ALIVE_TIME_TO_NEXT then KEEP_ALIVE_TIME_TO_NEXT else timeout;
    }

    method Accept(now: nat)
      modifies this
      ensures State() == Step(old(State()), Event.Accept(now)).0
    {
      keepAlive := now + timeout;
      keepAliveTry := 0;
      keepAliveErrorFlag := false;
    }

    method Start(now: nat)
      modifies this
      ensures State() == Step(old(State()), Event.Start(now)).0
    {
      keepAliveActiveFlag := true;
      keepAliveErrorFlag := false;
      Accept(now);
    }

    method Stop()
      modifies this
      ensures State() == Step(old(State()), Event.Stop).0
    {
      keepAliveActiveFlag := false;
    }

    // The body of keepAliveProcess for one record.
    method Process(now: nat, spent: nat, accepts: bool) returns (output: Option<Output>)
      modifies this
      ensures (State(), output) == Step(old(State()), Pass(now, spent, accepts))
    {
      if keepAliveErrorFlag || !keepAliveActiveFlag { return None; }
      if keepAlive < now {
        if keepAliveTry < KEEP_ALIVE_TRY {
          output := Some(FrameSent(now));
          if accepts { Accept(now + spent); }
          keepAliveTry := keepAliveTry + 1;
          keepAlive := now + spent + timeout;
        } else {
          keepAliveErrorFlag := true;
          output := Some(ErrorRaised(now));
        }
      } else {
        output := None;
      }
    }
  }

  // What a silence brings, k frames having been counted before it: FrameSent up to the second, then
  // ErrorRaised, the i-th more than i + 1 timeouts after the silence began, and nothing more.
  ghost predicate SilentOutput(out: seq<Output>, k: nat, began: nat, timeout: nat) {
    |out| + k <= KEEP_ALIVE_TRY + 1
    && forall i: nat | i < |out| :: OutputOk(out[i], i, k, began, timeout)
  }

  predicate OutputOk(o: Output, i: nat, k: nat, began: nat, timeout: nat) {
    o.ErrorRaised? == (i + k == KEEP_ALIVE_TRY) && o.at > began + (i + 1) * timeout
  }

  predicate Silent(e: Event) {
    e.Stop? || (e.Pass? && !e.accepts)
  }

  // From a moment `began` on, the deadline a timeout after it and k frames counted, nothing accepts: at
  // most one error, after exactly the missing frames, and nothing after it.  k is 0 after an accept, and
  // the error then comes more than three timeouts later; it is 1 after a frame whose sending accepted,
  // and the error then comes after one frame and two timeouts.
  lemma {:induction false} Silence(r: Record, began: nat, events: seq<Event>)
    requires r.tries <= KEEP_ALIVE_TRY && !r.error && r.deadline == began + r.timeout
    requires forall e | e in events :: Silent(e)
    ensures var (s, out) := Fold(Step, r, events);
      && SilentOutput(out, r.tries, began, r.timeout)
      && s.timeout == r.timeout && (s.error <==> r.tries + |out| == KEEP_ALIVE_TRY + 1)
      && (!s.error ==> s.tries == r.tries + |out|)
      && s.deadline >= began + (if s.error then |out| else |out| + 1) * r.timeout
  {
    if events != [] {
      var n := |events| - 1;
      assert forall e | e in events[..n] :: e in events;
      Silence(r, began, events[..n]);
      var (s, out) := Fold(Step, r, events[..n]);
      assert Silent(events[n]);
      assert (|out| + 2) * r.timeout == (|out| + 1) * r.timeout + r.timeout;
    }
  }

  // A frame whose sending accepts leaves one frame counted, not none: the silence that follows it brings one
  // frame less and its error one timeout earlier than one that follows an accept.
  lemma AcceptedFrameCounts(r: Record, now: nat, spent: nat, events: seq<Event>)
    requires Due(r, now) && r.tries < KEEP_ALIVE_TRY
    requires forall e | e in events :: Silent(e)
    ensures var (s, out) := Step(r, Pass(now, spent, true));
      out == Some(FrameSent(now)) && s.tries == 1 && SilentOutput(Fold(Step, s, events).1, 1, now + spent, r.timeout)
  {
    Silence(Step(r, Pass(now, spent, true)).0, now + spent, events);
  }

  // ------ The error does come ------

  function End(e: Event): nat
    requires e.Pass?
  {
    e.now + e.spent
  }

  // Passes of one silent run, one after the other.
  ghost predicate SilentPasses(events: seq<Event>) {
    (forall e | e in events :: e.Pass? && !e.accepts)
    && forall i, j | 0 <= i < j < |events| :: End(events[i]) <= events[j].now
  }

  // A run whose last pass is late has sent a frame or raised the error by then, and the deadline is not
  // later than a timeout after it.
  lemma {:induction false} LatePassCounts(r: Record, events: seq<Event>)
    requires r.active && !r.error && events != [] && SilentPasses(events)
    ensures var (s, out) := Fold(Step, r, events); var last := events[|events| - 1];
      && s.active && s.timeout == r.timeout
      && (s.error || out == [] || s.deadline <= End(last) + r.timeout)
      && (!s.error && out == [] ==> s.deadline == r.deadline && s.tries == r.tries)
      && (last.now > r.deadline ==> s.error || out != [])
  {
    var n := |events| - 1;
    var last := events[n];
    assert last in events;
    if n > 0 {
      assert forall e | e in events[..n] :: e in events;
      LatePassCounts(r, events[..n]);
      assert End(events[n - 1]) <= last.now;
    } else {
      assert events[..n] == [];
    }
  }

  lemma SilentPart(a: seq<Event>, b: seq<Event>)
    requires SilentPasses(a + b)
    ensures SilentPasses(a) && SilentPasses(b)
  {
    forall e | e in a ensures e in a + b {
    }
    forall e | e in b ensures e in a + b {
    }
    forall i, j | 0 <= i < j < |a| ensures End(a[i]) <= a[j].now {
      assert (a + b)[i] == a[i] && (a + b)[j] == a[j];
    }
    forall i, j | 0 <= i < j < |b| ensures End(b[i]) <= b[j].now {
      assert (a + b)[|a| + i] == b[i] && (a + b)[|a| + j] == b[j];
    }
  }

  // The last pass of a part of the run is later than `time`.
  ghost predicate EndsAfter(events: seq<Event>, time: nat) {
    events != [] && events[|events| - 1].Pass? && events[|events| - 1].now > time
  }

  // From a record with no frame counted: any silent run without a stop in which some pass is later than the
  // deadline, a later one later than a timeout after that, and another one so again, raises the error by then,
  // after exactly two frames; nothing follows.
  lemma ErrorComes(r: Record, a: seq<Event>, b: seq<Event>, c: seq<Event>, d: seq<Event>)
    requires r.active && !r.error && r.tries == 0 && r.deadline >= r.timeout && SilentPasses(a + b + c + d)
    requires EndsAfter(a, r.deadline)
    requires EndsAfter(b, End(a[|a| - 1]) + r.timeout)
    requires EndsAfter(c, End(b[|b| - 1]) + r.timeout)
    ensures Fold(Step, r, a + b + c).0.error
    ensures TwoFramesThenError(Fold(Step, r, a + b + c + d).1)
  {
    SilentPart(a + b + c, d);
    ErrorBy(r, a, b, c);
    ErrorStays(r, r.deadline - r.timeout, a + b + c, d);
  }

  ghost predicate TwoFramesThenError(out: seq<Output>) {
    |out| == 3 && out[0].FrameSent? && out[1].FrameSent? && out[2].ErrorRaised?
  }

  lemma ErrorBy(r: Record, a: seq<Event>, b: seq<Event>, c: seq<Event>)
    requires r.active && !r.error && r.tries == 0 && r.deadline >= r.timeout && SilentPasses(a + b + c)
    requires EndsAfter(a, r.deadline)
    requires EndsAfter(b, End(a[|a| - 1]) + r.timeout)
    requires EndsAfter(c, End(b[|b| - 1]) + r.timeout)
    ensures Fold(Step, r, a + b + c).0.error
  {
    var began := r.deadline - r.timeout;
    SilentPart(a + b, c);
    SilentPart(a, b);
    assert [] + a == a;
    OneMore(r, began, [], a);
    if Fold(Step, r, a).0.error {
      ErrorStays(r, began, a, b);
    } else {
      OneMore(r, began, a, b);
    }
    if Fold(Step, r, a + b).0.error {
      ErrorStays(r, began, a + b, c);
    } else {
      OneMore(r, began, a + b, c);
    }
  }

  lemma AllSilent(events: seq<Event>)
    requires SilentPasses(events)
    ensures forall e | e in events :: Silent(e)
  {
  }

  lemma ErrorStays(r: Record, began: nat, a: seq<Event>, b: seq<Event>)
    requires r.tries == 0 && !r.error && r.deadline == began + r.timeout && SilentPasses(a + b)
    ensures Fold(Step, r, a).0.error ==> Fold(Step, r, a + b).0.error
    ensures Fold(Step, r, a + b).0.error ==> TwoFramesThenError(Fold(Step, r, a + b).1)
  {
    SilentPart(a, b);
    AllSilent(a);
    AllSilent(a + b);
    Silence(r, began, a);
    Silence(r, began, a + b);
    FoldAppend(Step, r, a, b);
    var out := Fold(Step, r, a + b).1;
    assert forall i: nat | i < |out| :: OutputOk(out[i], i, 0, began, r.timeout);
  }

  // A late pass at the end of the next part sends one more frame, or raises the error.
  lemma OneMore(r: Record, began: nat, a: seq<Event>, b: seq<Event>)
    requires r.active && r.tries == 0 && !r.error && r.deadline == began + r.timeout && SilentPasses(a + b)
    requires EndsAfter(b, Fold(Step, r, a).0.deadline) && !Fold(Step, r, a).0.error && Fold(Step, r, a).0.active
    ensures Fold(Step, r, a + b).0.active
    ensures var s := Fold(Step, r, a + b).0;
      s.error || (KEEP_ALIVE_TRY >= s.tries > Fold(Step, r, a).0.tries && s.deadline <= End(b[|b| - 1]) + r.timeout)
  {
    SilentPart(a, b);
    AllSilent(a);
    AllSilent(a + b);
    Silence(r, began, a);
    Silence(r, began, a + b);
    FoldAppend(Step, r, a, b);
    LatePassCounts(Fold(Step, r, a).0, b);
  }

  // ------ What accepting, starting and stopping bring about ------

  // Whatever the record was, in the silence after an accept or a start the first frame comes more than a
  // timeout later, the second more than two and the error more than three, and nothing else comes.
  lemma SilenceAfter(r: Record, e: Event, events: seq<Event>)
    requires (e.Accept? || e.Start?) && forall s | s in events :: Silent(s)
    ensures var out := Fold(Step, Step(r, e).0, events).1;
      |out| <= 3 && forall i: nat {:trigger out[i]} | i < |out| ::
        out[i] == (if i == 2 then ErrorRaised(out[i].at) else FrameSent(out[i].at)) && out[i].at > e.now + (i + 1) * r.timeout
  {
    Silence(Step(r, e).0, e.now, events);
    var out := Fold(Step, Step(r, e).0, events).1;
    forall i: nat | i < |out|
      ensures out[i] == (if i == 2 then ErrorRaised(out[i].at) else FrameSent(out[i].at)) && out[i].at > e.now + (i + 1) * r.timeout
    {
      assert OutputOk(out[i], i, 0, e.now, r.timeout);
    }
  }

  // A start makes any record active: late enough passes then bring two frames and the error, ...
  lemma StartThenError(r: Record, now: nat, a: seq<Event>, b: seq<Event>, c: seq<Event>, d: seq<Event>)
    requires SilentPasses(a + b + c + d) && EndsAfter(a, now + r.timeout)
    requires EndsAfter(b, End(a[|a| - 1]) + r.timeout) && EndsAfter(c, End(b[|b| - 1]) + r.timeout)
    ensures Fold(Step, Step(r, Start(now)).0, a + b + c).0.error
    ensures TwoFramesThenError(Fold(Step, Step(r, Start(now)).0, a + b + c + d).1)
  {
    ErrorComes(Step(r, Start(now)).0, a, b, c, d);
  }

  // ... and an accept does the same for a record that is active, and does not make one active.
  lemma AcceptThenError(r: Record, now: nat, a: seq<Event>, b: seq<Event>, c: seq<Event>, d: seq<Event>)
    requires r.active && SilentPasses(a + b + c + d) && EndsAfter(a, now + r.timeout)
    requires EndsAfter(b, End(a[|a| - 1]) + r.timeout) && EndsAfter(c, End(b[|b| - 1]) + r.timeout)
    ensures Fold(Step, Step(r, Accept(now)).0, a + b + c).0.error
    ensures TwoFramesThenError(Fold(Step, Step(r, Accept(now)).0, a + b + c + d).1)
  {
    ErrorComes(Step(r, Accept(now)).0, a, b, c, d);
  }

  // Only a start ends the quiet of an inactive record, such as a stop leaves: until then nothing is sent and
  // nothing raised, whatever else happens.
  lemma {:induction false} QuietUntilStart(r: Record, events: seq<Event>)
    requires !r.active && forall e | e in events :: !e.Start?
    ensures !Fold(Step, r, events).0.active && Fold(Step, r, events).1 == []
  {
    if events != [] {
      var n := |events| - 1;
      assert forall e | e in events[..n] :: e in events;
      QuietUntilStart(r, events[..n]);
      assert !events[n].Start?;
    }
  }

  lemma QuietAfterStop(r: Record, events: seq<Event>)
    requires forall e | e in events :: !e.Start?
    ensures !Fold(Step, Step(r, Stop).0, events).0.active && Fold(Step, Step(r, Stop).0, events).1 == []
  {
    QuietUntilStart(Step(r, Stop).0, events);
  }

  // And only a stop ends being active.
  lemma {:induction false} ActiveUntilStop(r: Record, events: seq<Event>)
    requires r.active && forall e | e in events :: !e.Stop?
    ensures Fold(Step, r, events).0.active
  {
    if events != [] {
      var n := |events| - 1;
      assert forall e | e in events[..n] :: e in events;
      ActiveUntilStop(r, events[..n]);
      assert !events[n].Stop?;
    }
  }

  // Where sends accept whenever they happen, no run of any events raises an error.
  lemma {:induction false} AcceptingSends(r: Record, events: seq<Event>)
    requires r.tries <= 1 && !r.error
    requires forall e | e in events :: e.Pass? ==> e.accepts
    ensures var (s, out) := Fold(Step, r, events);
      s.tries <= 1 && !s.error && forall o | o in out :: o.FrameSent?
  {
    if events != [] {
      var n := |events| - 1;
      assert forall e | e in events[..n] :: e in events;
      AcceptingSends(r, events[..n]);
      assert events[n].Pass? ==> events[n].accepts;
    }
  }
}
