// Callers on the client, the request worker, the server and the two packet streams between them, one step at a
// time: what cmdClientGetValue returns is what the server held when it handled that very request.
module Protocol {
  import opened CmdClientReq
  import opened Folding
  import opened Options
  import opened Packets
  import opened Parameters
  import opened ParseCmd
  import opened Words

  const QUEUE_SIZE: nat := 16

  // What has become of a call: its message prepared, in the queue, sent with the worker waiting for
  // its answer, answered, sent without waiting, failed, and returned with or without a value.
  datatype Phase = Prepared | Queued | Waiting | Answered(rx: Packet) | Sent | Failed | Returned(value: Option<uint32>)

  predicate Taken(phase: Phase) {
    phase != Prepared && phase != Queued
  }

  datatype Call = Call(packet: Packet, ptype: uint8, val: uint8, wait: bool, phase: Phase)

  // The n-th call has request number n.
  datatype State = State(
    calls: seq<Call>, queue: seq<nat>, worker: Option<nat>,
    toServer: seq<Packet>, toClient: seq<Packet>, server: Table, client: Table)

  datatype Config = Config(server: Limits, client: Limits)

  datatype Step =
    | Prepare(ptype: uint8, val: uint8, payload: seq<uint8>, wait: bool)
    | Enqueue(n: nat)
    // The worker takes a message and sends it; a send that reports a failure may have got through.
    | Take(delivered: bool, ok: bool)
    | Receive
    // An error or a timeout, perhaps after the packet it was about was read.
    | GiveUp(consumed: bool)
    | Return(n: nat)
    | KeepAlive
    // The server handles the next packet; its answer may fail to be sent.
    | Serve(sent: bool)
    // A connection ends: of each stream only a first part is still read.
    | Lose(keptByServer: nat, keptByClient: nat)
    // Any other use of the tables.
    | ServerChange(table: Table)
    | ClientChange(table: Table)

  function RequestPacket(n: uint32, ptype: uint8, val: uint8, payload: seq<uint8>, wait: bool): Packet
    requires |payload| <= PACKET_SIZE - FRAME_VALUE_POS
  {
    Frame(n, if wait then CMD_REQUEST else CMD_DATA, ptype, val, payload)
  }

  // drv/keepalive.c's frame
  function KeepAlivePacket(): Packet {
    Frame(0xFFFF_FFFF, CMD_REQUEST, PC_KEEP_ALIVE, 0, [])
  }

  function WithPhase(s: State, n: nat, phase: Phase): State
    requires n < |s.calls|
  {
    s.(calls := s.calls[n := s.calls[n].(phase := phase)])
  }

  function Rest<T>(q: seq<T>): seq<T> {
    if q == [] then [] else q[1..]
  }

  function First<T>(q: seq<T>, n: nat): seq<T> {
    if n <= |q| then q[..n] else q
  }

  // A step that cannot be taken changes nothing.
  function Next(c: Config, s: State, step: Step): State {
    match step
    case Prepare(ptype, val, payload, wait) => PrepareStep(c, s, ptype, val, payload, wait)
    case Enqueue(n) => EnqueueStep(s, n)
    case Take(delivered, ok) => TakeStep(s, delivered, ok)
    case Receive => ReceiveStep(s)
    case GiveUp(consumed) => GiveUpStep(s, consumed)
    case Return(n) => ReturnStep(c, s, n)
    case KeepAlive => s.(toServer := s.toServer + [KeepAlivePacket()])
    case Serve(sent) =>
      if s.toServer != [] then
        var (t, answer) := Handle(c.server, s.server, Decode(s.toServer[0]));
        s.(server := t, toServer := s.toServer[1..], toClient := s.toClient + if sent then AnswerPackets(answer) else [])
      else s
    case Lose(kept, keptByClient) => s.(toServer := First(s.toServer, kept), toClient := First(s.toClient, keptByClient))
    case ServerChange(t) => s.(server := t)
    case ClientChange(t) => s.(client := t)
  }

  // _prepare_msg; a get needs an answer, and cmdClientGetValue refuses an index outside of the table.
  function PrepareStep(c: Config, s: State, ptype: uint8, val: uint8, payload: seq<uint8>, wait: bool): State {
    if |s.calls| < TWO32 && |payload| <= PACKET_SIZE - FRAME_VALUE_POS
       && (ptype == PC_GET_UINT32 ==> wait && payload == [] && val < |c.client.max|)
    then s.(calls := s.calls + [Call(RequestPacket(|s.calls|, ptype, val, payload, wait), ptype, val, wait, Prepared)])
    else s
  }

  // xQueueSend without waiting
  function EnqueueStep(s: State, n: nat): State {
    if n < |s.calls| && s.calls[n].phase == Prepared then
      if |s.queue| < QUEUE_SIZE then WithPhase(s, n, Queued).(queue := s.queue + [n]) else WithPhase(s, n, Returned(None))
    else s
  }

  function GiveUpStep(s: State, consumed: bool): State {
    if s.worker.Some? && s.worker.value < |s.calls| then
      WithPhase(s, s.worker.value, Failed).(worker := None, toClient := if consumed then Rest(s.toClient) else s.toClient)
    else s
  }

  // _requests_process and the first half of _request_msg_process
  function TakeStep(s: State, delivered: bool, ok: bool): State {
    if s.worker.None? && s.queue != [] && s.queue[0] < |s.calls| && (ok ==> delivered) then
      var n := s.queue[0];
      var wait := ok && s.calls[n].wait;
      var sent := s.(queue := s.queue[1..], toServer := s.toServer + if delivered then [s.calls[n].packet] else []);
      WithPhase(sent, n, if !ok then Failed else if wait then Waiting else Sent).(worker := if wait then Some(n) else None)
    else s
  }

  // One turn of the second half: the next packet is the answer if it has the number, and dropped if not.
  function ReceiveStep(s: State): State {
    if s.worker.Some? && s.worker.value < |s.calls| && s.toClient != [] then
      var n, rx := s.worker.value, s.toClient[0];
      var read := s.(toClient := s.toClient[1..]);
      if Number(rx) == n then WithPhase(read, n, Answered(rx)).(worker := None) else read
    else s
  }

  // cmdClientGetValue after its semaphore was given; other calls return no value.
  function ReturnStep(c: Config, s: State, n: nat): State {
    if n < |s.calls| && n < TWO32 && (s.calls[n].phase.Answered? || s.calls[n].phase.Sent? || s.calls[n].phase.Failed?) then
      if s.calls[n].phase.Answered? && s.calls[n].ptype == PC_GET_UINT32 then
        var (t, value) := AcceptAnswer(c.client, s.client, s.calls[n].val, n, s.calls[n].phase.rx);
        WithPhase(s, n, Returned(value)).(client := t)
      else WithPhase(s, n, Returned(None))
    else s
  }

  datatype Run = Run(states: seq<State>, steps: seq<Step>)

  ghost predicate Initial(s: State) {
    s.calls == [] && s.queue == [] && s.worker == None && s.toServer == [] && s.toClient == []
  }

  ghost predicate IsRun(c: Config, r: Run) {
    |r.states| == |r.steps| + 1 && Initial(r.states[0])
    && forall i | 0 <= i < |r.steps| :: r.states[i + 1] == Next(c, r.states[i], r.steps[i])
  }

  // Step j is the server handling the packet m.
  ghost predicate HandledAt(r: Run, j: nat, m: Packet) {
    j < |r.steps| && j < |r.states| && r.steps[j].Serve? && r.states[j].toServer != [] && r.states[j].toServer[0] == m
  }

  // ------ What every state keeps ------

  ghost predicate CallOk(call: Call, n: nat) {
    Number(call.packet) == n && call.packet[FRAME_PARSE_TYPE_POS] == call.ptype
    && call.packet[FRAME_VALUE_TYPE_POS] == call.val
    && call.packet[FRAME_CMD_POS] == (if call.wait then CMD_REQUEST else CMD_DATA)
  }

  // A packet on its way to the server is a keep-alive or the message of a call already taken.
  ghost predicate Known(calls: seq<Call>, p: Packet) {
    p == KeepAlivePacket()
    || (Number(p) < |calls| && p == calls[Number(p)].packet && Taken(calls[Number(p)].phase))
  }

  ghost predicate CallsOk(calls: seq<Call>) {
    |calls| <= TWO32 && forall n: nat | n < |calls| :: CallOk(calls[n], n)
  }

  ghost predicate QueueOk(s: State) {
    && |s.queue| <= QUEUE_SIZE
    && (forall i | 0 <= i < |s.queue| :: s.queue[i] < |s.calls| && s.calls[s.queue[i]].phase == Queued)
    && (forall i, j | 0 <= i < j < |s.queue| :: s.queue[i] != s.queue[j])
    && (s.worker.Some? ==> s.worker.value < |s.calls| && s.calls[s.worker.value].phase == Waiting)
  }

  // Only keep-alives are on their way more than once.
  ghost predicate StreamOk(s: State) {
    && (forall p | p in s.toServer :: Known(s.calls, p))
    && Distinct(s.toServer)
  }

  ghost predicate Inv(s: State) {
    CallsOk(s.calls) && QueueOk(s) && StreamOk(s)
  }

  // Calls keep their message, and once taken stay taken.
  ghost predicate Grown(a: seq<Call>, b: seq<Call>) {
    |a| <= |b| && forall n: nat | n < |a| ::
      b[n].packet == a[n].packet && b[n].ptype == a[n].ptype && b[n].val == a[n].val && b[n].wait == a[n].wait
      && (Taken(a[n].phase) ==> Taken(b[n].phase))
  }

  lemma PhaseGrown(s: State, n: nat, phase: Phase)
    requires n < |s.calls| && (Taken(s.calls[n].phase) ==> Taken(phase))
    ensures Grown(s.calls, WithPhase(s, n, phase).calls)
    ensures CallsOk(s.calls) ==> CallsOk(WithPhase(s, n, phase).calls)
  {
    var calls := WithPhase(s, n, phase).calls;
    if CallsOk(s.calls) {
      forall k: nat | k < |calls| ensures CallOk(calls[k], k) {
        assert CallOk(s.calls[k], k);
      }
    }
  }

  lemma PrepareGrown(c: Config, s: State, ptype: uint8, val: uint8, payload: seq<uint8>, wait: bool)
    requires CallsOk(s.calls)
    ensures CallsGrow(s, PrepareStep(c, s, ptype, val, payload, wait))
  {
    var calls := PrepareStep(c, s, ptype, val, payload, wait).calls;
    if calls != s.calls {
      var n := |s.calls|;
      FrameFields(n, if wait then CMD_REQUEST else CMD_DATA, ptype, val, payload);
      assert CallOk(calls[n], n);
      forall k: nat | k < n ensures CallOk(calls[k], k) {
        assert CallOk(s.calls[k], k);
      }
    }
  }

  ghost predicate CallsGrow(s: State, s': State) {
    Grown(s.calls, s'.calls) && CallsOk(s'.calls)
  }

  lemma EnqueueGrown(s: State, n: nat)
    requires CallsOk(s.calls)
    ensures CallsGrow(s, EnqueueStep(s, n))
  {
    if n < |s.calls| && s.calls[n].phase == Prepared {
      PhaseGrown(s, n, Queued);
      PhaseGrown(s, n, Returned(None));
    }
  }

  lemma TakeGrown(s: State, delivered: bool, ok: bool)
    requires CallsOk(s.calls) && QueueOk(s)
    ensures CallsGrow(s, TakeStep(s, delivered, ok))
  {
    if s.queue != [] {
      var n := s.queue[0];
      PhaseGrown(s, n, Failed);
      PhaseGrown(s, n, Waiting);
      PhaseGrown(s, n, Sent);
    }
  }

  lemma WorkerGrown(s: State, consumed: bool)
    requires CallsOk(s.calls) && QueueOk(s)
    ensures CallsGrow(s, ReceiveStep(s)) && CallsGrow(s, GiveUpStep(s, consumed))
  {
    if s.worker.Some? {
      PhaseGrown(s, s.worker.value, Failed);
      if s.toClient != [] { PhaseGrown(s, s.worker.value, Answered(s.toClient[0])); }
    }
  }

  lemma CallsKept(c: Config, s: State, step: Step)
    requires CallsOk(s.calls) && QueueOk(s)
    ensures CallsGrow(s, Next(c, s, step))
  {
    match step
    case Prepare(ptype, val, payload, wait) => PrepareGrown(c, s, ptype, val, payload, wait);
    case Enqueue(n) => EnqueueGrown(s, n);
    case Take(delivered, ok) => TakeGrown(s, delivered, ok);
    case Receive => WorkerGrown(s, false);
    case GiveUp(consumed) => WorkerGrown(s, consumed);
    case Return(n) => ReturnKept(c, s, n);
    case _ =>
  }

  lemma ReturnKept(c: Config, s: State, n: nat)
    requires CallsOk(s.calls)
    ensures CallsGrow(s, ReturnStep(c, s, n))
  {
    if n < |s.calls| {
      PhaseGrown(s, n, Returned(None));
      if s.calls[n].phase.Answered? {
        PhaseGrown(s, n, Returned(AcceptAnswer(c.client, s.client, s.calls[n].val, n, s.calls[n].phase.rx).1));
      }
    }
  }

  // A call that is neither queued nor the worker's may change its phase.
  lemma PhaseQueueOk(s: State, n: nat, phase: Phase)
    requires QueueOk(s) && n < |s.calls| && s.calls[n].phase != Queued && s.worker != Some(n)
    ensures QueueOk(WithPhase(s, n, phase))
  {
  }

  lemma TakeQueueOk(s: State, delivered: bool, ok: bool)
    requires QueueOk(s)
    ensures QueueOk(TakeStep(s, delivered, ok))
  {
    if s.queue != [] {
      assert forall i | 0 <= i < |s.queue| - 1 :: s.queue[1..][i] == s.queue[i + 1] && s.queue[i + 1] != s.queue[0];
    }
  }

  lemma EnqueueQueueOk(s: State, n: nat)
    requires QueueOk(s)
    ensures QueueOk(EnqueueStep(s, n))
  {
    if n < |s.calls| && s.calls[n].phase == Prepared {
      PhaseQueueOk(s, n, Queued);
      PhaseQueueOk(s, n, Returned(None));
    }
  }

  lemma GiveUpQueueOk(s: State, consumed: bool)
    requires QueueOk(s)
    ensures QueueOk(GiveUpStep(s, consumed))
  {
    if s.worker.Some? { PhaseQueueOk(s.(worker := None), s.worker.value, Failed); }
  }

  lemma QueueKept(c: Config, s: State, step: Step)
    requires QueueOk(s)
    ensures QueueOk(Next(c, s, step))
  {
    match step
    case Enqueue(n) => EnqueueQueueOk(s, n);
    case Take(delivered, ok) => TakeQueueOk(s, delivered, ok);
    case Receive => ReceiveQueueOk(s);
    case GiveUp(consumed) => GiveUpQueueOk(s, consumed);
    case Return(n) => ReturnQueueOk(c, s, n);
    case _ =>
  }

  lemma ReceiveQueueOk(s: State)
    requires QueueOk(s)
    ensures QueueOk(ReceiveStep(s))
  {
    if s.worker.Some? && s.toClient != [] {
      PhaseQueueOk(s.(worker := None), s.worker.value, Answered(s.toClient[0]));
    }
  }

  lemma ReturnQueueOk(c: Config, s: State, n: nat)
    requires QueueOk(s)
    ensures QueueOk(ReturnStep(c, s, n))
  {
    if n < |s.calls| && n < TWO32 && s.calls[n].phase != Queued && s.worker != Some(n) {
      PhaseQueueOk(s, n, Returned(None));
      if s.calls[n].phase.Answered? {
        PhaseQueueOk(s, n, Returned(AcceptAnswer(c.client, s.client, s.calls[n].val, n, s.calls[n].phase.rx).1));
      }
    }
  }

  lemma KnownKept(a: seq<Call>, b: seq<Call>, p: Packet)
    requires Known(a, p) && Grown(a, b)
    ensures Known(b, p)
  {
  }

  ghost predicate Distinct(q: seq<Packet>) {
    forall i, j | 0 <= i < j < |q| :: q[i] == q[j] ==> q[i] == KeepAlivePacket()
  }

  // A message taken from the queue is not on its way yet.
  lemma TakeDistinct(s: State, delivered: bool, ok: bool)
    requires Inv(s)
    ensures Distinct(TakeStep(s, delivered, ok).toServer)
  {
    if s.queue != [] {
      var n := s.queue[0];
      var m := s.calls[n].packet;
      assert CallOk(s.calls[n], n) && s.calls[n].phase == Queued;
      assert m in s.toServer ==> m == KeepAlivePacket() by {
        if m in s.toServer { assert Known(s.calls, m); }
      }
    }
  }

  lemma ServerStreamDistinct(c: Config, s: State, step: Step)
    requires Inv(s)
    ensures Distinct(Next(c, s, step).toServer)
  {
    assert Distinct(s.toServer);
    match step
    case Take(delivered, ok) => TakeDistinct(s, delivered, ok);
    case _ =>
  }

  // What enters the stream to the server.
  lemma Departures(c: Config, s: State, step: Step, p: Packet)
    requires Inv(s) && p in Next(c, s, step).toServer
    ensures p in s.toServer || p == KeepAlivePacket()
            || (step.Take? && s.queue != [] && p == s.calls[s.queue[0]].packet && Known(Next(c, s, step).calls, p))
  {
    if step.Take? && s.queue != [] { assert CallOk(s.calls[s.queue[0]], s.queue[0]); }
  }

  lemma StreamKept(c: Config, s: State, step: Step)
    requires Inv(s)
    ensures StreamOk(Next(c, s, step))
  {
    CallsKept(c, s, step);
    ServerStreamDistinct(c, s, step);
    var s' := Next(c, s, step);
    forall p | p in s'.toServer ensures Known(s'.calls, p) {
      Departures(c, s, step, p);
      if p in s.toServer { KnownKept(s.calls, s'.calls, p); }
    }
  }

  lemma {:induction false} InvAlways(c: Config, r: Run, i: nat)
    requires IsRun(c, r) && i < |r.states|
    ensures Inv(r.states[i])
  {
    if i > 0 {
      InvAlways(c, r, i - 1);
      CallsKept(c, r.states[i - 1], r.steps[i - 1]);
      QueueKept(c, r.states[i - 1], r.steps[i - 1]);
      StreamKept(c, r.states[i - 1], r.steps[i - 1]);
    }
  }

  lemma {:induction false} GrownAlways(c: Config, r: Run, i: nat, k: nat)
    requires IsRun(c, r) && i <= k < |r.states|
    ensures Grown(r.states[i].calls, r.states[k].calls)
  {
    if i < k {
      GrownAlways(c, r, i, k - 1);
      StepGrown(c, r, k - 1);
      GrownFurther(r.states[i].calls, r.states[k - 1].calls, r.states[k].calls);
    }
  }

  lemma StepGrown(c: Config, r: Run, k: nat)
    requires IsRun(c, r) && k < |r.steps|
    ensures Grown(r.states[k].calls, r.states[k + 1].calls)
  {
    InvAlways(c, r, k);
    CallsKept(c, r.states[k], r.steps[k]);
  }

  lemma GrownFurther(a: seq<Call>, b: seq<Call>, d: seq<Call>)
    requires Grown(a, b) && Grown(b, d)
    ensures Grown(a, d)
  {
  }

  // ------ Each request is handled at most once ------

  lemma {:induction false} GoneOnceHandled(c: Config, r: Run, j: nat, m: Packet, k: nat)
    requires IsRun(c, r) && HandledAt(r, j, m) && m != KeepAlivePacket() && j < k < |r.states|
    ensures m !in r.states[k].toServer
    decreases k
  {
    InvAlways(c, r, k - 1);
    var s := r.states[k - 1];
    if k == j + 1 {
      assert forall i | 0 < i < |s.toServer| :: s.toServer[0] != s.toServer[i];
    } else {
      GoneOnceHandled(c, r, j, m, k - 1);
      InvAlways(c, r, j);
      GrownAlways(c, r, j, k - 1);
      KnownKept(r.states[j].calls, s.calls, m);
      if m in r.states[k].toServer {
        Departures(c, s, r.steps[k - 1], m);
        NotQueued(s, m);
      }
    }
  }

  lemma NotQueued(s: State, m: Packet)
    requires Inv(s) && Known(s.calls, m) && m != KeepAlivePacket()
    ensures s.queue != [] ==> m != s.calls[s.queue[0]].packet
  {
    if s.queue != [] { assert CallOk(s.calls[s.queue[0]], s.queue[0]); }
  }

  lemma HandledOnce(c: Config, r: Run, j: nat, k: nat, m: Packet)
    requires IsRun(c, r) && HandledAt(r, j, m) && HandledAt(r, k, m) && m != KeepAlivePacket()
    ensures j == k
  {
    if j < k {
      GoneOnceHandled(c, r, j, m, k);
    } else if k < j {
      GoneOnceHandled(c, r, k, m, j);
    }
  }

  // ------ Where answers come from ------

  // Step j is the server answering the packet m with p.
  ghost predicate AnsweredAt(c: Config, r: Run, j: nat, p: Packet) {
    j < |r.steps| && j < |r.states| && r.steps[j].Serve? && r.states[j].toServer != []
    && p in AnswerPackets(Handle(c.server, r.states[j].server, Decode(r.states[j].toServer[0])).1)
  }

  ghost predicate Origin(c: Config, r: Run, i: nat, p: Packet) {
    exists j: nat :: j < i && AnsweredAt(c, r, j, p)
  }

  lemma Arrivals(c: Config, s: State, step: Step, p: Packet)
    requires p in Next(c, s, step).toClient
    ensures p in s.toClient || (step.Serve? && s.toServer != []
              && p in AnswerPackets(Handle(c.server, s.server, Decode(s.toServer[0])).1))
  {
  }

  lemma ArrivesAt(c: Config, r: Run, k: nat, p: Packet)
    requires IsRun(c, r) && k < |r.steps| && p in r.states[k + 1].toClient
    ensures p in r.states[k].toClient || AnsweredAt(c, r, k, p)
  {
    Arrivals(c, r.states[k], r.steps[k], p);
  }

  lemma {:induction false} StreamOrigin(c: Config, r: Run, i: nat, p: Packet)
    requires IsRun(c, r) && i < |r.states| && p in r.states[i].toClient
    ensures Origin(c, r, i, p)
  {
    if i > 0 {
      ArrivesAt(c, r, i - 1, p);
      if p in r.states[i - 1].toClient {
        StreamOrigin(c, r, i - 1, p);
        OriginLater(c, r, i - 1, p);
      }
    }
  }

  lemma OriginLater(c: Config, r: Run, i: nat, p: Packet)
    requires Origin(c, r, i, p)
    ensures Origin(c, r, i + 1, p)
  {
  }

  lemma AnswerArrives(c: Config, s: State, step: Step, n: nat, rx: Packet)
    requires n < |Next(c, s, step).calls| && Next(c, s, step).calls[n].phase == Answered(rx)
    ensures (n < |s.calls| && s.calls[n].phase == Answered(rx)) || (rx in s.toClient && Number(rx) == n)
  {
  }

  lemma AnswerArrivesAt(c: Config, r: Run, k: nat, n: nat, rx: Packet)
    requires IsRun(c, r) && k < |r.steps| && n < |r.states[k + 1].calls| && r.states[k + 1].calls[n].phase == Answered(rx)
    ensures (n < |r.states[k].calls| && r.states[k].calls[n].phase == Answered(rx))
            || (rx in r.states[k].toClient && Number(rx) == n)
  {
    AnswerArrives(c, r.states[k], r.steps[k], n, rx);
  }

  lemma {:induction false} AnswerOrigin(c: Config, r: Run, i: nat, n: nat, rx: Packet)
    requires IsRun(c, r) && i < |r.states| && n < |r.states[i].calls| && r.states[i].calls[n].phase == Answered(rx)
    ensures Number(rx) == n && Origin(c, r, i, rx)
  {
    if i > 0 {
      AnswerArrivesAt(c, r, i - 1, n, rx);
      if rx in r.states[i - 1].toClient && Number(rx) == n {
        StreamOrigin(c, r, i - 1, rx);
      } else {
        AnswerOrigin(c, r, i - 1, n, rx);
      }
      OriginLater(c, r, i - 1, rx);
    }
  }

  // ------ What a get returns ------

  // An answer to a get has the number of the message it answers and carries the value the table held.
  lemma AnswerToGet(l: Limits, t: Table, m: Packet, p: Packet)
    requires p in AnswerPackets(Handle(l, t, Decode(m)).1)
    ensures Number(p) == Number(m) && p[FRAME_CMD_POS] == CMD_ANSWER
    ensures p[FRAME_PARSE_TYPE_POS] == m[FRAME_PARSE_TYPE_POS] && p[FRAME_VALUE_TYPE_POS] == m[FRAME_VALUE_TYPE_POS]
    ensures m[FRAME_PARSE_TYPE_POS] == PC_GET_UINT32 ==> Value32(p) == GetValue(t, m[FRAME_VALUE_TYPE_POS])
    ensures m != KeepAlivePacket()
  {
    var a := Handle(l, t, Decode(m)).1.value;
    FrameFields(a.number, CMD_ANSWER, a.ptype, a.val, ReplyBytes(a.reply));
    FrameFields(0xFFFF_FFFF, CMD_REQUEST, PC_KEEP_ALIVE, 0, []);
    if a.ptype == PC_GET_UINT32 { FrameValue32(a.number, CMD_ANSWER, a.ptype, a.val, a.reply.v); }
  }

  // The answer a call got is the server's answer to that call's own message.
  lemma AnswerIsToCall(c: Config, r: Run, i: nat, n: nat, rx: Packet) returns (j: nat)
    requires IsRun(c, r) && i < |r.states| && n < |r.states[i].calls| && r.states[i].calls[n].phase == Answered(rx)
    ensures j < i && HandledAt(r, j, r.states[i].calls[n].packet)
    ensures rx in AnswerPackets(Handle(c.server, r.states[j].server, Decode(r.states[i].calls[n].packet)).1)
  {
    AnswerOrigin(c, r, i, n, rx);
    j :| j < i && AnsweredAt(c, r, j, rx);
    var m := r.states[j].toServer[0];
    AnswerToGet(c.server, r.states[j].server, m, rx);
    InvAlways(c, r, j);
    assert Known(r.states[j].calls, m);
    GrownAlways(c, r, j, i);
  }

  // The server handled call n's own request once, before step i and after the call was made, and its
  // table held v for that parameter.
  ghost predicate ServedWith(r: Run, i: nat, n: nat, packet: Packet, val: uint8, v: uint32) {
    exists j: nat :: j < i && HandledAt(r, j, packet) && n < |r.states[j].calls| && GetValue(r.states[j].server, val) == v
      && (forall k: nat | HandledAt(r, k, packet) :: k == j)
  }

  lemma AnsweredGet(c: Config, r: Run, i: nat, n: nat, rx: Packet) returns (v: uint32)
    requires IsRun(c, r) && i < |r.states| && n < |r.states[i].calls|
    requires r.states[i].calls[n].ptype == PC_GET_UINT32 && r.states[i].calls[n].phase == Answered(rx)
    ensures ServedWith(r, i, n, r.states[i].calls[n].packet, r.states[i].calls[n].val, v) && v == Value32(rx)
    ensures Number(rx) == n && rx[FRAME_CMD_POS] == CMD_ANSWER && rx[FRAME_PARSE_TYPE_POS] == PC_GET_UINT32
    ensures rx[FRAME_VALUE_TYPE_POS] == r.states[i].calls[n].val
  {
    var call := r.states[i].calls[n];
    var j := AnswerIsToCall(c, r, i, n, rx);
    InvAlways(c, r, i);
    assert CallOk(call, n);
    AnswerToGet(c.server, r.states[j].server, call.packet, rx);
    v := Value32(rx);
    forall k: nat | HandledAt(r, k, call.packet) ensures k == j { HandledOnce(c, r, j, k, call.packet); }
    InvAlways(c, r, j);
    assert Known(r.states[j].calls, call.packet);
  }

  // When cmdClientGetValue returns, after any run: without an answer it fails and leaves the local table
  // as it was.  With one, there is the value v the server held when it handled this call's own request,
  // and v is returned and is in the local table exactly if the local table takes it; if not, the call
  // fails and the table is as it was.
  lemma GetIsAnswered(c: Config, r: Run, i: nat, n: nat, value: Option<uint32>)
    requires IsRun(c, r) && i < |r.steps| && r.steps[i] == Return(n)
    requires n < |r.states[i].calls| && r.states[i].calls[n].ptype == PC_GET_UINT32
    requires !r.states[i].calls[n].phase.Returned? && r.states[i + 1].calls[n].phase == Returned(value)
    ensures value == None ==> r.states[i + 1].client == r.states[i].client
    ensures value.Some? ==> ServedWith(r, i, n, r.states[i].calls[n].packet, r.states[i].calls[n].val, value.value)
    ensures value.Some? ==> GetValue(r.states[i + 1].client, r.states[i].calls[n].val) == value.value
    ensures value == None && r.states[i].calls[n].phase.Answered? ==> exists v: uint32 ::
              (ServedWith(r, i, n, r.states[i].calls[n].packet, r.states[i].calls[n].val, v)
               && !SetValue(c.client, r.states[i].client, r.states[i].calls[n].val, v).1)
  {
    if r.states[i].calls[n].phase.Answered? {
      var v := AnsweredGet(c, r, i, n, r.states[i].calls[n].phase.rx);
    }
  }

  // ------ The worker's loop as steps ------

  function Receives(s: State, k: nat): State {
    if k == 0 then s else ReceiveStep(Receives(s, k - 1))
  }

  // Receiving as RequestMsgProcess does: packets with other numbers are dropped, the first with the
  // number is the answer, and what follows it stays in the stream.
  lemma {:induction false} DroppedUntilMatch(s: State, n: nat, k: nat)
    requires s.worker == Some(n) && n < |s.calls| && k <= |s.toClient|
    requires forall i | 0 <= i < k :: Number(s.toClient[i]) != n
    ensures Receives(s, k) == s.(toClient := s.toClient[k..])
    ensures k < |s.toClient| && Number(s.toClient[k]) == n ==>
      Receives(s, k + 1) == WithPhase(s, n, Answered(s.toClient[k])).(worker := None, toClient := s.toClient[k + 1..])
  {
    if k > 0 { DroppedUntilMatch(s, n, k - 1); }
  }

  lemma RequestSent(c: Config, s: State, val: uint8, s1: State, s2: State, s3: State)
    requires |s.calls| < TWO32 && s.queue == [] && s.worker == None && s.toServer == [] && val < |c.client.max|
    requires s1 == Next(c, s, Prepare(PC_GET_UINT32, val, [], true)) && s2 == Next(c, s1, Enqueue(|s.calls|))
    requires s3 == TakeStep(s2, true, true)
    ensures s3.toServer == [RequestPacket(|s.calls|, PC_GET_UINT32, val, [], true)] && s3.worker == Some(|s.calls|)
    ensures |s3.calls| == |s.calls| + 1 && s3.calls[|s.calls|].ptype == PC_GET_UINT32 && s3.calls[|s.calls|].val == val
    ensures s3.toClient == s.toClient && s3.server == s.server && s3.client == s.client
  {
  }

  // The same on bytes: when the worker's loop over the joined stream, however it is cut into reads, delivers
  // an answer, receiving step by step delivers the same one and leaves the same stream.
  lemma BytesAreSteps(s: State, n: uint32, script: seq<Event>)
    requires s.worker == Some(n) && n < |s.calls| && Await(Joined(s.toClient), n, script).result == Ok
    ensures var o := Await(Joined(s.toClient), n, script);
      o.skipped < |s.toClient| && o.rx == s.toClient[o.skipped] && o.rest == Joined(s.toClient[o.skipped + 1..])
      && Receives(s, o.skipped + 1)
         == WithPhase(s, n, Answered(s.toClient[o.skipped])).(worker := None, toClient := s.toClient[o.skipped + 1..])
  {
    var stream := Joined(s.toClient);
    var o := Await(stream, n, script);
    OkIsFirstMatch(stream, n, script);
    JoinedLength(s.toClient);
    JoinedAt(s.toClient, o.skipped);
    JoinedFrom(s.toClient, o.skipped + 1);
    forall i: nat | i < o.skipped ensures Number(s.toClient[i]) != n {
      JoinedAt(s.toClient, i);
      assert PacketOf(stream, i) == s.toClient[i];
    }
    DroppedUntilMatch(s, n, o.skipped);
  }

  // And if the stream holds an answer, a patient script does deliver it.
  lemma StepsAreBytes(s: State, n: uint32, script: seq<Event>, k: nat)
    requires k < |s.toClient| && Number(s.toClient[k]) == n && forall i | 0 <= i < k :: Number(s.toClient[i]) != n
    requires Patient(script) && |script| >= (k + 1) * PACKET_SIZE
    ensures Await(Joined(s.toClient), n, script).result == Ok && Await(Joined(s.toClient), n, script).skipped == k
  {
    var stream := Joined(s.toClient);
    JoinedAt(s.toClient, k);
    forall i: nat | i < k ensures Number(PacketOf(stream, i)) != n { JoinedAt(s.toClient, i); }
    PatientDelivers(stream, n, script, k);
  }

  // ------ The server's buffer as steps ------

  function Serves(c: Config, s: State, k: nat): State {
    Iterate(u => Next(c, u, Serve(true)), s, k)
  }

  // The same with any way of handling a packet.
  function Served(handle: (Table, Packet) -> (Table, Option<Answer>), s: State): State {
    if s.toServer == [] then s
    else
      var (t, answer) := handle(s.server, s.toServer[0]);
      s.(server := t, toServer := s.toServer[1..], toClient := s.toClient + AnswerPackets(answer))
  }

  function ServedTimes(handle: (Table, Packet) -> (Table, Option<Answer>), s: State, k: nat): State {
    Iterate(u => Served(handle, u), s, k)
  }

  // With k packets served, the table t and the answers sent so far.
  function ServedTo(s: State, k: nat, t: Table, answers: seq<Packet>): State
    requires k <= |s.toServer|
  {
    s.(server := t, toServer := s.toServer[k..], toClient := s.toClient + answers)
  }

  lemma ServedOnce(handle: (Table, Packet) -> (Table, Option<Answer>), s: State, k: nat, t: Table, answers: seq<Packet>)
    requires k < |s.toServer|
    ensures var (t', answer) := handle(t, s.toServer[k]);
      Served(handle, ServedTo(s, k, t, answers)) == ServedTo(s, k + 1, t', answers + AnswerPackets(answer))
  {
    var (t', answer) := handle(t, s.toServer[k]);
    assert s.toClient + answers + AnswerPackets(answer) == s.toClient + (answers + AnswerPackets(answer));
    assert s.toServer[k..][1..] == s.toServer[k + 1..];
  }

  lemma ServedMore(handle: (Table, Packet) -> (Table, Option<Answer>), s: State, k: nat, t: Table, answers: seq<Answer>)
    requires k < |s.toServer| && ServedTimes(handle, s, k) == ServedTo(s, k, t, PacketsOf(answers))
    ensures var (t', answer) := handle(t, s.toServer[k]);
      ServedTimes(handle, s, k + 1)
        == ServedTo(s, k + 1, t', PacketsOf(if answer.Some? then answers + [answer.value] else answers))
  {
    ServedOnce(handle, s, k, t, PacketsOf(answers));
    PacketsOfMore(answers, handle(t, s.toServer[k]).1);
  }

  lemma {:induction false} ServedIsFold(handle: (Table, Packet) -> (Table, Option<Answer>), s: State, k: nat)
    requires k <= |s.toServer|
    ensures var (t, answers) := Fold(handle, s.server, s.toServer[..k]);
      ServedTimes(handle, s, k) == ServedTo(s, k, t, PacketsOf(answers))
  {
    if k > 0 {
      var (t, answers) := Fold(handle, s.server, s.toServer[..k - 1]);
      ServedIsFold(handle, s, k - 1);
      ServedMore(handle, s, k - 1, t, answers);
      FoldPrefix(handle, s.server, s.toServer, k - 1);
    } else {
      assert s.toServer[..0] == [] && s.toClient + [] == s.toClient;
    }
  }

  lemma ServeIsServed(c: Config, s: State)
    ensures Next(c, s, Serve(true)) == Served(PacketHandler(c.server), s)
  {
  }

  lemma ServesAreServed(c: Config, s: State, k: nat)
    ensures Serves(c, s, k) == ServedTimes(PacketHandler(c.server), s, k)
  {
    forall u { ServeIsServed(c, u); }
    IterateAlike(u => Next(c, u, Serve(true)), u => Served(PacketHandler(c.server), u), s, k);
  }

  // k steps serve the first k packets: the table and the answers are those of handling them one by one ...
  lemma ServesAreHandles(c: Config, s: State, k: nat)
    requires k <= |s.toServer|
    ensures var (t, answers) := Fold(PacketHandler(c.server), s.server, s.toServer[..k]);
      Serves(c, s, k) == ServedTo(s, k, t, PacketsOf(answers))
  {
    ServesAreServed(c, s, k);
    ServedIsFold(PacketHandler(c.server), s, k);
  }

  // ... and so those parse_server_buffer makes of them when one read brings them all.
  lemma ServesAreParse(c: Config, s: State, k: nat, tail: seq<uint8>)
    requires k <= |s.toServer| && AreFrames(s.toServer[..k]) && tail != []
    ensures |Joined(s.toServer[..k])| == k * PACKET_SIZE
    ensures var (t, answers) := ParseBuffer(c.server, s.server, Joined(s.toServer[..k]) + tail, 0, k * PACKET_SIZE);
      Serves(c, s, k).server == t && Serves(c, s, k).toClient == s.toClient + PacketsOf(answers)
  {
    ServesAreHandles(c, s, k);
    ParsePackets(c.server, s.server, s.toServer[..k], tail);
  }

  // An exchange nothing disturbs succeeds, whatever stale answers are still in the stream, exactly if the
  // local table takes the value the server holds.
  lemma UndisturbedGet(c: Config, s: State, val: uint8, s1: State, s2: State, s3: State, s4: State, s5: State)
    requires |s.calls| < TWO32 && s.queue == [] && s.worker == None && s.toServer == [] && val < |c.client.max|
    requires forall p | p in s.toClient :: Number(p) != |s.calls|
    requires s1 == Next(c, s, Prepare(PC_GET_UINT32, val, [], true)) && s2 == Next(c, s1, Enqueue(|s.calls|))
    requires s3 == TakeStep(s2, true, true) && s4 == Next(c, s3, Serve(true))
    requires s5 == Receives(s4, |s.toClient| + 1)
    ensures var v := GetValue(s.server, val);
      |ReturnStep(c, s5, |s.calls|).calls| > |s.calls|
      && ReturnStep(c, s5, |s.calls|).calls[|s.calls|].phase
         == Returned(if SetValue(c.client, s.client, val, v).1 then Some(v) else None)
  {
    RequestSent(c, s, val, s1, s2, s3);
    var p := ServedGet(c, s3, |s.calls|, val);
    DroppedUntilMatch(s4, |s.calls|, |s.toClient|);
  }

  lemma ServedGet(c: Config, s: State, n: uint32, val: uint8) returns (p: Packet)
    requires s.toServer == [RequestPacket(n, PC_GET_UINT32, val, [], true)]
    ensures Next(c, s, Serve(true)) == s.(toServer := [], toClient := s.toClient + [p])
    ensures Number(p) == n && Value32(p) == GetValue(s.server, val)
    ensures p[FRAME_CMD_POS] == CMD_ANSWER && p[FRAME_PARSE_TYPE_POS] == PC_GET_UINT32 && p[FRAME_VALUE_TYPE_POS] == val
  {
    FrameFields(n, CMD_REQUEST, PC_GET_UINT32, val, []);
    var v := GetValue(s.server, val);
    p := AnswerBytes(Answer(n, PC_GET_UINT32, val, U32(v)));
    FrameFields(n, CMD_ANSWER, PC_GET_UINT32, val, Le32(v));
    FrameValue32(n, CMD_ANSWER, PC_GET_UINT32, val, v);
  }
}
