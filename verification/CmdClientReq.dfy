// cmd_client_req.c: the client's requests, and the reassembly of packets from reads of any size.
module CmdClientReq {
  import opened Options
  import opened Packets
  import opened Parameters
  import opened Words

  const PAYLOAD_SIZE: nat := 256

  // The error codes that matter here; Pending is a run that has not returned yet.
  datatype Result = Ok | Fail | Timeout | Pending

  // One turn of a receive loop as the environment decides it: what cmdClientRead returns, negative
  // being an error or a timeout of its select, whether the deadline has passed after it, and, if the
  // packet it completes has the wrong number, whether the deadline has passed after that.
  datatype Event = Event(ret: int, late: bool, lateAfter: bool)

  // A request as bytes: with a timeout it asks for an answer, without one it is mere data.
  function RequestBytes(number: uint32, ptype: uint8, val: uint8, v: uint32, timeout: uint32): (p: seq<uint8>)
    ensures |p| == PACKET_SIZE
  {
    Frame(number, if timeout == 0 then CMD_DATA else CMD_REQUEST, ptype, val,
          if ptype == PC_SET_UINT32 then Le32(v) else [])
  }

  // It carries its number, the command that goes with the timeout, its type, the entry's index and, for a set,
  // the value.
  lemma RequestRead(number: uint32, ptype: uint8, val: uint8, v: uint32, timeout: uint32)
    ensures var p := RequestBytes(number, ptype, val, v, timeout);
      p[0] == 64 && Number(p) == number && p[5] == (if timeout == 0 then 0x33 else 0x11) && p[6] == ptype && p[7] == val
      && (ptype == 1 ==> Value32(p) == v && p == Frame(number, p[5], 1, val, Le32(v)))
      && (ptype != 1 ==> p == Frame(number, p[5], ptype, val, []))
  {
    FrameFields(number, if timeout == 0 then CMD_DATA else CMD_REQUEST, ptype, val, if ptype == PC_SET_UINT32 then Le32(v) else []);
    if ptype == PC_SET_UINT32 { FrameValue32(number, if timeout == 0 then CMD_DATA else CMD_REQUEST, ptype, val, v); }
  }

  // The n-th packet of a stream.
  function PacketOf(stream: seq<uint8>, n: nat): (p: seq<uint8>)
    requires (n + 1) * PACKET_SIZE <= |stream|
    ensures |p| == PACKET_SIZE
  {
    stream[n * PACKET_SIZE..(n + 1) * PACKET_SIZE]
  }

  function Min(a: int, b: int): int {
    if a < b then a else b
  }

  // What a receive loop comes to, how many turns it took, and how many bytes it has.
  datatype Reception = Reception(result: Result, used: nat, bytes: nat)

  // `got` bytes of a packet are there and `avail` more in the stream; each turn reads what is asked for,
  // what the connection gives, or what there is, whichever is least.
  function Receive(avail: nat, got: nat, script: seq<Event>): (r: Reception)
    requires got < PACKET_SIZE
    ensures r.used <= |script| && got <= r.bytes <= got + avail && r.bytes <= PACKET_SIZE
    ensures r.result == Ok ==> r.bytes == PACKET_SIZE && r.used > 0
    decreases |script|
  {
    if script == [] then Reception(Pending, 0, got)
    else if script[0].ret < 0 then Reception(Fail, 1, got)
    else
      var n := Min(Min(script[0].ret, PACKET_SIZE - got), avail);
      if script[0].late then Reception(Timeout, 1, got + n)
      else if got + n >= PACKET_SIZE then Reception(Ok, 1, got + n)
      else
        var r := Receive(avail - n, got + n, script[1..]);
        r.(used := r.used + 1)
  }

  // It ends with the first turn that fails, is late or completes the packet, ...
  lemma {:induction false} ReceiveGoesOn(avail: nat, got: nat, script: seq<Event>)
    requires got < 64
    ensures var r := Receive(avail, got, script);
      && (forall i | 0 <= i < r.used - 1 :: script[i].ret >= 0 && !script[i].late)
      && (r.result == Pending ==> r.used == |script| && r.bytes < 64)
      && (r.result == Pending && r.used > 0 ==> script[r.used - 1].ret >= 0 && !script[r.used - 1].late)
    decreases |script|
  {
    if script != [] && script[0].ret >= 0 && !script[0].late {
      var n := Min(Min(script[0].ret, 64 - got), avail);
      if got + n < 64 { ReceiveGoesOn(avail - n, got + n, script[1..]); }
    }
  }

  // ... and says which it was.
  lemma {:induction false} ReceiveEnds(avail: nat, got: nat, script: seq<Event>)
    requires got < 64 && Receive(avail, got, script).result != Pending
    ensures var r := Receive(avail, got, script);
      r.used > 0 && var e := script[r.used - 1];
      r.result == (if e.ret < 0 then Fail else if e.late then Timeout else Ok) && (r.result == Ok ==> r.bytes == 64)
    decreases |script|
  {
    if script[0].ret >= 0 && !script[0].late {
      var n := Min(Min(script[0].ret, 64 - got), avail);
      if got + n < 64 { ReceiveEnds(avail - n, got + n, script[1..]); }
    }
  }

  // What waiting for an answer comes to: the answer, the packets dropped before it, and the stream left.
  datatype Outcome = Outcome(result: Result, rx: seq<uint8>, skipped: nat, rest: seq<uint8>)

  function Await(stream: seq<uint8>, number: uint32, script: seq<Event>): Outcome
    decreases |script|
  {
    var r := Receive(|stream|, 0, script);
    if r.result != Ok then Outcome(r.result, [], 0, stream[r.bytes..])
    else
      var packet := stream[..PACKET_SIZE];
      if Number(packet) == number then Outcome(Ok, packet, 0, stream[PACKET_SIZE..])
      else if script[r.used - 1].lateAfter then Outcome(Fail, [], 1, stream[PACKET_SIZE..])
      else
        var o := Await(stream[PACKET_SIZE..], number, script[r.used..]);
        o.(skipped := o.skipped + 1)
  }

  // Waiting fails only for an error or a deadline passed after a packet with another number, times out only for
  // a deadline passed after a read, and goes on only while neither happens.
  lemma {:induction false} AwaitCause(stream: seq<uint8>, number: uint32, script: seq<Event>)
    ensures var o := Await(stream, number, script);
      && (o.result == Fail ==> exists e :: e in script && (e.ret < 0 || e.lateAfter))
      && (o.result == Timeout ==> exists e :: e in script && e.ret >= 0 && e.late)
      && (o.result == Pending ==> forall e | e in script :: e.ret >= 0 && !e.late)
    decreases |script|
  {
    var r := Receive(|stream|, 0, script);
    TurnsTaken(|stream|, script);
    assert script == script[..r.used] + script[r.used..];
    if r.result == Ok {
      AwaitCause(stream[PACKET_SIZE..], number, script[r.used..]);
    }
  }

  lemma TurnsTaken(avail: nat, script: seq<Event>)
    ensures var r := Receive(avail, 0, script);
      && (r.result == Ok || r.result == Pending ==> forall e | e in script[..r.used] :: e.ret >= 0 && !e.late)
      && (r.result == Pending ==> r.used == |script|)
      && (r.result != Pending ==> r.used > 0 && script[r.used - 1] in script)
      && (r.result == Fail ==> script[r.used - 1].ret < 0)
      && (r.result == Timeout ==> script[r.used - 1].ret >= 0 && script[r.used - 1].late)
  {
    ReceiveGoesOn(avail, 0, script);
    if Receive(avail, 0, script).result != Pending { ReceiveEnds(avail, 0, script); }
  }

  // What cmdClientGetValue makes of the packet its request got: the checks in their order, and the
  // local table updated if all pass.
  function AcceptAnswer(l: Limits, t: Table, val: uint8, number: uint32, rx: seq<uint8>): (r: (Table, Option<uint32>))
    requires |rx| == PACKET_SIZE
  {
    if Number(rx) != number || rx[FRAME_CMD_POS] != CMD_ANSWER || rx[FRAME_PARSE_TYPE_POS] != PC_GET_UINT32
       || rx[FRAME_VALUE_TYPE_POS] != val
    then (t, None)
    else
      var (t', ok) := SetValue(l, t, val, Value32(rx));
      if ok then (t', Some(Value32(rx))) else (t, None)
  }

  class Client {
    const store: Store
    const buffer: array<uint8>
    var request_number: uint32
    // The bytes the connection has still to deliver.
    var incoming: seq<uint8>

    ghost predicate Valid()
      reads this, store
    {
      store.Valid() && buffer.Length == PAYLOAD_SIZE
    }

    constructor (store: Store, incoming: seq<uint8>)
      requires store.Valid()
      ensures Valid() && this.store == store && fresh(buffer) && request_number == 0 && this.incoming == incoming
    {
      this.store, this.incoming := store, incoming;
      buffer := new uint8[PAYLOAD_SIZE];
      request_number := 0;
    }

    // _prepare_msg: the next request number, and the header written by position.
    method PrepareMsg(val: uint8, ptype: uint8, timeout: uint32) returns (send_data: array<uint8>, number: uint32)
      modifies this`request_number
      ensures fresh(send_data) && number == old(request_number) && request_number == Wrap32(number + 1)
      ensures send_data[..] == Frame(number, if timeout == 0 then CMD_DATA else CMD_REQUEST, ptype, val, [])
    {
      send_data := new uint8[PACKET_SIZE](_ => 0);
      number := request_number;
      request_number := Wrap32(request_number + 1);
      send_data[FRAME_LEN_POS] := PACKET_SIZE;
      WriteLe32(send_data, FRAME_REQ_NUMBER_POS, number);
      send_data[FRAME_PARSE_TYPE_POS] := ptype;
      send_data[FRAME_VALUE_TYPE_POS] := val;
      send_data[FRAME_CMD_POS] := CMD_REQUEST;
      if timeout == 0 { send_data[FRAME_CMD_POS] := CMD_DATA; }
      ghost var cmd := if timeout == 0 then CMD_DATA else CMD_REQUEST;
      HeaderIsFrame(send_data[..], number, cmd, ptype, val);
    }

    method PrepareU32Msg(val: uint8, v: uint32, ptype: uint8, timeout: uint32) returns (send_data: array<uint8>, number: uint32)
      modifies this`request_number
      ensures fresh(send_data) && number == old(request_number) && request_number == Wrap32(number + 1)
      ensures send_data[..] == RequestBytes(number, ptype, val, v, timeout)
    {
      send_data, number := PrepareMsg(val, ptype, timeout);
      if ptype == PC_SET_UINT32 { WriteLe32(send_data, FRAME_VALUE_POS, v); }
    }

    // cmdClientRead: whatever the connection has, at most len bytes, at buffer[at].
    method Read(at: nat, len: nat, ret: int) returns (r: int)
      requires at + len <= buffer.Length && len > 0
      modifies this`incoming, buffer
      ensures r == if ret < 0 then ret else Min(Min(ret, len), |old(incoming)|)
      ensures r < 0 ==> incoming == old(incoming) && buffer[..] == old(buffer[..])
      ensures r >= 0 ==> incoming == old(incoming)[r..]
      ensures r >= 0 ==> buffer[..] == old(buffer[..])[..at] + old(incoming)[..r] + old(buffer[..])[at + r..]
    {
      if ret < 0 { return ret; }
      r := if ret <= len then ret else len;
      if r > |incoming| { r := |incoming|; }
      forall i | 0 <= i < r { buffer[at + i] := incoming[i]; }
      incoming := incoming[r..];
    }

    // The same within a packet of which `got` bytes of the stream are in the buffer.
    method ReadOn(ghost stream: seq<uint8>, got: nat, ret: int) returns (r: int)
      requires Valid() && got < PACKET_SIZE && got <= |stream|
      requires incoming == stream[got..] && buffer[..got] == stream[..got]
      modifies this`incoming, buffer
      ensures r == if ret < 0 then ret else Min(Min(ret, PACKET_SIZE - got), |stream| - got)
      ensures var now := got + if r < 0 then 0 else r;
        now <= |stream| && incoming == stream[now..] && buffer[..now] == stream[..now]
    {
      r := Read(got, PACKET_SIZE - got, ret);
    }

    // One turn, and what it means for the loop.
    method ReadTurn(ghost stream: seq<uint8>, got: nat, script: seq<Event>, used: nat) returns (ret: int)
      requires Valid() && used < |script| && GoesOn(|stream|, got, script, used)
      requires incoming == stream[got..] && buffer[..got] == stream[..got]
      modifies this`incoming, buffer
      ensures var now := got + if ret < 0 then 0 else ret;
        buffer.Length == PAYLOAD_SIZE && now <= PACKET_SIZE && now <= |stream|
        && incoming == stream[now..] && buffer[..now] == stream[..now]
        && var all := Receive(|stream|, 0, script);
           if ret < 0 then all == Reception(Fail, used + 1, got)
           else if script[used].late then all == Reception(Timeout, used + 1, now)
           else if now >= PACKET_SIZE then all == Reception(Ok, used + 1, now)
           else GoesOn(|stream|, now, script, used + 1)
    {
      TurnGoesOn(|stream|, got, script, used);
      ret := ReadOn(stream, got, script[used].ret);
    }

    method ReceivePacket(script: seq<Event>) returns (result: Result, used: nat)
      requires Valid()
      modifies this`incoming, buffer
      ensures var r := Receive(|old(incoming)|, 0, script);
        result == r.result && used == r.used && incoming == old(incoming)[r.bytes..]
        && buffer[..r.bytes] == old(incoming)[..r.bytes]
    {
      var bytes_read: nat := 0;
      used := 0;
      ghost var stream := incoming;
      while used < |script|
        invariant used <= |script| && bytes_read < PACKET_SIZE && bytes_read <= |stream|
        invariant incoming == stream[bytes_read..] && buffer[..bytes_read] == stream[..bytes_read]
        invariant GoesOn(|stream|, bytes_read, script, used)
      {
        var event := script[used];
        var ret := ReadTurn(stream, bytes_read, script, used);
        used := used + 1;
        if ret < 0 { return Fail, used; }
        bytes_read := bytes_read + ret;
        if event.late { return Timeout, used; }
        if bytes_read >= PACKET_SIZE { return Ok, used; }
      }
      result := Pending;
    }

    // After a request was sent (or not): answers come in until one has its number.  skipped counts
    // the packets dropped before it.
    method RequestMsgProcess(number: uint32, wantsAnswer: bool, sendOk: bool, script: seq<Event>)
      returns (result: Result, rx: seq<uint8>, skipped: nat)
      requires Valid()
      modifies this`incoming, buffer
      ensures Outcome(result, rx, skipped, incoming)
           == if !sendOk then Outcome(Fail, [], 0, old(incoming))
              else if !wantsAnswer then Outcome(Ok, [], 0, old(incoming))
              else Await(old(incoming), number, script)
    {
      rx, skipped := [], 0;
      if !sendOk { return Fail, rx, skipped; }
      if !wantsAnswer { return Ok, rx, skipped; }
      var at := 0;
      while true
        invariant at <= |script|
        invariant var o := Await(incoming, number, script[at..]);
          Await(old(incoming), number, script) == o.(skipped := o.skipped + skipped)
        decreases |script| - at
      {
        ghost var stream := incoming;
        var used;
        AwaitTurn(stream, number, script, at);
        result, used := ReceivePacket(script[at..]);
        if result != Ok { return; }
        at := at + used;
        var packet := buffer[..PACKET_SIZE];
        if Number(packet) == number {
          return Ok, packet, skipped;
        }
        skipped := skipped + 1;
        if script[at - 1].lateAfter { return Fail, rx, skipped; }
      }
    }

    // The end of cmdClientGetValue, once its request was answered.
    method FinishGet(val: uint8, number: uint32, rx: seq<uint8>) returns (value: Option<uint32>)
      requires Valid() && |rx| == PACKET_SIZE
      modifies store
      ensures Valid()
      ensures (store.Contents(), value) == AcceptAnswer(store.limits, old(store.Contents()), val, number, rx)
    {
      if Number(rx) != number { return None; }
      if CMD_ANSWER != rx[FRAME_CMD_POS] { return None; }
      if PC_GET_UINT32 != rx[FRAME_PARSE_TYPE_POS] { return None; }
      if rx[FRAME_VALUE_TYPE_POS] != val { return None; }
      var ok := store.Set(val, Value32(rx));
      if !ok { return None; }
      value := Some(Value32(rx));
    }
  }

  // memcpy of a uint32_t
  method WriteLe32(a: array<uint8>, pos: nat, v: uint32)
    requires pos + 4 <= a.Length
    modifies a
    ensures a[..] == old(a[..])[..pos] + Le32(v) + old(a[..])[pos + 4..]
    ensures var b := Le32(v); a[pos] == b[0] && a[pos + 1] == b[1] && a[pos + 2] == b[2] && a[pos + 3] == b[3]
    ensures forall i | 0 <= i < a.Length && !(pos <= i < pos + 4) :: a[i] == old(a[i])
  {
    var b := Le32(v);
    a[pos], a[pos + 1], a[pos + 2], a[pos + 3] := b[0], b[1], b[2], b[3];
  }

  lemma AwaitTurn(stream: seq<uint8>, number: uint32, script: seq<Event>, at: nat)
    requires at <= |script|
    ensures var r := Receive(|stream|, 0, script[at..]);
      Await(stream, number, script[at..])
      == if r.result != Ok then Outcome(r.result, [], 0, stream[r.bytes..])
         else if Number(stream[..PACKET_SIZE]) == number
         then Outcome(Ok, stream[..PACKET_SIZE], 0, stream[PACKET_SIZE..])
         else if script[at + r.used - 1].lateAfter then Outcome(Fail, [], 1, stream[PACKET_SIZE..])
         else
           var o := Await(stream[PACKET_SIZE..], number, script[at + r.used..]);
           o.(skipped := o.skipped + 1)
  {
    var r := Receive(|stream|, 0, script[at..]);
    assert script[at..][r.used..] == script[at + r.used..];
  }

  // Where the receive loop stands after `used` turns.
  ghost predicate GoesOn(avail: nat, got: nat, script: seq<Event>, used: nat) {
    got < PACKET_SIZE && got <= avail && used <= |script|
    && (var r := Receive(avail - got, got, script[used..]);
        Receive(avail, 0, script) == r.(used := r.used + used))
  }

  lemma TurnGoesOn(avail: nat, got: nat, script: seq<Event>, used: nat)
    requires GoesOn(avail, got, script, used) && used < |script|
    ensures var e := script[used]; var all := Receive(avail, 0, script);
      var n := Min(Min(e.ret, PACKET_SIZE - got), avail - got);
      if e.ret < 0 then all == Reception(Fail, used + 1, got)
      else if e.late then all == Reception(Timeout, used + 1, got + n)
      else if got + n >= PACKET_SIZE then all == Reception(Ok, used + 1, got + n)
      else GoesOn(avail, got + n, script, used + 1)
  {
    assert script[used..][1..] == script[used + 1..];
  }

  // No turn fails or is late, and each brings a byte if there is one.
  ghost predicate Patient(script: seq<Event>) {
    forall e | e in script :: e.ret >= 1 && !e.late && !e.lateAfter
  }

  // Packet k is the first of the stream with the number.
  ghost predicate FirstMatch(stream: seq<uint8>, number: uint32, k: nat) {
    (k + 1) * PACKET_SIZE <= |stream| && Number(PacketOf(stream, k)) == number
    && forall i: nat | i < k :: Number(PacketOf(stream, i)) != number
  }

  // Ok means: the first packet with the number was delivered, whole, and the stream is left at the packet
  // boundary behind it, however the stream was cut into reads.
  lemma {:induction false} OkIsFirstMatch(stream: seq<uint8>, number: uint32, script: seq<Event>)
    ensures var o := Await(stream, number, script);
      o.result == Ok ==> FirstMatch(stream, number, o.skipped) && o.rx == PacketOf(stream, o.skipped)
                         && o.rest == stream[(o.skipped + 1) * PACKET_SIZE..]
    decreases |script|
  {
    var r := Receive(|stream|, 0, script);
    if r.result == Ok {
      OkIsFirstMatch(stream[PACKET_SIZE..], number, script[r.used..]);
      var o := Await(stream[PACKET_SIZE..], number, script[r.used..]);
      assert stream[..PACKET_SIZE] == PacketOf(stream, 0);
      if Number(PacketOf(stream, 0)) != number && o.result == Ok {
        LaterPackets(stream, number, o.skipped);
      }
    }
  }

  lemma PacketOfRest(stream: seq<uint8>, i: nat)
    requires (i + 2) * PACKET_SIZE <= |stream|
    ensures PacketOf(stream[PACKET_SIZE..], i) == PacketOf(stream, i + 1)
    ensures stream[PACKET_SIZE..][(i + 1) * PACKET_SIZE..] == stream[(i + 2) * PACKET_SIZE..]
  {
  }

  lemma LaterPackets(stream: seq<uint8>, number: uint32, k: nat)
    requires PACKET_SIZE <= |stream| && Number(PacketOf(stream, 0)) != number
    ensures FirstMatch(stream[PACKET_SIZE..], number, k) <==> FirstMatch(stream, number, k + 1)
    ensures FirstMatch(stream, number, k + 1) ==>
      PacketOf(stream, k + 1) == PacketOf(stream[PACKET_SIZE..], k)
      && stream[PACKET_SIZE..][(k + 1) * PACKET_SIZE..] == stream[(k + 2) * PACKET_SIZE..]
  {
    var rest := stream[PACKET_SIZE..];
    forall i: nat | (i + 1) * PACKET_SIZE <= |rest| ensures PacketOf(stream, i + 1) == PacketOf(rest, i) {
      PacketOfRest(stream, i);
    }
    if FirstMatch(stream, number, k + 1) {
      forall i: nat | i < k ensures Number(PacketOf(rest, i)) != number {
        assert Number(PacketOf(stream, i + 1)) != number;
      }
    }
    if FirstMatch(rest, number, k) {
      forall i: nat | i < k + 1 ensures Number(PacketOf(stream, i)) != number {
        if i > 0 { assert Number(PacketOf(rest, i - 1)) != number; }
      }
    }
  }

  lemma {:induction false} PatientReceive(avail: nat, got: nat, script: seq<Event>)
    requires got < PACKET_SIZE <= got + avail && Patient(script) && |script| >= PACKET_SIZE - got
    ensures Receive(avail, got, script).result == Ok && Receive(avail, got, script).used <= PACKET_SIZE - got
    decreases |script|
  {
    var n := Min(Min(script[0].ret, PACKET_SIZE - got), avail);
    assert script[0] in script;
    assert forall e | e in script[1..] :: e in script;
    if got + n < PACKET_SIZE { PatientReceive(avail - n, got + n, script[1..]); }
  }

  // And if such a packet is in the stream, enough turns that neither fail nor are late do deliver it.
  lemma {:induction false} PatientDelivers(stream: seq<uint8>, number: uint32, script: seq<Event>, k: nat)
    requires FirstMatch(stream, number, k) && Patient(script) && |script| >= (k + 1) * PACKET_SIZE
    ensures Await(stream, number, script).result == Ok && Await(stream, number, script).skipped == k
    decreases k
  {
    PatientReceive(|stream|, 0, script);
    var r := Receive(|stream|, 0, script);
    assert stream[..PACKET_SIZE] == PacketOf(stream, 0);
    assert script[r.used - 1] in script;
    if k > 0 {
      assert forall e | e in script[r.used..] :: e in script;
      LaterPackets(stream, number, k - 1);
      PatientDelivers(stream[PACKET_SIZE..], number, script[r.used..], k - 1);
    }
  }

  // On success the local table holds the value returned; otherwise it is as it was.
  lemma AcceptedOrUnchanged(l: Limits, t: Table, val: uint8, number: uint32, rx: seq<uint8>)
    requires ValidTable(l, t) && |rx| == PACKET_SIZE
    ensures var (t', value) := AcceptAnswer(l, t, val, number, rx);
      && ValidTable(l, t')
      && (value == None ==> t' == t)
      && (value.Some? ==> GetValue(t', val) == value.value)
      && (forall other: uint8 | other != val :: GetValue(t', other) == GetValue(t, other))
  {
  }

  // In bytes: the number echoed, an answer to a get of this very entry, and a value the local table takes.
  lemma AnswerAccepted(l: Limits, t: Table, val: uint8, number: uint32, rx: seq<uint8>)
    requires ValidTable(l, t) && |rx| == PACKET_SIZE
    ensures var v: uint32 := rx[8] + 256 * (rx[9] as int) + 65536 * (rx[10] as int) + 16777216 * (rx[11] as int);
      AcceptAnswer(l, t, val, number, rx)
        == if rx[1..5] == Le32(number) && rx[5] == 0x22 && rx[6] == 2 && rx[7] == val && val < |l.max| && v <= l.max[val]
           then (Table(t.values[val := v], t.strings), Some(v)) else (t, None)
  {
    LittleEndian(rx[1..5]);
    LittleEndian(rx[8..12]);
    Le32RoundTrip(number);
  }
}
