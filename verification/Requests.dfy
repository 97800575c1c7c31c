// The client's requests at the server: what a set stores, and what a later get brings back.
module Requests {
  import opened CmdClientReq
  import opened Options
  import opened Packets
  import opened Parameters
  import opened ParseCmd
  import opened Protocol
  import opened ServerBytes
  import opened Words

  // The requests are those of the calls in Protocol.
  lemma RequestIsPacket(number: uint32, ptype: uint8, val: uint8, v: uint32, timeout: uint32)
    ensures RequestBytes(number, ptype, val, v, timeout)
         == RequestPacket(number, ptype, val, if ptype == 1 then Le32(v) else [], timeout != 0)
  {
    RequestRead(number, ptype, val, v, timeout);
  }

  lemma KeepAliveBytes()
    ensures KeepAlivePacket() == [64, 255, 255, 255, 255, 0x11, 0, 0] + Zeros(56)
  {
    FrameBytes(0xFFFF_FFFF, 0x11, 0, 0, []);
  }

  // The server stores the value of a set if it is within the maximum, and confirms or refuses it unless it
  // came without a timeout.
  lemma SetRequestHandled(l: Limits, t: Table, number: uint32, val: uint8, v: uint32, timeout: uint32)
    requires ValidTable(l, t)
    ensures var (t', answer) := Handle(l, t, Decode(RequestBytes(number, PC_SET_UINT32, val, v, timeout)));
      var ok := val < |l.max| && v <= l.max[val];
      t' == (if ok then Table(t.values[val := v], t.strings) else t)
      && AnswerPackets(answer)
         == if timeout == 0 then [] else [Frame(number, 0x22, PC_SET_UINT32, val, [if ok then 0xFF else 0xFE])]
  {
    var p := RequestBytes(number, PC_SET_UINT32, val, v, timeout);
    RequestRead(number, PC_SET_UINT32, val, v, timeout);
    assert p[0..] == p && p[..64] == p;
    SetHeld(p, 0, number, p[5], val, v);
    SetValueBytes(l, t, p, 0);
    AnswerIsFrame(p, 0, number, PC_SET_UINT32, val, [if val < |l.max| && v <= l.max[val] then 0xFF else 0xFE]);
  }

  // It answers a get with the value it holds.
  lemma GetRequestHandled(l: Limits, t: Table, number: uint32, val: uint8, timeout: uint32)
    requires timeout != 0
    ensures Handle(l, t, Decode(RequestBytes(number, PC_GET_UINT32, val, 0, timeout))).0 == t
    ensures AnswerPackets(Handle(l, t, Decode(RequestBytes(number, PC_GET_UINT32, val, 0, timeout))).1)
         == [Frame(number, 0x22, PC_GET_UINT32, val, Le32(if val < |t.values| then t.values[val] else 0))]
  {
    var p := RequestBytes(number, PC_GET_UINT32, val, 0, timeout);
    RequestRead(number, PC_GET_UINT32, val, 0, timeout);
    assert p[0..] == p && p[..64] == p;
    GetHeld(p, 0, number, PC_GET_UINT32, val);
    GetValueBytes(l, t, p, 0);
    var v := if val < |t.values| then t.values[val] else 0;
    Le32Bytes(v);
    AnswerIsFrame(p, 0, number, PC_GET_UINT32, val, Le32(v));
  }

  // So a value set within the server's maximum is what the next get returns and the local table holds, if that
  // takes it; else the get fails and the local table stays.
  lemma SetComesBack(l: Limits, t: Table, cl: Limits, ct: Table, n: uint32, n': uint32, val: uint8, v: uint32,
                     timeout: uint32, timeout': uint32)
    returns (p: Packet)
    requires ValidTable(l, t) && ValidTable(cl, ct) && val < |l.max| && v <= l.max[val] && timeout' != 0
    ensures var (t', _) := Handle(l, t, Decode(RequestBytes(n, PC_SET_UINT32, val, v, timeout)));
      AnswerPackets(Handle(l, t', Decode(RequestBytes(n', PC_GET_UINT32, val, 0, timeout'))).1) == [p]
    ensures AcceptAnswer(cl, ct, val, n', p)
         == if val < |cl.max| && v <= cl.max[val] then (Table(ct.values[val := v], ct.strings), Some(v)) else (ct, None)
  {
    var t' := Handle(l, t, Decode(RequestBytes(n, PC_SET_UINT32, val, v, timeout))).0;
    SetRequestHandled(l, t, n, val, v, timeout);
    GetRequestHandled(l, t', n', val, timeout');
    p := Frame(n', 0x22, PC_GET_UINT32, val, Le32(v));
    AnswerTaken(cl, ct, n', val, v);
  }

  lemma AnswerTaken(l: Limits, t: Table, n: uint32, val: uint8, v: uint32)
    requires ValidTable(l, t)
    ensures AcceptAnswer(l, t, val, n, Frame(n, 0x22, PC_GET_UINT32, val, Le32(v)))
         == if val < |l.max| && v <= l.max[val] then (Table(t.values[val := v], t.strings), Some(v)) else (t, None)
  {
    FrameFields(n, 0x22, PC_GET_UINT32, val, Le32(v));
    FrameValue32(n, 0x22, PC_GET_UINT32, val, v);
  }
}
