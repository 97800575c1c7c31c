// parse_cmd.c: the server takes a received buffer apart into frames and answers from its table.
module ParseCmd {
  import opened Folding
  import opened Options
  import opened Packets
  import opened Parameters
  import opened Words

  // What is read of a frame at most: the fixed fields and a string of MAX_STRING_LEN bytes.
  const READ_LEN: nat := FRAME_VALUE_POS + MAX_STRING_LEN

  // The string before the first 0, cut at `limit`; setString refuses every string that long.
  function CString(b: seq<uint8>, limit: nat): (s: seq<uint8>)
    ensures |s| <= limit && 0 !in s
  {
    if limit == 0 || b == [] || b[0] == 0 then [] else [b[0]] + CString(b[1..], limit - 1)
  }

  // A frame as the server reads it; the value field is read as a number or as a string.
  datatype Message = Message(number: uint32, cmd: uint8, ptype: uint8, val: uint8, v: uint32, str: seq<uint8>)

  // From the bytes at the frame's start on, whether or not its length byte covers them.
  function Decode(m: seq<uint8>): Message
    requires |m| >= READ_LEN
  {
    Message(Number(m), m[FRAME_CMD_POS], m[FRAME_PARSE_TYPE_POS], m[FRAME_VALUE_TYPE_POS], Value32(m),
            CString(m[FRAME_VALUE_POS..], MAX_STRING_LEN))
  }

  // What an answer says in its value field.
  datatype Reply = U32(v: uint32) | Verdict(ok: bool) | Str(s: seq<uint8>)

  datatype Answer = Answer(number: uint32, ptype: uint8, val: uint8, reply: Reply)

  function ReplyBytes(r: Reply): seq<uint8> {
    match r
    case U32(v) => Le32(v)
    case Verdict(ok) => [if ok then POSITIVE_RESP else NEGATIVE_RESP]
    case Str(s) => s
  }

  predicate Fits(a: Answer) {
    |ReplyBytes(a.reply)| <= PACKET_SIZE - FRAME_VALUE_POS
  }

  function AnswerBytes(a: Answer): (p: seq<uint8>)
    requires Fits(a)
    ensures |p| == PACKET_SIZE
  {
    Frame(a.number, CMD_ANSWER, a.ptype, a.val, ReplyBytes(a.reply))
  }

  // The packet an answer is sent as.
  function AnswerPackets(a: Option<Answer>): seq<Packet> {
    if a.Some? && Fits(a.value) then [AnswerBytes(a.value)] else []
  }

  // The packets of a list of answers.
  function PacketsOf(answers: seq<Answer>): seq<Packet> {
    if answers == [] then [] else PacketsOf(answers[..|answers| - 1]) + AnswerPackets(Some(answers[|answers| - 1]))
  }

  lemma PacketsOfMore(answers: seq<Answer>, o: Option<Answer>)
    ensures PacketsOf(if o.Some? then answers + [o.value] else answers) == PacketsOf(answers) + AnswerPackets(o)
  {
    if o.Some? { assert (answers + [o.value])[..|answers|] == answers; }
  }

  // One frame: the new table and the answer, if one is sent.
  function Handle(l: Limits, t: Table, m: Message): (Table, Option<Answer>) {
    if m.cmd != CMD_REQUEST && m.cmd != CMD_DATA then (t, None)
    else if m.ptype == PC_GET_UINT32 then
      (t, Some(Answer(m.number, m.ptype, m.val, U32(GetValue(t, m.val)))))
    else if m.ptype == PC_SET_UINT32 then
      var (t', ok) := SetValue(l, t, m.val, m.v);
      (t', if m.cmd == CMD_DATA then None else Some(Answer(m.number, m.ptype, m.val, Verdict(ok))))
    else if m.ptype == PC_SET_STRING then
      var (t', ok) := SetString(t, m.val, m.str);
      (t', if m.cmd == CMD_DATA then None else Some(Answer(m.number, m.ptype, m.val, Verdict(ok))))
    else if m.ptype == PC_GET_STRING then
      (t, Some(Answer(m.number, m.ptype, m.val, Str(GetString(t, m.val, PACKET_SIZE - FRAME_VALUE_POS).GetOr([])))))
    else (t, None)
  }

  lemma HandleKeepsTable(l: Limits, t: Table, m: Message)
    requires ValidTable(l, t) && 0 !in m.str
    ensures ValidTable(l, Handle(l, t, m).0)
    ensures ShortStrings(t) ==> ShortStrings(Handle(l, t, m).0)
    ensures WithinMax(l, t) ==> WithinMax(l, Handle(l, t, m).0)
    ensures Handle(l, t, m).1.Some? ==> Fits(Handle(l, t, m).1.value)
  {
  }

  // Where the frames of the first `len` bytes from `at` on start: each is as long as its first byte
  // says, up to one that says 0 or more than is left.
  function FrameStarts(m: seq<uint8>, at: nat, len: nat): (starts: seq<int>)
    requires at + len < |m|
    ensures forall i | 0 <= i < |starts| :: at <= starts[i] < at + len
    decreases len
  {
    if m[at] == 0 || m[at] > len then []
    else [at] + FrameStarts(m, at + m[at], len - m[at])
  }

  // Where they end.
  function FramesEnd(m: seq<uint8>, at: nat, len: nat): (end: nat)
    requires at + len < |m|
    ensures at <= end <= at + len
    decreases len
  {
    if m[at] == 0 || m[at] > len then at else FramesEnd(m, at + m[at], len - m[at])
  }

  // A frame from `start` to `end`
  predicate FrameAt(m: seq<uint8>, start: int, end: int) {
    0 <= start < |m| && m[start] > 0 && start + m[start] == end
  }

  // The frames follow each other without gaps from `at` on, and after the last of them nothing is left, or
  // no frame that is not empty and fits.
  lemma {:induction false} FramesAreLongestChain(m: seq<uint8>, at: nat, len: nat)
    requires at + len < |m|
    ensures var ends := FrameStarts(m, at, len) + [FramesEnd(m, at, len)];
      ends[0] == at && forall i | 0 <= i < |ends| - 1 :: FrameAt(m, ends[i], ends[i + 1])
    ensures var end := FramesEnd(m, at, len); m[end] == 0 || m[end] > at + len - end
    decreases len
  {
    if m[at] != 0 && m[at] <= len {
      var next := at + m[at];
      FramesAreLongestChain(m, next, len - m[at]);
      var rest := FrameStarts(m, next, len - m[at]) + [FramesEnd(m, at, len)];
      assert FrameStarts(m, at, len) + [FramesEnd(m, at, len)] == [at] + rest;
    }
  }

  // Handling the frame that starts at `at`.
  function HandleAt(l: Limits, m: seq<uint8>, t: Table, at: int): (Table, Option<Answer>) {
    if 0 <= at <= |m| - READ_LEN then Handle(l, t, Decode(m[at..])) else (t, None)
  }

  function Handler(l: Limits, m: seq<uint8>): (Table, int) -> (Table, Option<Answer>) {
    (t, at) => HandleAt(l, m, t, at)
  }

  // The table a buffer's frames leave, handled in order, and the answers they get.
  function ParseBuffer(l: Limits, t: Table, m: seq<uint8>, at: nat, len: nat): (Table, seq<Answer>)
    requires at + len < |m|
  {
    Fold(Handler(l, m), t, FrameStarts(m, at, len))
  }

  class Server {
    const store: Store
    const sendBuff: array<uint8>
    // The bytes handed to cmdServerSendData, in order.
    var sent: seq<Packet>

    ghost predicate Valid()
      reads this, store
    {
      store.Valid() && sendBuff.Length == PACKET_SIZE
    }

    constructor (store: Store)
      requires store.Valid()
      ensures Valid() && this.store == store && fresh(sendBuff) && sent == []
    {
      this.store := store;
      sendBuff := new uint8[PACKET_SIZE];
      sent := [];
    }

    // memcpy into sendBuff
    method CopyOut(pos: nat, data: seq<uint8>)
      requires pos + |data| <= sendBuff.Length
      modifies sendBuff
      ensures sendBuff[..] == old(sendBuff[..])[..pos] + data + old(sendBuff[..])[pos + |data|..]
    {
      var i := 0;
      while i < |data|
        invariant 0 <= i <= |data|
        invariant forall j | 0 <= j < sendBuff.Length ::
          sendBuff[j] == if pos <= j < pos + i then data[j - pos] else old(sendBuff[j])
      {
        sendBuff[pos + i] := data[i];
        i := i + 1;
      }
    }

    method PrepareAnswer(number: uint32, ptype: uint8, val: uint8)
      requires sendBuff.Length == PACKET_SIZE && sendBuff[..] == Zeros(PACKET_SIZE)
      modifies sendBuff
      ensures sendBuff[..] == Frame(number, CMD_ANSWER, ptype, val, [])
    {
      sendBuff[FRAME_LEN_POS] := PACKET_SIZE;
      CopyOut(FRAME_REQ_NUMBER_POS, Le32(number));
      sendBuff[FRAME_CMD_POS] := CMD_ANSWER;
      sendBuff[FRAME_PARSE_TYPE_POS] := ptype;
      sendBuff[FRAME_VALUE_TYPE_POS] := val;
    }

    // The value field on top of a prepared answer, and its sending unless the peer wants no answer.
    method FillAndSend(a: Answer, send: bool)
      requires sendBuff.Length == PACKET_SIZE && Fits(a)
      requires sendBuff[..] == Frame(a.number, CMD_ANSWER, a.ptype, a.val, [])
      modifies this`sent, sendBuff
      ensures sendBuff[..] == AnswerBytes(a)
      ensures sent == if send then old(sent) + [AnswerBytes(a)] else old(sent)
    {
      CopyOut(FRAME_VALUE_POS, ReplyBytes(a.reply));
      if send { sent := sent + [sendBuff[..]]; }
    }

    method ParseServer(buff: seq<uint8>)
      requires Valid() && |buff| >= READ_LEN
      modifies this`sent, store, sendBuff
      ensures Valid()
      ensures var (t, answer) := Handle(store.limits, old(store.Contents()), Decode(buff));
        store.Contents() == t && sent == old(sent) + AnswerPackets(answer) && (answer.Some? ==> Fits(answer.value))
    {
      var m := Decode(buff);
      forall i | 0 <= i < PACKET_SIZE { sendBuff[i] := 0; }
      assert sendBuff[..] == Zeros(PACKET_SIZE);
      if m.cmd == CMD_REQUEST || m.cmd == CMD_DATA {
        if m.ptype == PC_GET_UINT32 {
          PrepareAnswer(m.number, m.ptype, m.val);
          var value := store.Get(m.val);
          FillAndSend(Answer(m.number, m.ptype, m.val, U32(value)), true);
        } else if m.ptype == PC_SET_UINT32 {
          PrepareAnswer(m.number, m.ptype, m.val);
          var ok := store.Set(m.val, m.v);
          FillAndSend(Answer(m.number, m.ptype, m.val, Verdict(ok)), m.cmd != CMD_DATA);
        } else if m.ptype == PC_SET_STRING {
          PrepareAnswer(m.number, m.ptype, m.val);
          var ok := store.SetStr(m.val, m.str);
          FillAndSend(Answer(m.number, m.ptype, m.val, Verdict(ok)), m.cmd != CMD_DATA);
        } else if m.ptype == PC_GET_STRING {
          PrepareAnswer(m.number, m.ptype, m.val);
          var str := store.GetStr(m.val, PACKET_SIZE - FRAME_VALUE_POS);
          FillAndSend(Answer(m.number, m.ptype, m.val, Str(str.GetOr([]))), true);
        }
      }
    }

    // `buff` is the memory from the start of the received bytes on; `len` of them are received.
    // parsed and rest are the final parsed_len and len.
    method ParseServerBuffer(buff: seq<uint8>, len: nat) returns (parsed: nat, rest: nat)
      requires Valid() && len + READ_LEN <= |buff| + 1
      modifies this`sent, store, sendBuff
      ensures Valid()
      ensures store.Contents() == ParseBuffer(store.limits, old(store.Contents()), buff, 0, len).0
      ensures sent == old(sent) + PacketsOf(ParseBuffer(store.limits, old(store.Contents()), buff, 0, len).1)
      ensures parsed + rest == len && parsed == FramesEnd(buff, 0, len)
    {
      parsed, rest := ParseLoop(buff, len, Handler(store.limits, buff));
    }

    // The do-while loop; `handle` stands for what ParseServer does to a frame.
    method ParseLoop(buff: seq<uint8>, len: nat, ghost handle: (Table, int) -> (Table, Option<Answer>))
      returns (parsed: nat, rest: nat)
      requires Valid() && len + READ_LEN <= |buff| + 1 && Handles(handle, store.limits, buff)
      modifies this`sent, store, sendBuff
      ensures Valid()
      ensures store.Contents() == Fold(handle, old(store.Contents()), FrameStarts(buff, 0, len)).0
      ensures sent == old(sent) + PacketsOf(Fold(handle, old(store.Contents()), FrameStarts(buff, 0, len)).1)
      ensures parsed + rest == len && parsed == FramesEnd(buff, 0, len)
    {
      parsed, rest := 0, len;
      ghost var done: seq<int> := [];
      ghost var t0, sent0 := store.Contents(), sent;
      var more := true;
      while more
        invariant Valid() && parsed + rest == len && (!more ==> rest == 0)
        invariant DoneUpTo(buff, len, done, parsed, rest)
        invariant store.Contents() == Fold(handle, t0, done).0
        invariant sent == sent0 + PacketsOf(Fold(handle, t0, done).1)
        decreases more, rest
      {
        var frameLenServer := buff[parsed];
        if frameLenServer > rest { break; }
        if frameLenServer == 0 { break; }
        ParseFrame(buff, parsed, handle, t0, sent0, done);
        DoneMore(buff, len, done, parsed, rest);
        done := done + [parsed];
        parsed, rest := parsed + frameLenServer, rest - frameLenServer;
        more := rest > 0;
      }
      DoneAll(buff, len, done, parsed, rest);
    }

    // One frame after the frames `done`.
    method ParseFrame(buff: seq<uint8>, at: nat, ghost handle: (Table, int) -> (Table, Option<Answer>),
                      ghost t0: Table, ghost sent0: seq<Packet>, ghost done: seq<int>)
      requires Valid() && at + READ_LEN <= |buff| && Handles(handle, store.limits, buff)
      requires store.Contents() == Fold(handle, t0, done).0 && sent == sent0 + PacketsOf(Fold(handle, t0, done).1)
      modifies this`sent, store, sendBuff
      ensures Valid()
      ensures store.Contents() == Fold(handle, t0, done + [at]).0
      ensures sent == sent0 + PacketsOf(Fold(handle, t0, done + [at]).1)
    {
      FoldMore(handle, t0, done, at);
      PacketsOfMore(Fold(handle, t0, done).1, handle(store.Contents(), at).1);
      assert handle(store.Contents(), at) == HandleAt(store.limits, buff, store.Contents(), at);
      ParseServer(buff[at..]);
    }
  }

  // The frames before `at`, with `rest` bytes left.
  ghost predicate DoneUpTo(m: seq<uint8>, len: nat, done: seq<int>, at: int, rest: int) {
    if done == [] then at == 0 && rest == len
    else
      var last := done[|done| - 1];
      0 <= last < |m| && m[last] > 0 && at == last + m[last] && rest >= 0
      && DoneUpTo(m, len, done[..|done| - 1], last, rest + m[last])
  }

  lemma DoneMore(m: seq<uint8>, len: nat, done: seq<int>, at: nat, rest: nat)
    requires DoneUpTo(m, len, done, at, rest) && at < |m| && 0 < m[at] <= rest
    ensures DoneUpTo(m, len, done + [at], at + m[at], rest - m[at])
  {
    assert (done + [at])[..|done|] == done;
  }

  lemma {:induction false} DoneStarts(m: seq<uint8>, len: nat, done: seq<int>, at: int, rest: int)
    requires DoneUpTo(m, len, done, at, rest) && len < |m|
    ensures at >= 0 && rest >= 0 && at + rest == len
    ensures done + FrameStarts(m, at, rest) == FrameStarts(m, 0, len) && FramesEnd(m, at, rest) == FramesEnd(m, 0, len)
    decreases |done|
  {
    if done != [] {
      var last := done[|done| - 1];
      DoneStarts(m, len, done[..|done| - 1], last, rest + m[last]);
      assert FrameStarts(m, last, rest + m[last]) == [last] + FrameStarts(m, at, rest);
    }
  }

  // Where no further frame fits, all are done.
  lemma DoneAll(m: seq<uint8>, len: nat, done: seq<int>, at: int, rest: int)
    requires DoneUpTo(m, len, done, at, rest) && len < |m| && 0 <= at < |m| && (m[at] == 0 || m[at] > rest)
    ensures done == FrameStarts(m, 0, len) && at == FramesEnd(m, 0, len)
  {
    DoneStarts(m, len, done, at, rest);
    assert done + [] == done;
  }

  ghost predicate Handles(handle: (Table, int) -> (Table, Option<Answer>), l: Limits, m: seq<uint8>) {
    forall t: Table, at: int {:trigger HandleAt(l, m, t, at)} :: handle(t, at) == HandleAt(l, m, t, at)
  }

  // The bytes from `at` on are n whole packets.
  ghost predicate WholePackets(m: seq<uint8>, at: nat, n: nat)
    decreases n
  {
    at + n * PACKET_SIZE <= |m|
    && (n == 0 || (m[at] == PACKET_SIZE && WholePackets(m, at + PACKET_SIZE, n - 1)))
  }

  // Whole packets are the frames they come as, whatever follows them ...
  lemma {:induction false} StartsAppend(m: seq<uint8>, at: nat, n: nat, b: nat)
    requires WholePackets(m, at, n) && at + n * PACKET_SIZE + b < |m|
    ensures FrameStarts(m, at, n * PACKET_SIZE + b)
         == FrameStarts(m, at, n * PACKET_SIZE) + FrameStarts(m, at + n * PACKET_SIZE, b)
    ensures |FrameStarts(m, at, n * PACKET_SIZE)| == n
    decreases n
  {
    if n > 0 {
      var next := at + PACKET_SIZE;
      StartsAppend(m, next, n - 1, b);
      StartsUnfold(m, at, n * PACKET_SIZE + b);
      StartsUnfold(m, at, n * PACKET_SIZE);
      var rest := FrameStarts(m, next, (n - 1) * PACKET_SIZE);
      assert [at] + (rest + FrameStarts(m, at + n * PACKET_SIZE, b)) == ([at] + rest) + FrameStarts(m, at + n * PACKET_SIZE, b);
    }
  }

  lemma StartsUnfold(m: seq<uint8>, at: nat, len: nat)
    requires at + len < |m| && PACKET_SIZE <= len && m[at] == PACKET_SIZE
    ensures FrameStarts(m, at, len) == [at] + FrameStarts(m, at + PACKET_SIZE, len - PACKET_SIZE)
  {
  }

  // ... so parsing whole packets and more is parsing the packets and then, from the table they leave, the rest.
  lemma ParseAppend(l: Limits, t: Table, m: seq<uint8>, at: nat, n: nat, b: nat)
    requires WholePackets(m, at, n) && at + n * PACKET_SIZE + b < |m|
    ensures var (t1, p) := ParseBuffer(l, t, m, at, n * PACKET_SIZE);
      var (t2, q) := ParseBuffer(l, t1, m, at + n * PACKET_SIZE, b);
      ParseBuffer(l, t, m, at, n * PACKET_SIZE + b) == (t2, p + q)
  {
    StartsAppend(m, at, n, b);
    FoldAppend(Handler(l, m), t, FrameStarts(m, at, n * PACKET_SIZE), FrameStarts(m, at + n * PACKET_SIZE, b));
  }

  // What a table must be like: every value within its maximum, every string with room for its terminator.
  ghost predicate TableOk(l: Limits, t: Table) {
    ValidTable(l, t) && WithinMax(l, t) && ShortStrings(t)
  }

  // Whatever bytes arrive, no value passes its maximum and no string grows too long.
  lemma ParseKeepsTable(l: Limits, t: Table, m: seq<uint8>, at: nat, len: nat)
    requires at + len < |m| && TableOk(l, t)
    ensures TableOk(l, ParseBuffer(l, t, m, at, len).0)
  {
    forall u: Table, i: int | TableOk(l, u) ensures TableOk(l, HandleAt(l, m, u, i).0) {
      if 0 <= i <= |m| - READ_LEN { HandleKeepsTable(l, u, Decode(m[i..])); }
    }
    FoldKeeps(Handler(l, m), t, FrameStarts(m, at, len), u => TableOk(l, u));
  }

  // ------ A buffer of packets is its packets ------

  function PacketHandler(l: Limits): (Table, Packet) -> (Table, Option<Answer>) {
    (t, p: Packet) => Handle(l, t, Decode(p))
  }

  lemma {:induction false} CStringLocal(b: seq<uint8>, c: seq<uint8>, limit: nat)
    requires limit <= |b| && limit <= |c| && b[..limit] == c[..limit]
    ensures CString(b, limit) == CString(c, limit)
    decreases limit
  {
    if limit > 0 {
      assert b[0] == b[..limit][0] == c[..limit][0] == c[0];
      assert b[1..][..limit - 1] == b[..limit][1..] == c[..limit][1..] == c[1..][..limit - 1];
      CStringLocal(b[1..], c[1..], limit - 1);
    }
  }

  // The server reads nothing of a frame beyond its packet.
  lemma DecodeLocal(m: seq<uint8>, p: Packet)
    requires PACKET_SIZE <= |m| && m[..PACKET_SIZE] == p
    ensures Decode(m) == Decode(p)
  {
    assert forall i | 0 <= i < PACKET_SIZE :: m[i] == m[..PACKET_SIZE][i];
    assert m[FRAME_REQ_NUMBER_POS..FRAME_REQ_NUMBER_POS + 4] == p[FRAME_REQ_NUMBER_POS..FRAME_REQ_NUMBER_POS + 4];
    assert m[FRAME_VALUE_POS..FRAME_VALUE_POS + 4] == p[FRAME_VALUE_POS..FRAME_VALUE_POS + 4];
    CStringLocal(m[FRAME_VALUE_POS..], p[FRAME_VALUE_POS..], MAX_STRING_LEN);
  }

  // Packets as the client sends them.
  ghost predicate AreFrames(ps: seq<Packet>) {
    forall i | 0 <= i < |ps| :: ps[i][FRAME_LEN_POS] == PACKET_SIZE
  }

  lemma {:induction false} FramesWhole(ps: seq<Packet>, tail: seq<uint8>, k: nat, n: nat)
    requires AreFrames(ps) && k + n <= |ps|
    ensures WholePackets(Joined(ps) + tail, k * PACKET_SIZE, n)
    decreases n
  {
    JoinedLength(ps);
    if n > 0 {
      JoinedAt(ps, k);
      assert (Joined(ps) + tail)[k * PACKET_SIZE] == Joined(ps)[k * PACKET_SIZE..(k + 1) * PACKET_SIZE][0];
      FramesWhole(ps, tail, k + 1, n - 1);
    }
  }

  lemma {:induction false} StartsAre(m: seq<uint8>, at: nat, n: nat, i: nat)
    requires WholePackets(m, at, n) && at + n * PACKET_SIZE < |m| && i < n
    ensures |FrameStarts(m, at, n * PACKET_SIZE)| == n
    ensures FrameStarts(m, at, n * PACKET_SIZE)[i] == at + i * PACKET_SIZE
    decreases n
  {
    StartsAppend(m, at, n, 0);
    StartsUnfold(m, at, n * PACKET_SIZE);
    if i > 0 { StartsAre(m, at + PACKET_SIZE, n - 1, i - 1); }
  }

  lemma HandledAlike(l: Limits, t: Table, ps: seq<Packet>, tail: seq<uint8>, i: nat)
    requires i < |ps| && |Joined(ps)| == |ps| * PACKET_SIZE
    ensures Handler(l, Joined(ps) + tail)(t, i * PACKET_SIZE) == PacketHandler(l)(t, ps[i])
  {
    var m := Joined(ps) + tail;
    JoinedAt(ps, i);
    assert m[i * PACKET_SIZE..][..PACKET_SIZE] == Joined(ps)[i * PACKET_SIZE..(i + 1) * PACKET_SIZE];
    DecodeLocal(m[i * PACKET_SIZE..], ps[i]);
  }

  // Handling the buffer's frames one by one is handling the packets it was joined from; what else is in
  // memory does not matter.
  lemma ParsePackets(l: Limits, t: Table, ps: seq<Packet>, tail: seq<uint8>)
    requires AreFrames(ps) && tail != []
    ensures |Joined(ps)| == |ps| * PACKET_SIZE
    ensures ParseBuffer(l, t, Joined(ps) + tail, 0, |ps| * PACKET_SIZE) == Fold(PacketHandler(l), t, ps)
  {
    JoinedLength(ps);
    var m, n := Joined(ps) + tail, |ps|;
    FramesWhole(ps, tail, 0, n);
    StartsAppend(m, 0, n, 0);
    var starts := FrameStarts(m, 0, n * PACKET_SIZE);
    forall i, u: Table | 0 <= i < n ensures Handler(l, m)(u, starts[i]) == PacketHandler(l)(u, ps[i]) {
      StartsAre(m, 0, n, i);
      HandledAlike(l, u, ps, tail, i);
    }
    FoldAlike(Handler(l, m), PacketHandler(l), t, starts, ps);
  }

  // ------ A set and a later get in one buffer ------

  predicate Requested(m: Message, ptype: uint8, val: uint8) {
    (m.cmd == CMD_REQUEST || m.cmd == CMD_DATA) && m.ptype == ptype && m.val == val
  }

  // The frame that starts at `at`, and whether it sets an entry.
  predicate FrameSets(m: seq<uint8>, at: int, ptype: uint8, val: uint8) {
    0 <= at <= |m| - READ_LEN && Requested(Decode(m[at..]), ptype, val)
  }

  lemma HandleKeepsValue(l: Limits, t: Table, m: Message, val: uint8)
    requires ValidTable(l, t) && !Requested(m, PC_SET_UINT32, val)
    ensures GetValue(Handle(l, t, m).0, val) == GetValue(t, val)
  {
  }

  lemma HandleKeepsString(l: Limits, t: Table, m: Message, val: uint8, room: nat)
    requires !Requested(m, PC_SET_STRING, val)
    ensures GetString(Handle(l, t, m).0, val, room) == GetString(t, val, room)
  {
  }

  // Frames that do not set an entry leave it as it is.
  lemma {:induction false} FramesKeepValue(l: Limits, t: Table, m: seq<uint8>, frames: seq<int>, val: uint8)
    requires ValidTable(l, t) && forall at | at in frames :: !FrameSets(m, at, PC_SET_UINT32, val)
    ensures ValidTable(l, Fold(Handler(l, m), t, frames).0)
    ensures GetValue(Fold(Handler(l, m), t, frames).0, val) == GetValue(t, val)
  {
    if frames != [] {
      var n := |frames| - 1;
      assert frames[n] in frames && forall at | at in frames[..n] :: at in frames;
      FramesKeepValue(l, t, m, frames[..n], val);
      if 0 <= frames[n] <= |m| - READ_LEN {
        HandleKeepsValue(l, Fold(Handler(l, m), t, frames[..n]).0, Decode(m[frames[n]..]), val);
      }
    }
  }

  lemma {:induction false} FramesKeepString(l: Limits, t: Table, m: seq<uint8>, frames: seq<int>, val: uint8, room: nat)
    requires forall at | at in frames :: !FrameSets(m, at, PC_SET_STRING, val)
    ensures GetString(Fold(Handler(l, m), t, frames).0, val, room) == GetString(t, val, room)
  {
    if frames != [] {
      var n := |frames| - 1;
      assert frames[n] in frames && forall at | at in frames[..n] :: at in frames;
      FramesKeepString(l, t, m, frames[..n], val, room);
      if 0 <= frames[n] <= |m| - READ_LEN {
        HandleKeepsString(l, Fold(Handler(l, m), t, frames[..n]).0, Decode(m[frames[n]..]), val, room);
      }
    }
  }

  // The table when the frames before frame k of a buffer are handled, and the answer to frame k.
  function TableAt(l: Limits, t: Table, m: seq<uint8>, starts: seq<int>, k: nat): Table
    requires k <= |starts|
  {
    Fold(Handler(l, m), t, starts[..k]).0
  }

  function AnswerTo(l: Limits, t: Table, m: seq<uint8>, starts: seq<int>, k: nat): Option<Answer>
    requires k < |starts|
  {
    Handler(l, m)(TableAt(l, t, m, starts, k), starts[k]).1
  }

  // It stands among the answers behind those to the frames before it.
  lemma AnswerAmongAll(l: Limits, t: Table, m: seq<uint8>, starts: seq<int>, k: nat) returns (after: seq<Answer>)
    requires k < |starts| && AnswerTo(l, t, m, starts, k).Some?
    ensures Fold(Handler(l, m), t, starts).1
         == Fold(Handler(l, m), t, starts[..k]).1 + [AnswerTo(l, t, m, starts, k).value] + after
  {
    after := FoldOutput(Handler(l, m), t, starts, k);
  }

  // The table before frame j is the one after frame i, changed by the frames between.
  lemma TableBetween(l: Limits, t: Table, m: seq<uint8>, starts: seq<int>, i: nat, j: nat)
    requires i < j <= |starts|
    ensures TableAt(l, t, m, starts, j)
         == Fold(Handler(l, m), Handler(l, m)(TableAt(l, t, m, starts, i), starts[i]).0, starts[i + 1..j]).0
  {
    FoldBetween(Handler(l, m), t, starts, i, j);
  }

  lemma StringSet(l: Limits, t: Table, m: Message, room: nat)
    requires Requested(m, PC_SET_STRING, m.val) && m.val < |t.strings| && |m.str| < MAX_STRING_LEN && |m.str| < room
    ensures Handle(l, t, m).1
         == if m.cmd == CMD_REQUEST then Some(Answer(m.number, PC_SET_STRING, m.val, Verdict(true))) else None
    ensures GetString(Handle(l, t, m).0, m.val, room) == Some(m.str)
  {
    SetStringThenGet(t, m.val, m.str, m.val, room);
  }

  lemma StringGot(l: Limits, t: Table, m: Message, str: seq<uint8>)
    requires Requested(m, PC_GET_STRING, m.val) && GetString(t, m.val, PACKET_SIZE - FRAME_VALUE_POS) == Some(str)
    ensures Handle(l, t, m).1 == Some(Answer(m.number, PC_GET_STRING, m.val, Str(str)))
  {
  }

  lemma ValueSet(l: Limits, t: Table, m: Message)
    requires ValidTable(l, t) && Requested(m, PC_SET_UINT32, m.val) && m.val < |l.max| && m.v <= l.max[m.val]
    ensures Handle(l, t, m).1
         == if m.cmd == CMD_REQUEST then Some(Answer(m.number, PC_SET_UINT32, m.val, Verdict(true))) else None
    ensures ValidTable(l, Handle(l, t, m).0) && GetValue(Handle(l, t, m).0, m.val) == m.v
  {
    SetThenGet(l, t, m.val, m.v, m.val);
  }

  lemma ValueGot(l: Limits, t: Table, m: Message)
    requires Requested(m, PC_GET_UINT32, m.val)
    ensures Handle(l, t, m).1 == Some(Answer(m.number, PC_GET_UINT32, m.val, U32(GetValue(t, m.val))))
  {
  }

  lemma AnswerToHandle(l: Limits, t: Table, m: seq<uint8>, starts: seq<int>, k: nat)
    requires k < |starts| && 0 <= starts[k] <= |m| - READ_LEN
    ensures AnswerTo(l, t, m, starts, k) == Handle(l, TableAt(l, t, m, starts, k), Decode(m[starts[k]..])).1
  {
  }

  ghost predicate NoSetBetween(m: seq<uint8>, starts: seq<int>, i: nat, j: nat, ptype: uint8, val: uint8) {
    forall k | i < k < j && k < |starts| :: !FrameSets(m, starts[k], ptype, val)
  }

  // A set within the maximum in one frame of a buffer and a get of the same entry in a later one, with no
  // set of that entry between them: the set is answered positively if it asks for an answer, the get with
  // the value that was set, both under their own numbers.
  lemma SetThenGetAnswered(l: Limits, t: Table, m: seq<uint8>, at: nat, len: nat, i: nat, j: nat)
    requires ValidTable(l, t) && at + len + READ_LEN <= |m| + 1 && i < j < |FrameStarts(m, at, len)|
    requires var starts := FrameStarts(m, at, len);
      var set_, get := Decode(m[starts[i]..]), Decode(m[starts[j]..]);
      Requested(set_, PC_SET_UINT32, get.val) && Requested(get, PC_GET_UINT32, get.val)
      && get.val < |l.max| && set_.v <= l.max[get.val]
      && NoSetBetween(m, starts, i, j, PC_SET_UINT32, get.val)
    ensures var starts := FrameStarts(m, at, len);
      var set_, get := Decode(m[starts[i]..]), Decode(m[starts[j]..]);
      AnswerTo(l, t, m, starts, i)
        == (if set_.cmd == CMD_REQUEST then Some(Answer(set_.number, PC_SET_UINT32, get.val, Verdict(true))) else None)
      && AnswerTo(l, t, m, starts, j) == Some(Answer(get.number, PC_GET_UINT32, get.val, U32(set_.v)))
  {
    var starts := FrameStarts(m, at, len);
    var set_, get := Decode(m[starts[i]..]), Decode(m[starts[j]..]);
    var ti := TableAt(l, t, m, starts, i);
    FoldKeepsValid(l, t, m, starts[..i]);
    ValueSet(l, ti, set_);
    ValueGot(l, TableAt(l, t, m, starts, j), get);
    AnswerToHandle(l, t, m, starts, i);
    AnswerToHandle(l, t, m, starts, j);
    assert forall a | a in starts[i + 1..j] :: !FrameSets(m, a, PC_SET_UINT32, get.val);
    FramesKeepValue(l, Handle(l, ti, set_).0, m, starts[i + 1..j], get.val);
    TableBetween(l, t, m, starts, i, j);
  }

  lemma {:induction false} FoldKeepsValid(l: Limits, t: Table, m: seq<uint8>, frames: seq<int>)
    requires ValidTable(l, t)
    ensures ValidTable(l, Fold(Handler(l, m), t, frames).0)
  {
    if frames != [] {
      var n := |frames| - 1;
      FoldKeepsValid(l, t, m, frames[..n]);
      if 0 <= frames[n] <= |m| - READ_LEN {
        HandleKeepsTable(l, Fold(Handler(l, m), t, frames[..n]).0, Decode(m[frames[n]..]));
      }
    }
  }

  // The same for a string that is short enough.
  lemma SetStringThenGetAnswered(l: Limits, t: Table, m: seq<uint8>, at: nat, len: nat, i: nat, j: nat)
    requires at + len + READ_LEN <= |m| + 1 && i < j < |FrameStarts(m, at, len)|
    requires var starts := FrameStarts(m, at, len);
      var set_, get := Decode(m[starts[i]..]), Decode(m[starts[j]..]);
      Requested(set_, PC_SET_STRING, get.val) && Requested(get, PC_GET_STRING, get.val)
      && get.val < |t.strings| && |set_.str| < MAX_STRING_LEN
      && NoSetBetween(m, starts, i, j, PC_SET_STRING, get.val)
    ensures var starts := FrameStarts(m, at, len);
      var set_, get := Decode(m[starts[i]..]), Decode(m[starts[j]..]);
      AnswerTo(l, t, m, starts, i)
        == (if set_.cmd == CMD_REQUEST then Some(Answer(set_.number, PC_SET_STRING, get.val, Verdict(true))) else None)
      && AnswerTo(l, t, m, starts, j) == Some(Answer(get.number, PC_GET_STRING, get.val, Str(set_.str)))
  {
    var starts := FrameStarts(m, at, len);
    var set_, get := Decode(m[starts[i]..]), Decode(m[starts[j]..]);
    var ti := TableAt(l, t, m, starts, i);
    var room := PACKET_SIZE - FRAME_VALUE_POS;
    FoldKeepsStrings(l, t, m, starts[..i]);
    StringSet(l, ti, set_, room);
    AnswerToHandle(l, t, m, starts, i);
    AnswerToHandle(l, t, m, starts, j);
    assert forall a | a in starts[i + 1..j] :: !FrameSets(m, a, PC_SET_STRING, get.val);
    FramesKeepString(l, Handle(l, ti, set_).0, m, starts[i + 1..j], get.val, room);
    TableBetween(l, t, m, starts, i, j);
    StringGot(l, TableAt(l, t, m, starts, j), get, set_.str);
  }

  lemma {:induction false} FoldKeepsStrings(l: Limits, t: Table, m: seq<uint8>, frames: seq<int>)
    ensures |Fold(Handler(l, m), t, frames).0.strings| == |t.strings|
  {
    if frames != [] {
      FoldKeepsStrings(l, t, m, frames[..|frames| - 1]);
    }
  }
}
