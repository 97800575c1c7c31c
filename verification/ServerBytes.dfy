// What the server does with a received frame, byte by byte.
module ServerBytes {
  import opened Folding
  import opened Options
  import opened Packets
  import opened Parameters
  import opened ParseCmd
  import opened Words

  // The frame at `at` is a request or data of a type, about an entry.
  predicate Asks(m: seq<uint8>, at: int, ptype: uint8) {
    0 <= at <= |m| - 56 && (m[at + 5] == 0x11 || m[at + 5] == 0x33) && m[at + 6] == ptype
  }

  // A packet in memory: its bytes.
  lemma FrameAtBytes(m: seq<uint8>, at: nat, n: uint32, cmd: uint8, ptype: uint8, val: uint8, value: seq<uint8>)
    requires at + 64 <= |m| && |value| <= 56 && m[at..][..64] == Frame(n, cmd, ptype, val, value)
    ensures m[at + 1..at + 5] == Le32(n) && m[at + 5] == cmd && m[at + 6] == ptype && m[at + 7] == val
    ensures m[at + 8..at + 8 + |value|] == value
  {
    var p := Frame(n, cmd, ptype, val, value);
    assert forall i | 0 <= i < 64 :: m[at + i] == m[at..][..64][i];
    assert p[1..5] == Le32(n);
    assert p[8..8 + |value|] == value;
    assert m[at + 1..at + 5] == m[at..][..64][1..5];
    assert m[at + 8..at + 8 + |value|] == m[at..][..64][8..8 + |value|];
  }

  // What the server reads of them.
  lemma DecodeBytes(m: seq<uint8>, at: nat)
    requires at + 56 <= |m|
    ensures var d := Decode(m[at..]);
      d.cmd == m[at + 5] && d.ptype == m[at + 6] && d.val == m[at + 7]
      && Le32(d.number) == m[at + 1..at + 5] && Le32(d.v) == m[at + 8..at + 12]
      && d.v == m[at + 8] + 256 * (m[at + 9] as int) + 65536 * (m[at + 10] as int) + 16777216 * (m[at + 11] as int)
  {
    assert m[at..][1..5] == m[at + 1..at + 5];
    assert m[at..][8..12] == m[at + 8..at + 12];
    LittleEndian(m[at + 1..at + 5]);
    LittleEndian(m[at + 8..at + 12]);
  }

  // The string up to the first 0, if there is one among the 48 bytes from the value field on.
  lemma {:induction false} StringEnds(b: seq<uint8>, s: seq<uint8>, limit: nat)
    requires |s| < limit && |s| < |b| && b[..|s|] == s && b[|s|] == 0 && 0 !in s
    ensures CString(b, limit) == s
  {
    if s != [] {
      assert b[0] == b[..|s|][0] == s[0];
      assert s[0] in s;
      assert b[1..][..|s| - 1] == b[..|s|][1..];
      assert forall c | c in s[1..] :: c in s;
      StringEnds(b[1..], s[1..], limit - 1);
    }
  }

  lemma {:induction false} StringGoesOn(b: seq<uint8>, limit: nat)
    requires limit <= |b| && 0 !in b[..limit]
    ensures |CString(b, limit)| == limit
  {
    if limit > 0 {
      assert b[0] == b[..limit][0];
      assert forall c | c in b[1..][..limit - 1] :: c in b[..limit] by {
        assert b[1..][..limit - 1] == b[..limit][1..];
      }
      StringGoesOn(b[1..], limit - 1);
    }
  }

  // An answer frame with the number of the frame at `at` is its bytes.
  lemma AnswerFrame(m: seq<uint8>, at: nat, a: Answer)
    requires at + 56 <= |m| && Fits(a) && a.number == Decode(m[at..]).number
    ensures AnswerPackets(Some(a))
         == [[64] + m[at + 1..at + 5] + [0x22, a.ptype, a.val] + ReplyBytes(a.reply) + Zeros(56 - |ReplyBytes(a.reply)|)]
  {
    DecodeBytes(m, at);
  }

  // A value is stored and confirmed exactly if it is within its maximum; data gets no answer.
  lemma SetValueBytes(l: Limits, t: Table, m: seq<uint8>, at: nat)
    requires ValidTable(l, t) && Asks(m, at, 1)
    ensures var val, v := m[at + 7], m[at + 8] + 256 * (m[at + 9] as int) + 65536 * (m[at + 10] as int) + 16777216 * (m[at + 11] as int);
      var ok := val < |l.max| && v <= l.max[val];
      HandleAt(l, m, t, at).0 == (if ok then Table(t.values[val := v], t.strings) else t)
      && AnswerPackets(HandleAt(l, m, t, at).1)
         == if m[at + 5] == 0x33 then []
            else [[64] + m[at + 1..at + 5] + [0x22, 1, val] + [if ok then 0xFF else 0xFE] + Zeros(55)]
  {
    DecodeBytes(m, at);
    var d := Decode(m[at..]);
    var ok := SetValue(l, t, d.val, d.v).1;
    AnswerFrame(m, at, Answer(d.number, 1, d.val, Verdict(ok)));
  }

  // A value outside of the table is 0.
  lemma GetValueBytes(l: Limits, t: Table, m: seq<uint8>, at: nat)
    requires Asks(m, at, 2)
    ensures var val := m[at + 7];
      var v := if val < |t.values| then t.values[val] else 0;
      HandleAt(l, m, t, at).0 == t
      && AnswerPackets(HandleAt(l, m, t, at).1)
         == [[64] + m[at + 1..at + 5] + [0x22, 2, val] + [v % 256, v / 256 % 256, v / 65536 % 256, v / 16777216] + Zeros(52)]
  {
    DecodeBytes(m, at);
    var d := Decode(m[at..]);
    var v := GetValue(t, d.val);
    Le32Bytes(v);
    AnswerFrame(m, at, Answer(d.number, 2, d.val, U32(v)));
  }

  // A string is stored and confirmed exactly if it ends within its 48 bytes.
  lemma SetStringBytes(l: Limits, t: Table, m: seq<uint8>, at: nat, s: seq<uint8>)
    requires Asks(m, at, 3) && |s| <= 48 && m[at + 8..at + 8 + |s|] == s && 0 !in s
    requires |s| < 48 ==> m[at + 8 + |s|] == 0
    ensures var val := m[at + 7];
      var ok := val < |t.strings| && |s| < 48;
      HandleAt(l, m, t, at).0 == (if ok then Table(t.values, t.strings[val := s]) else t)
      && AnswerPackets(HandleAt(l, m, t, at).1)
         == if m[at + 5] == 0x33 then []
            else [[64] + m[at + 1..at + 5] + [0x22, 3, val] + [if ok then 0xFF else 0xFE] + Zeros(55)]
  {
    DecodeBytes(m, at);
    StringRead(m, at, s);
    var d := Decode(m[at..]);
    var ok := SetString(t, d.val, d.str).1;
    AnswerFrame(m, at, Answer(d.number, 3, d.val, Verdict(ok)));
  }

  lemma StringRead(m: seq<uint8>, at: nat, s: seq<uint8>)
    requires at + 56 <= |m| && |s| <= 48 && m[at + 8..at + 8 + |s|] == s && 0 !in s
    requires |s| < 48 ==> m[at + 8 + |s|] == 0
    ensures if |s| < 48 then Decode(m[at..]).str == s else |Decode(m[at..]).str| == 48
  {
    var b := m[at..][8..];
    assert b[..|s|] == m[at + 8..at + 8 + |s|];
    if |s| < 48 { StringEnds(b, s, 48); } else { StringGoesOn(b, 48); }
  }

  // A string is sent if it leaves room for its terminator.
  lemma GetStringBytes(l: Limits, t: Table, m: seq<uint8>, at: nat)
    requires Asks(m, at, 4)
    ensures var val := m[at + 7];
      var s := if val < |t.strings| && |t.strings[val]| < 56 then t.strings[val] else [];
      HandleAt(l, m, t, at).0 == t
      && AnswerPackets(HandleAt(l, m, t, at).1) == [[64] + m[at + 1..at + 5] + [0x22, 4, val] + s + Zeros(56 - |s|)]
  {
    DecodeBytes(m, at);
    var d := Decode(m[at..]);
    AnswerFrame(m, at, Answer(d.number, 4, d.val, Str(GetString(t, d.val, 56).GetOr([]))));
  }

  // Everything else changes nothing and is not answered.
  lemma OtherBytes(l: Limits, t: Table, m: seq<uint8>, at: nat)
    requires at + 56 <= |m| && !Asks(m, at, 1) && !Asks(m, at, 2) && !Asks(m, at, 3) && !Asks(m, at, 4)
    ensures HandleAt(l, m, t, at).0 == t && AnswerPackets(HandleAt(l, m, t, at).1) == []
  {
    DecodeBytes(m, at);
  }

  // ------ In a buffer ------

  lemma {:induction false} PacketsOfBoth(a: seq<Answer>, b: seq<Answer>)
    ensures PacketsOf(a + b) == PacketsOf(a) + PacketsOf(b)
  {
    if b == [] {
      assert a + b == a;
    } else {
      var n := |b| - 1;
      assert (a + b)[..|a + b| - 1] == a + b[..n];
      PacketsOfBoth(a, b[..n]);
    }
  }

  lemma PacketsInOrder<I>(handle: (Table, I) -> (Table, Option<Answer>), t: Table, frames: seq<I>, k: nat)
    returns (after: seq<Packet>)
    requires k < |frames|
    ensures var (u, answers) := Fold(handle, t, frames[..k]);
      PacketsOf(Fold(handle, t, frames).1) == PacketsOf(answers) + AnswerPackets(handle(u, frames[k]).1) + after
  {
    var (u, answers) := Fold(handle, t, frames[..k]);
    var (u', out) := handle(u, frames[k]);
    FoldPrefix(handle, t, frames, k);
    PacketsOfMore(answers, out);
    var rest := FoldRest(handle, t, frames, k + 1);
    PacketsOfBoth(if out.Some? then answers + [out.value] else answers, rest);
    after := PacketsOf(rest);
  }

  lemma FoldRest<I>(handle: (Table, I) -> (Table, Option<Answer>), t: Table, frames: seq<I>, k: nat)
    returns (rest: seq<Answer>)
    requires k <= |frames|
    ensures Fold(handle, t, frames).1 == Fold(handle, t, frames[..k]).1 + rest
  {
    FoldAppend(handle, t, frames[..k], frames[k..]);
    assert frames[..k] + frames[k..] == frames;
    rest := Fold(handle, Fold(handle, t, frames[..k]).0, frames[k..]).1;
  }

  // What is sent for the frames before frame k.
  function SentBefore(l: Limits, t: Table, m: seq<uint8>, starts: seq<int>, k: nat): seq<Packet>
    requires k <= |starts|
  {
    PacketsOf(Fold(Handler(l, m), t, starts[..k]).1)
  }

  // The packets for frame k are those of its answer and stand behind those for the frames before it.
  lemma SentInOrder(l: Limits, t: Table, m: seq<uint8>, starts: seq<int>, k: nat) returns (after: seq<Packet>)
    requires k < |starts|
    ensures PacketsOf(Fold(Handler(l, m), t, starts).1)
         == SentBefore(l, t, m, starts, k) + AnswerPackets(AnswerTo(l, t, m, starts, k)) + after
  {
    after := PacketsInOrder(Handler(l, m), t, starts, k);
  }

  // Frame k of a buffer lies in memory as far as the server reads it.
  lemma FrameInMemory(m: seq<uint8>, at: nat, len: nat, k: nat)
    requires at + len + 56 <= |m| + 1 && k < |FrameStarts(m, at, len)|
    ensures 0 <= FrameStarts(m, at, len)[k] <= |m| - 56
  {
  }

  // None of the frames between frame i and frame j sets an entry.
  predicate NoneSets(m: seq<uint8>, starts: seq<int>, i: nat, j: nat, ptype: uint8, val: uint8) {
    forall k | i < k < j && k < |starts| :: Asks(m, starts[k], ptype) ==> m[starts[k] + 7] != val
  }

  lemma NoneSetsDecoded(m: seq<uint8>, starts: seq<int>, i: nat, j: nat, ptype: uint8, val: uint8)
    requires NoneSets(m, starts, i, j, ptype, val)
    ensures NoSetBetween(m, starts, i, j, ptype, val)
  {
    forall k | i < k < j && k < |starts| ensures !FrameSets(m, starts[k], ptype, val) {
      if 0 <= starts[k] <= |m| - 56 { DecodeBytes(m, starts[k]); }
    }
  }

  // A frame sets or asks for an entry, as the server reads it.
  lemma RequestedBytes(m: seq<uint8>, at: int, ptype: uint8)
    requires Asks(m, at, ptype)
    ensures Requested(Decode(m[at..]), ptype, m[at + 7])
  {
    DecodeBytes(m, at);
  }

  lemma ValueBytes(m: seq<uint8>, at: nat)
    requires at + 56 <= |m|
    ensures Decode(m[at..]).v
         == m[at + 8] + 256 * (m[at + 9] as int) + 65536 * (m[at + 10] as int) + 16777216 * (m[at + 11] as int)
    ensures Le32(Decode(m[at..]).v) == m[at + 8..at + 12]
  {
    DecodeBytes(m, at);
  }

  // A get answers with the four bytes of the set before it, if that value is within its maximum and no frame
  // between sets the entry.
  lemma SetThenGetBytes(l: Limits, t: Table, m: seq<uint8>, at: nat, len: nat, i: nat, j: nat, starts: seq<int>,
                        set_: nat, get: nat, val: uint8)
    requires ValidTable(l, t) && at + len + 56 <= |m| + 1 && starts == FrameStarts(m, at, len)
    requires i < j < |starts| && set_ == starts[i] && get == starts[j]
    requires Asks(m, set_, 1) && Asks(m, get, 2) && m[set_ + 7] == m[get + 7] == val && NoneSets(m, starts, i, j, 1, val)
    requires val < |l.max|
    requires m[set_ + 8] + 256 * (m[set_ + 9] as int) + 65536 * (m[set_ + 10] as int) + 16777216 * (m[set_ + 11] as int)
          <= l.max[val]
    ensures AnswerPackets(AnswerTo(l, t, m, starts, j))
         == [[64] + m[get + 1..get + 5] + [0x22, 2, val] + m[set_ + 8..set_ + 12] + Zeros(52)]
  {
    ValueBytes(m, set_);
    ValueAnswered(l, t, m, at, len, i, j, starts, set_, get, val);
    ValueAnswer(m, get, Decode(m[set_..]).v);
  }

  lemma ValueAnswered(l: Limits, t: Table, m: seq<uint8>, at: nat, len: nat, i: nat, j: nat, starts: seq<int>,
                      set_: nat, get: nat, val: uint8)
    requires ValidTable(l, t) && at + len + 56 <= |m| + 1 && starts == FrameStarts(m, at, len)
    requires i < j < |starts| && set_ == starts[i] && get == starts[j]
    requires Asks(m, set_, 1) && Asks(m, get, 2) && m[set_ + 7] == m[get + 7] == val && NoneSets(m, starts, i, j, 1, val)
    requires val < |l.max| && Decode(m[set_..]).v <= l.max[val]
    ensures AnswerTo(l, t, m, starts, j) == Some(Answer(Decode(m[get..]).number, 2, val, U32(Decode(m[set_..]).v)))
  {
    RequestedBytes(m, set_, 1);
    RequestedBytes(m, get, 2);
    NoneSetsDecoded(m, starts, i, j, 1, val);
    SetThenGetAnswered(l, t, m, at, len, i, j);
  }

  lemma ValueAnswer(m: seq<uint8>, get: nat, v: uint32)
    requires Asks(m, get, 2)
    ensures AnswerPackets(Some(Answer(Decode(m[get..]).number, 2, m[get + 7], U32(v))))
         == [[64] + m[get + 1..get + 5] + [0x22, 2, m[get + 7]] + Le32(v) + Zeros(52)]
  {
    AnswerFrame(m, get, Answer(Decode(m[get..]).number, 2, m[get + 7], U32(v)));
  }

  // The same for a string, ended by a 0 within its 48 bytes.
  lemma SetStringThenGetBytes(l: Limits, t: Table, m: seq<uint8>, at: nat, len: nat, i: nat, j: nat, starts: seq<int>,
                              set_: nat, get: nat, val: uint8, s: seq<uint8>)
    requires at + len + 56 <= |m| + 1 && starts == FrameStarts(m, at, len)
    requires i < j < |starts| && set_ == starts[i] && get == starts[j]
    requires Asks(m, set_, 3) && Asks(m, get, 4) && m[set_ + 7] == m[get + 7] == val && NoneSets(m, starts, i, j, 3, val)
    requires val < |t.strings|
    requires |s| < 48 && m[set_ + 8..set_ + 8 + |s|] == s && m[set_ + 8 + |s|] == 0 && 0 !in s
    ensures AnswerPackets(AnswerTo(l, t, m, starts, j)) == [[64] + m[get + 1..get + 5] + [0x22, 4, val] + s + Zeros(56 - |s|)]
  {
    StringRead(m, set_, s);
    StringAnswered(l, t, m, at, len, i, j, starts, set_, get, val);
    StringAnswer(m, get, s);
  }

  lemma StringAnswered(l: Limits, t: Table, m: seq<uint8>, at: nat, len: nat, i: nat, j: nat, starts: seq<int>,
                       set_: nat, get: nat, val: uint8)
    requires at + len + 56 <= |m| + 1 && starts == FrameStarts(m, at, len)
    requires i < j < |starts| && set_ == starts[i] && get == starts[j]
    requires Asks(m, set_, 3) && Asks(m, get, 4) && m[set_ + 7] == m[get + 7] == val && NoneSets(m, starts, i, j, 3, val)
    requires val < |t.strings| && |Decode(m[set_..]).str| < 48
    ensures AnswerTo(l, t, m, starts, j) == Some(Answer(Decode(m[get..]).number, 4, val, Str(Decode(m[set_..]).str)))
  {
    RequestedBytes(m, set_, 3);
    RequestedBytes(m, get, 4);
    NoneSetsDecoded(m, starts, i, j, 3, val);
    SetStringThenGetAnswered(l, t, m, at, len, i, j);
  }

  lemma StringAnswer(m: seq<uint8>, get: nat, s: seq<uint8>)
    requires Asks(m, get, 4) && |s| < 48
    ensures AnswerPackets(Some(Answer(Decode(m[get..]).number, 4, m[get + 7], Str(s))))
         == [[64] + m[get + 1..get + 5] + [0x22, 4, m[get + 7]] + s + Zeros(56 - |s|)]
  {
    AnswerFrame(m, get, Answer(Decode(m[get..]).number, 4, m[get + 7], Str(s)));
  }

  // A whole packet is at `at`.
  predicate Holds(m: seq<uint8>, at: int, p: Packet) {
    0 <= at <= |m| - 64 && m[at..][..64] == p
  }

  lemma AnswerIsFrame(m: seq<uint8>, at: nat, n: uint32, ptype: uint8, val: uint8, value: seq<uint8>)
    requires at + 64 <= |m| && m[at + 1..at + 5] == Le32(n) && |value| <= 56
    ensures [64] + m[at + 1..at + 5] + [0x22, ptype, val] + value + Zeros(56 - |value|)
         == Frame(n, CMD_ANSWER, ptype, val, value)
  {
  }

  // A set packet and a get packet, read.
  lemma SetHeld(m: seq<uint8>, at: int, n: uint32, cmd: uint8, val: uint8, v: uint32)
    requires Holds(m, at, Frame(n, cmd, PC_SET_UINT32, val, Le32(v))) && (cmd == CMD_REQUEST || cmd == CMD_DATA)
    ensures Asks(m, at, 1) && m[at + 5] == cmd && m[at + 7] == val && m[at + 1..at + 5] == Le32(n)
    ensures m[at + 8..at + 12] == Le32(v)
    ensures m[at + 8] + 256 * (m[at + 9] as int) + 65536 * (m[at + 10] as int) + 16777216 * (m[at + 11] as int) == v
  {
    FrameAtBytes(m, at, n, cmd, PC_SET_UINT32, val, Le32(v));
    LittleEndian(m[at + 8..at + 12]);
    Le32RoundTrip(v);
  }

  lemma SetStringHeld(m: seq<uint8>, at: int, n: uint32, cmd: uint8, val: uint8, s: seq<uint8>)
    requires |s| < 48 && Holds(m, at, Frame(n, cmd, PC_SET_STRING, val, s + [0])) && (cmd == CMD_REQUEST || cmd == CMD_DATA)
    ensures Asks(m, at, 3) && m[at + 7] == val && m[at + 8..at + 8 + |s|] == s && m[at + 8 + |s|] == 0
  {
    FrameAtBytes(m, at, n, cmd, PC_SET_STRING, val, s + [0]);
    var field := m[at + 8..at + 8 + |s| + 1];
    assert field[..|s|] == s && field[|s|] == 0;
    assert m[at + 8..at + 8 + |s|] == field[..|s|];
  }

  lemma GetHeld(m: seq<uint8>, at: int, n: uint32, ptype: uint8, val: uint8)
    requires Holds(m, at, Frame(n, CMD_REQUEST, ptype, val, []))
    ensures Asks(m, at, ptype) && m[at + 7] == val && m[at + 1..at + 5] == Le32(n)
  {
    FrameAtBytes(m, at, n, CMD_REQUEST, ptype, val, []);
  }

  // So a get packet behind a set packet is answered with the value that was set, ...
  lemma SetThenGetFrames(l: Limits, t: Table, m: seq<uint8>, len: nat, i: nat, j: nat, starts: seq<int>,
                         set_: nat, get: nat, n: uint32, n': uint32, cmd: uint8, val: uint8, v: uint32)
    requires ValidTable(l, t) && len + 56 <= |m| + 1 && starts == FrameStarts(m, 0, len)
    requires i < j < |starts| && set_ == starts[i] && get == starts[j]
    requires cmd == CMD_REQUEST || cmd == CMD_DATA
    requires Holds(m, set_, Frame(n, cmd, PC_SET_UINT32, val, Le32(v)))
    requires Holds(m, get, Frame(n', CMD_REQUEST, PC_GET_UINT32, val, []))
    requires val < |l.max| && v <= l.max[val] && NoneSets(m, starts, i, j, PC_SET_UINT32, val)
    ensures AnswerPackets(AnswerTo(l, t, m, starts, j)) == [Frame(n', CMD_ANSWER, PC_GET_UINT32, val, Le32(v))]
  {
    SetHeld(m, set_, n, cmd, val, v);
    GetHeld(m, get, n', PC_GET_UINT32, val);
    SetThenGetBytes(l, t, m, 0, len, i, j, starts, set_, get, val);
    AnswerIsFrame(m, get, n', PC_GET_UINT32, val, Le32(v));
  }

  // ... and one behind a set of a string, which goes with a terminating 0, with that string.
  lemma SetStringThenGetFrames(l: Limits, t: Table, m: seq<uint8>, len: nat, i: nat, j: nat, starts: seq<int>,
                               set_: nat, get: nat, n: uint32, n': uint32, cmd: uint8, val: uint8, s: seq<uint8>)
    requires len + 56 <= |m| + 1 && starts == FrameStarts(m, 0, len)
    requires i < j < |starts| && set_ == starts[i] && get == starts[j]
    requires (cmd == CMD_REQUEST || cmd == CMD_DATA) && |s| < 48 && 0 !in s
    requires Holds(m, set_, Frame(n, cmd, PC_SET_STRING, val, s + [0]))
    requires Holds(m, get, Frame(n', CMD_REQUEST, PC_GET_STRING, val, []))
    requires val < |t.strings| && NoneSets(m, starts, i, j, PC_SET_STRING, val)
    ensures AnswerPackets(AnswerTo(l, t, m, starts, j)) == [Frame(n', CMD_ANSWER, PC_GET_STRING, val, s)]
  {
    SetStringHeld(m, set_, n, cmd, val, s);
    GetHeld(m, get, n', PC_GET_STRING, val);
    SetStringThenGetBytes(l, t, m, 0, len, i, j, starts, set_, get, val, s);
    AnswerIsFrame(m, get, n', PC_GET_STRING, val, s);
  }

  // The set itself is answered positively if its value is within the maximum and else negatively, and not at
  // all if it was sent as data.
  lemma SetPacketVerdict(l: Limits, t: Table, m: seq<uint8>, starts: seq<int>, k: nat, n: uint32, cmd: uint8, val: uint8,
                         v: uint32)
    returns (after: seq<Packet>)
    requires ValidTable(l, t) && (cmd == CMD_REQUEST || cmd == CMD_DATA)
    requires k < |starts| && Holds(m, starts[k], Frame(n, cmd, PC_SET_UINT32, val, Le32(v)))
    ensures var verdict := if val < |l.max| && v <= l.max[val] then 0xFF else 0xFE;
      PacketsOf(Fold(Handler(l, m), t, starts).1)
        == SentBefore(l, t, m, starts, k)
           + (if cmd == CMD_DATA then [] else [Frame(n, CMD_ANSWER, PC_SET_UINT32, val, [verdict])])
           + after
  {
    SetHeld(m, starts[k], n, cmd, val, v);
    FoldKeepsValid(l, t, m, starts[..k]);
    SetValueBytes(l, TableAt(l, t, m, starts, k), m, starts[k]);
    AnswerIsFrame(m, starts[k], n, PC_SET_UINT32, val, [if val < |l.max| && v <= l.max[val] then 0xFF else 0xFE]);
    after := SentInOrder(l, t, m, starts, k);
  }
}
