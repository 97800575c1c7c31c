// cmd_client.c: the connection's state machine, run by its own loop, and the request worker that may force
// it into the close state at any moment.
module CmdClient {
  import opened Options
  import opened Sockets

  datatype AppState =
    | CMD_CLIENT_IDLE
    | CMD_CLIENT_CREATE_SOC
    | CMD_CLIENT_CONNECT_SERVER
    | CMD_CLIENT_STATE_READY
    | CMD_CLIENT_CLOSE_SOC
    | CMD_CLIENT_CHECK_ERRORS

  datatype Context = Context(state: AppState, socket: int, error: bool, start: bool, disconnect_req: bool, os: Os)

  // What the system calls of a state function return.
  datatype Results = Results(socket: int, connect: int)

  // The state function of s: the context it leaves, and the state it writes as its last action.
  function Act(c: Context, s: AppState, r: Results): (Context, Option<AppState>) {
    match s
    case CMD_CLIENT_IDLE =>
      var c1 := if c.disconnect_req then c.(start := false, error := false, disconnect_req := false) else c;
      if c1.start then (c1.(error := false), Some(CMD_CLIENT_CREATE_SOC)) else (c1, None)
    case CMD_CLIENT_CREATE_SOC =>
      if c.socket != -1 then (c, Some(CMD_CLIENT_CLOSE_SOC))
      else if r.socket >= 0 then (c.(socket := r.socket, os := Opened(c.os, r.socket)), Some(CMD_CLIENT_CONNECT_SERVER))
      else (c.(socket := r.socket, error := true), Some(CMD_CLIENT_CLOSE_SOC))
    case CMD_CLIENT_CONNECT_SERVER =>
      if r.connect < 0 then (c.(error := true), Some(CMD_CLIENT_CLOSE_SOC)) else (c, Some(CMD_CLIENT_STATE_READY))
    case CMD_CLIENT_STATE_READY =>
      (c, if !c.start || c.disconnect_req then Some(CMD_CLIENT_CLOSE_SOC) else None)
    case CMD_CLIENT_CLOSE_SOC =>
      (if c.socket != -1 then c.(socket := -1, os := Closed(c.os, c.socket)) else c, Some(CMD_CLIENT_CHECK_ERRORS))
    case CMD_CLIENT_CHECK_ERRORS => (c.(error := false), Some(CMD_CLIENT_IDLE))
  }

  function Write(c: Context, s: Option<AppState>): Context {
    if s.Some? then c.(state := s.value) else c
  }

  // One turn of the loop that nothing interrupts.
  function Turn(c: Context, r: Results): Context {
    var (c1, s) := Act(c, c.state, r);
    Write(c1, s)
  }

  class Client {
    var state: AppState
    var socket: int
    var error: bool
    var start: bool
    var disconnect_req: bool
    var os: Os

    function Ctx(): Context
      reads this
    {
      Context(state, socket, error, start, disconnect_req, os)
    }

    // cmd_client_ctx_init
    constructor ()
      ensures Ctx() == INITIAL
    {
      state := CMD_CLIENT_IDLE;
      error, start, disconnect_req := false, false, false;
      socket := -1;
      os := Os({}, 0, 0);
    }

    method IdleState()
      modifies this
      ensures var (c, s) := Act(old(Ctx()), CMD_CLIENT_IDLE, Results(-1, -1)); Ctx() == Write(c, s)
    {
      if disconnect_req {
        start := false;
        error := false;
        disconnect_req := false;
      }
      if start {
        error := false;
        state := CMD_CLIENT_CREATE_SOC;
      }
    }

    method CreateSocState(r: Results)
      modifies this
      ensures var (c, s) := Act(old(Ctx()), CMD_CLIENT_CREATE_SOC, r); Ctx() == Write(c, s)
    {
      if socket != -1 {
        state := CMD_CLIENT_CLOSE_SOC;
        return;
      }
      socket := r.socket;
      os := Opened(os, r.socket);
      if socket >= 0 {
        state := CMD_CLIENT_CONNECT_SERVER;
      } else {
        error := true;
        state := CMD_CLIENT_CLOSE_SOC;
      }
    }

    method ConnectServerState(r: Results)
      modifies this
      ensures var (c, s) := Act(old(Ctx()), CMD_CLIENT_CONNECT_SERVER, r); Ctx() == Write(c, s)
    {
      if r.connect < 0 {
        error := true;
        state := CMD_CLIENT_CLOSE_SOC;
        return;
      }
      state := CMD_CLIENT_STATE_READY;
    }

    method ConnectReadyState()
      modifies this
      ensures var (c, s) := Act(old(Ctx()), CMD_CLIENT_STATE_READY, Results(-1, -1)); Ctx() == Write(c, s)
    {
      if !start || disconnect_req {
        state := CMD_CLIENT_CLOSE_SOC;
      }
    }

    method CloseSocState()
      modifies this
      ensures var (c, s) := Act(old(Ctx()), CMD_CLIENT_CLOSE_SOC, Results(-1, -1)); Ctx() == Write(c, s)
    {
      if socket != -1 {
        os := Closed(os, socket);
        socket := -1;
      }
      state := CMD_CLIENT_CHECK_ERRORS;
    }

    method CheckErrorsState()
      modifies this
      ensures var (c, s) := Act(old(Ctx()), CMD_CLIENT_CHECK_ERRORS, Results(-1, -1)); Ctx() == Write(c, s)
    {
      error := false;
      state := CMD_CLIENT_IDLE;
    }

    // The switch of cmd_client_task.
    method Task(r: Results)
      modifies this
      ensures Ctx() == Turn(old(Ctx()), r)
    {
      match state
      case CMD_CLIENT_IDLE => IdleState();
      case CMD_CLIENT_CREATE_SOC => CreateSocState(r);
      case CMD_CLIENT_CONNECT_SERVER => ConnectServerState(r);
      case CMD_CLIENT_STATE_READY => ConnectReadyState();
      case CMD_CLIENT_CLOSE_SOC => CloseSocState();
      case CMD_CLIENT_CHECK_ERRORS => CheckErrorsState();
    }
  }

  const INITIAL: Context := Context(CMD_CLIENT_IDLE, -1, false, false, false, Os({}, 0, 0))

  // ------ With the request worker in between ------

  // Where the loop is: before its switch, inside the state function of s, or about to write `next`
  // when that function has done everything else.
  datatype At = Loop | Inside(s: AppState) | Writing(s: AppState, next: Option<AppState>)

  datatype System = System(ctx: Context, at: At)

  datatype Move =
    | Dispatch
    | Body(r: Results)
    | Commit
    // cmdClientRead failing, with or without its error flag
    | ForceClose(error: bool)
    // cmdClientStart, Stop, Disconnect and TryConnect
    | Request(start: bool, disconnect_req: bool)

  ghost predicate Possible(s: System, m: Move) {
    match m
    case Dispatch => s.at.Loop?
    case Body(r) => s.at.Inside? && Returns(s.ctx.os, r.socket)
    case Commit => s.at.Writing?
    case ForceClose(_) => true
    case Request(_, _) => true
  }

  function Next(s: System, m: Move): System {
    match m
    case Dispatch => s.(at := Inside(s.ctx.state))
    case Body(r) =>
      if s.at.Inside? then
        var (c, next) := Act(s.ctx, s.at.s, r);
        System(c, Writing(s.at.s, next))
      else s
    case Commit => if s.at.Writing? then System(Write(s.ctx, s.at.next), Loop) else s
    case ForceClose(error) =>
      s.(ctx := s.ctx.(state := CMD_CLIENT_CLOSE_SOC, error := s.ctx.error || error))
    case Request(start, disconnect_req) => s.(ctx := s.ctx.(start := start, disconnect_req := disconnect_req))
  }

  // In which states a socket is held.
  ghost predicate Fits(state: AppState, socket: int) {
    match state
    case CMD_CLIENT_IDLE => socket == -1
    case CMD_CLIENT_CREATE_SOC => socket == -1
    case CMD_CLIENT_CONNECT_SERVER => socket >= 0
    case CMD_CLIENT_STATE_READY => socket >= 0
    case CMD_CLIENT_CLOSE_SOC => true
    case CMD_CLIENT_CHECK_ERRORS => socket == -1
  }

  ghost predicate Inv(s: System) {
    && s.ctx.socket >= -1 && s.ctx.os.open == Held(s.ctx.socket) && Balanced(s.ctx.os)
    && match s.at
       case Loop => Fits(s.ctx.state, s.ctx.socket)
       case Inside(at) => Fits(at, s.ctx.socket) && (s.ctx.state == at || s.ctx.state == CMD_CLIENT_CLOSE_SOC)
       case Writing(at, next) =>
         && (s.ctx.state == at || s.ctx.state == CMD_CLIENT_CLOSE_SOC)
         && (at == CMD_CLIENT_IDLE ==> s.ctx.socket == -1)
         && (next.Some? ==> Fits(next.value, s.ctx.socket)) && (next.None? ==> Fits(at, s.ctx.socket))
  }

  lemma MoveKeeps(s: System, m: Move)
    requires Inv(s) && Possible(s, m)
    ensures Inv(Next(s, m))
  {
    if m.Body? {
      OpenedBalanced(s.ctx.os, m.r.socket);
      ClosedBalanced(s.ctx.os, s.ctx.socket);
    }
  }

  datatype Run = Run(systems: seq<System>, moves: seq<Move>)

  ghost predicate IsRun(r: Run) {
    |r.systems| == |r.moves| + 1 && r.systems[0] == System(INITIAL, Loop)
    && forall i | 0 <= i < |r.moves| :: Possible(r.systems[i], r.moves[i]) && r.systems[i + 1] == Next(r.systems[i], r.moves[i])
  }

  // At every moment of every run: what was opened and not closed is the one socket held, and a client
  // that is idle holds none.
  lemma {:induction false} SocketsConserved(r: Run, i: nat)
    requires IsRun(r) && i < |r.systems|
    ensures Inv(r.systems[i])
    ensures var c := r.systems[i].ctx;
      c.os.opens - c.os.closes == (if c.socket == -1 then 0 else 1)
      && (c.state == CMD_CLIENT_IDLE ==> c.os.opens == c.os.closes)
  {
    if i > 0 {
      SocketsConserved(r, i - 1);
      MoveKeeps(r.systems[i - 1], r.moves[i - 1]);
    }
  }

  // ------ When the client is ready, and how it gets there and away ------

  // Some move before k left the connect state's function with a connect that was not negative, and since then
  // that function is about to make the client ready.
  ghost predicate Connected(r: Run, k: nat) {
    exists j: nat | j < k < |r.systems| && j < |r.moves| ::
      r.systems[j].at == Inside(CMD_CLIENT_CONNECT_SERVER) && r.moves[j].Body? && r.moves[j].r.connect >= 0
      && forall i | j < i <= k :: r.systems[i].at == Writing(CMD_CLIENT_CONNECT_SERVER, Some(CMD_CLIENT_STATE_READY))
  }

  lemma {:induction false} ReadyWriter(r: Run, k: nat)
    requires IsRun(r) && k < |r.systems| && r.systems[k].at.Writing? && r.systems[k].at.next == Some(CMD_CLIENT_STATE_READY)
    ensures Connected(r, k)
  {
    assert k > 0;
    assert Possible(r.systems[k - 1], r.moves[k - 1]) && r.systems[k] == Next(r.systems[k - 1], r.moves[k - 1]);
    if !r.moves[k - 1].Body? {
      ReadyWriter(r, k - 1);
      var j: nat :| j < k - 1 && r.systems[j].at == Inside(CMD_CLIENT_CONNECT_SERVER) && r.moves[j].Body?
        && r.moves[j].r.connect >= 0
        && forall i | j < i <= k - 1 :: r.systems[i].at == Writing(CMD_CLIENT_CONNECT_SERVER, Some(CMD_CLIENT_STATE_READY));
    }
  }

  // In every run, whatever is forced or requested when, the client becomes ready only as the end of a turn in
  // the connect state whose connect was not negative.
  lemma ReadyIsConnected(r: Run, i: nat)
    requires IsRun(r) && i < |r.moves|
    requires r.systems[i].ctx.state != CMD_CLIENT_STATE_READY && r.systems[i + 1].ctx.state == CMD_CLIENT_STATE_READY
    ensures r.moves[i] == Commit && Connected(r, i)
  {
    assert Possible(r.systems[i], r.moves[i]) && r.systems[i + 1] == Next(r.systems[i], r.moves[i]);
    ReadyWriter(r, i);
  }

  // Ready, wanted, and not about to leave.
  ghost predicate StaysReady(s: System) {
    && s.ctx.state == CMD_CLIENT_STATE_READY && s.ctx.start && !s.ctx.disconnect_req
    && (s.at == Loop || s.at == Inside(CMD_CLIENT_STATE_READY) || s.at == Writing(CMD_CLIENT_STATE_READY, None))
  }

  // A ready client stays ready, on the same socket, as long as nothing forces it to close and it is neither
  // stopped nor asked to disconnect.
  lemma {:induction false} ReadyStays(r: Run, i: nat, j: nat)
    requires IsRun(r) && i <= j < |r.systems| && StaysReady(r.systems[i])
    requires forall k | i <= k < j :: !r.moves[k].ForceClose?
                                   && (r.moves[k].Request? ==> r.moves[k].start && !r.moves[k].disconnect_req)
    ensures StaysReady(r.systems[j]) && r.systems[j].ctx.socket == r.systems[i].ctx.socket
  {
    if i < j {
      ReadyStays(r, i, j - 1);
      assert Possible(r.systems[j - 1], r.moves[j - 1]) && r.systems[j] == Next(r.systems[j - 1], r.moves[j - 1]);
    }
  }

  // Turns that nothing interrupts.
  function Turns(c: Context, rs: seq<Results>): Context {
    if rs == [] then c else Turn(Turns(c, rs[..|rs| - 1]), rs[|rs| - 1])
  }

  // A turn is its three moves.
  lemma TurnIsMoves(c: Context, r: Results)
    ensures Next(Next(Next(System(c, Loop), Dispatch), Body(r)), Commit) == System(Turn(c, r), Loop)
  {
  }

  lemma FirstTurns(c: Context, rs: seq<Results>)
    requires |rs| >= 3
    ensures Turns(c, rs[..0]) == c && Turns(c, rs[..1]) == Turn(c, rs[0])
    ensures Turns(c, rs[..2]) == Turn(Turn(c, rs[0]), rs[1])
    ensures Turns(c, rs[..3]) == Turn(Turn(Turn(c, rs[0]), rs[1]), rs[2])
  {
    assert rs[..3][..2] == rs[..2] && rs[..2][..1] == rs[..1] && rs[..1][..0] == rs[..0];
  }

  // A started idle client whose socket call and connect succeed is ready on that socket after three turns, with
  // no error, and after any further ones.
  lemma {:induction false} GetsReady(c: Context, rs: seq<Results>)
    requires c.state == CMD_CLIENT_IDLE && c.socket == -1 && c.start && !c.disconnect_req
    requires |rs| >= 3 && rs[1].socket >= 0 && rs[2].connect >= 0
    ensures Turns(c, rs)
         == Context(CMD_CLIENT_STATE_READY, rs[1].socket, false, true, false, Opened(c.os, rs[1].socket))
  {
    if |rs| == 3 {
      FirstTurns(c, rs);
      assert rs[..3] == rs;
    } else {
      GetsReady(c, rs[..|rs| - 1]);
    }
  }

  // One that is not started, or asked to disconnect, stays idle; the latter also takes the start back.
  lemma {:induction false} StaysIdle(c: Context, rs: seq<Results>)
    requires c.state == CMD_CLIENT_IDLE && (!c.start || c.disconnect_req) && rs != []
    ensures Turns(c, rs) == if c.disconnect_req then c.(start := false, error := false, disconnect_req := false) else c
  {
    if |rs| == 1 {
      assert Turns(c, rs[..0]) == c;
    } else {
      StaysIdle(c, rs[..|rs| - 1]);
    }
  }

  // The close state leads in two turns to an idle client without socket and without error, the socket closed.
  lemma Closes(c: Context, r: Results, r': Results)
    requires c.state == CMD_CLIENT_CLOSE_SOC
    ensures Turn(c, r).state == CMD_CLIENT_CHECK_ERRORS && Turn(c, r).socket == -1 && Turn(c, r).error == c.error
    ensures Turn(Turn(c, r), r')
         == Context(CMD_CLIENT_IDLE, -1, false, c.start, c.disconnect_req, if c.socket == -1 then c.os else Closed(c.os, c.socket))
  {
  }

  // A turn goes there, with the error flag set, exactly when the socket call or connect fails, and without it
  // exactly when a ready client is stopped or asked to disconnect, or a socket is left over before its creation.
  lemma GoesToClose(c: Context, r: Results)
    requires c.state != CMD_CLIENT_CLOSE_SOC
    ensures Turn(c, r).state == CMD_CLIENT_CLOSE_SOC
        <==> (|| (c.state == CMD_CLIENT_CREATE_SOC && (c.socket != -1 || r.socket < 0))
              || (c.state == CMD_CLIENT_CONNECT_SERVER && r.connect < 0)
              || (c.state == CMD_CLIENT_STATE_READY && (!c.start || c.disconnect_req)))
    ensures Turn(c, r).state == CMD_CLIENT_CLOSE_SOC ==>
      Turn(c, r).error == (c.error || (c.state == CMD_CLIENT_CREATE_SOC && c.socket == -1) || c.state == CMD_CLIENT_CONNECT_SERVER)
  {
  }

  // So a failed socket call ends in an idle client again, and a failed connect likewise, its socket closed ...
  lemma FailureEndsIdle(c: Context, rs: seq<Results>)
    requires |rs| == 3 && (c.state == CMD_CLIENT_CREATE_SOC || c.state == CMD_CLIENT_CONNECT_SERVER)
    requires if c.state == CMD_CLIENT_CREATE_SOC then c.socket == -1 && rs[0].socket < 0 else c.socket >= 0 && rs[0].connect < 0
    ensures Turns(c, rs[..1]).state == CMD_CLIENT_CLOSE_SOC && Turns(c, rs[..1]).error
    ensures Turns(c, rs[..2]).state == CMD_CLIENT_CHECK_ERRORS && Turns(c, rs[..2]).error && Turns(c, rs[..2]).socket == -1
    ensures Turns(c, rs).state == CMD_CLIENT_IDLE && Turns(c, rs).socket == -1 && !Turns(c, rs).error
    ensures c.state == CMD_CLIENT_CONNECT_SERVER ==> Turns(c, rs).os == Closed(c.os, c.socket)
  {
    FirstTurns(c, rs);
    assert rs[..3] == rs;
    Closes(Turn(c, rs[0]), rs[1], rs[2]);
  }

  // ... and so does a stop or a disconnect request of a ready one.
  lemma StopEndsIdle(c: Context, rs: seq<Results>)
    requires |rs| == 3 && c.state == CMD_CLIENT_STATE_READY && c.socket >= 0 && (!c.start || c.disconnect_req)
    ensures Turns(c, rs[..1]) == c.(state := CMD_CLIENT_CLOSE_SOC)
    ensures Turns(c, rs) == Context(CMD_CLIENT_IDLE, -1, false, c.start, c.disconnect_req, Closed(c.os, c.socket))
  {
    FirstTurns(c, rs);
    assert rs[..3] == rs;
    Closes(Turn(c, rs[0]), rs[1], rs[2]);
  }
}
