// cmd_server.c: the state machine of the listening socket and the one accepted connection.
module CmdServer {
  import opened Sockets

  datatype AppState =
    | CMD_SERVER_IDLE
    | CMD_SERVER_CREATE_SOC
    | CMD_SERVER_LISTEN
    | CMD_SERVER_STATE_READY
    | CMD_SERVER_PARSE_RESPONSE
    | CMD_SERVER_CLOSE_SOC
    | CMD_SERVER_CHECK_ERRORS

  // What the system calls of a state function return; started is ctx.start at its second reading.
  datatype Results = Results(socket: int, bind: int, listen: int, select: int, accept: int, read: int, started: bool)

  const NO_RESULTS: Results := Results(-1, -1, -1, -1, -1, -1, false)

  datatype Context = Context(
    state: AppState, socket: int, client_socket: int, error: bool, start: bool, disconnect_req: bool, os: Os)

  const INITIAL: Context := Context(CMD_SERVER_IDLE, -1, -1, false, false, false, Os({}, 0, 0))

  predicate MustClose(c: Context) {
    !c.start || c.disconnect_req
  }

  function Failed(c: Context): Context {
    c.(error := true, state := CMD_SERVER_CLOSE_SOC)
  }

  // _create_soc_state; after a failed socket() it goes on to bind and listen.
  function CreateSoc(c: Context, r: Results): Context {
    if c.socket != -1 then c.(state := CMD_SERVER_CLOSE_SOC)
    else
      var c1 := c.(socket := r.socket, os := Opened(c.os, r.socket));
      var c2 := if r.socket < 0 then Failed(c1) else c1;
      if r.bind < 0 || r.listen < 0 then Failed(c2) else c2.(state := CMD_SERVER_LISTEN)
  }

  function ListenClient(c: Context, r: Results): Context {
    if MustClose(c) then c.(state := CMD_SERVER_CLOSE_SOC)
    else if r.select < 0 then Failed(c)
    else if r.select == 0 then c
    else if r.accept < 0 then Failed(c)
    else c.(client_socket := r.accept, os := Opened(c.os, r.accept), state := CMD_SERVER_STATE_READY)
  }

  function ConnectReady(c: Context, r: Results): Context {
    if MustClose(c) then c.(state := CMD_SERVER_CLOSE_SOC)
    else if r.select < 0 then Failed(c)
    else if r.select == 0 then c
    else if !r.started then c.(state := CMD_SERVER_CLOSE_SOC)
    else if r.read < 0 then Failed(c)
    else if r.read == 0 then c.(state := CMD_SERVER_CLOSE_SOC)
    else c.(state := CMD_SERVER_PARSE_RESPONSE)
  }

  function CloseSoc(c: Context): Context {
    var c1 := if c.client_socket != -1 then c.(client_socket := -1, os := Closed(c.os, c.client_socket)) else c;
    var c2 := if c1.socket != -1 then c1.(socket := -1, os := Closed(c1.os, c1.socket)) else c1;
    c2.(state := CMD_SERVER_CHECK_ERRORS)
  }

  // One turn of the loop.
  function Turn(c: Context, r: Results): Context {
    match c.state
    case CMD_SERVER_IDLE =>
      if c.start then c.(error := false, disconnect_req := false, state := CMD_SERVER_CREATE_SOC) else c
    case CMD_SERVER_CREATE_SOC => CreateSoc(c, r)
    case CMD_SERVER_LISTEN => ListenClient(c, r)
    case CMD_SERVER_STATE_READY => ConnectReady(c, r)
    case CMD_SERVER_PARSE_RESPONSE => c.(state := if MustClose(c) then CMD_SERVER_CLOSE_SOC else CMD_SERVER_STATE_READY)
    case CMD_SERVER_CLOSE_SOC => CloseSoc(c)
    case CMD_SERVER_CHECK_ERRORS => c.(error := false, disconnect_req := false, state := CMD_SERVER_IDLE)
  }

  class Server {
    var state: AppState
    var socket: int
    var client_socket: int
    var error: bool
    var start: bool
    var disconnect_req: bool
    var os: Os

    function Ctx(): Context
      reads this
    {
      Context(state, socket, client_socket, error, start, disconnect_req, os)
    }

    // cmd_server_ctx_init
    constructor ()
      ensures Ctx() == INITIAL
    {
      state := CMD_SERVER_IDLE;
      error, start, disconnect_req := false, false, false;
      socket, client_socket := -1, -1;
      os := Os({}, 0, 0);
    }

    method CreateSocState(r: Results)
      modifies this
      ensures Ctx() == CreateSoc(old(Ctx()), r)
    {
      if socket != -1 {
        state := CMD_SERVER_CLOSE_SOC;
        return;
      }
      socket := r.socket;
      os := Opened(os, r.socket);
      if socket < 0 {
        error := true;
        state := CMD_SERVER_CLOSE_SOC;
      }
      if r.bind < 0 {
        error := true;
        state := CMD_SERVER_CLOSE_SOC;
        return;
      }
      if r.listen < 0 {
        error := true;
        state := CMD_SERVER_CLOSE_SOC;
        return;
      }
      state := CMD_SERVER_LISTEN;
    }

    method ListenClientState(r: Results)
      modifies this
      ensures Ctx() == ListenClient(old(Ctx()), r)
    {
      if !start || disconnect_req {
        state := CMD_SERVER_CLOSE_SOC;
        return;
      }
      if r.select < 0 {
        error := true;
        state := CMD_SERVER_CLOSE_SOC;
        return;
      } else if r.select == 0 {
        return;
      }
      if r.accept < 0 {
        error := true;
        state := CMD_SERVER_CLOSE_SOC;
        return;
      }
      client_socket := r.accept;
      os := Opened(os, r.accept);
      state := CMD_SERVER_STATE_READY;
    }

    method ConnectReadyState(r: Results)
      modifies this
      ensures Ctx() == ConnectReady(old(Ctx()), r)
    {
      if !start || disconnect_req {
        state := CMD_SERVER_CLOSE_SOC;
        return;
      }
      if r.select < 0 {
        error := true;
        state := CMD_SERVER_CLOSE_SOC;
        return;
      } else if r.select == 0 {
        return;
      }
      if r.started {
        if r.read > 0 {
          state := CMD_SERVER_PARSE_RESPONSE;
        } else if r.read == 0 {
          state := CMD_SERVER_CLOSE_SOC;
        } else {
          error := true;
          state := CMD_SERVER_CLOSE_SOC;
        }
      } else {
        state := CMD_SERVER_CLOSE_SOC;
      }
    }

    method CloseSocState()
      modifies this
      ensures Ctx() == CloseSoc(old(Ctx()))
    {
      if client_socket != -1 {
        os := Closed(os, client_socket);
        client_socket := -1;
      }
      if socket != -1 {
        os := Closed(os, socket);
        socket := -1;
      }
      state := CMD_SERVER_CHECK_ERRORS;
    }

    // The switch of cmd_server_task.
    method Task(r: Results)
      modifies this
      ensures Ctx() == Turn(old(Ctx()), r)
    {
      match state
      case CMD_SERVER_IDLE =>
        if start {
          error, disconnect_req := false, false;
          state := CMD_SERVER_CREATE_SOC;
        }
      case CMD_SERVER_CREATE_SOC => CreateSocState(r);
      case CMD_SERVER_LISTEN => ListenClientState(r);
      case CMD_SERVER_STATE_READY => ConnectReadyState(r);
      case CMD_SERVER_PARSE_RESPONSE =>
        state := if !start || disconnect_req then CMD_SERVER_CLOSE_SOC else CMD_SERVER_STATE_READY;
      case CMD_SERVER_CLOSE_SOC => CloseSocState();
      case CMD_SERVER_CHECK_ERRORS =>
        error, disconnect_req := false, false;
        state := CMD_SERVER_IDLE;
    }
  }

  // ------ Every run, other threads setting the flags between the turns ------

  datatype Move = Turns(r: Results) | Request(start: bool, disconnect_req: bool)

  // The system calls return descriptors that are not in use; a second one is not the first.
  ghost predicate Possible(c: Context, m: Move) {
    m.Turns? ==> Returns(c.os, m.r.socket) && Returns(c.os, m.r.accept)
  }

  function Next(c: Context, m: Move): Context {
    match m
    case Turns(r) => Turn(c, r)
    case Request(start, disconnect_req) => c.(start := start, disconnect_req := disconnect_req)
  }

  // In which states a connection, and a listening socket, may be held.
  ghost predicate Fits(c: Context) {
    (c.client_socket != -1 ==>
       c.state == CMD_SERVER_STATE_READY || c.state == CMD_SERVER_PARSE_RESPONSE || c.state == CMD_SERVER_CLOSE_SOC)
    && (c.state == CMD_SERVER_IDLE || c.state == CMD_SERVER_CREATE_SOC || c.state == CMD_SERVER_CHECK_ERRORS ==>
          c.socket == -1)
  }

  ghost predicate Inv(c: Context) {
    && c.socket >= -1 && c.client_socket >= -1 && Fits(c)
    && (c.socket != -1 ==> c.socket != c.client_socket)
    && c.os.open == Held(c.socket) + Held(c.client_socket) && Balanced(c.os)
  }

  lemma CloseKeeps(c: Context)
    requires Inv(c)
    ensures Inv(CloseSoc(c))
  {
    ClosedBalanced(c.os, c.client_socket);
    var c1 := if c.client_socket != -1 then c.(client_socket := -1, os := Closed(c.os, c.client_socket)) else c;
    assert c1.os.open == Held(c.socket) && Balanced(c1.os);
    ClosedBalanced(c1.os, c1.socket);
  }

  lemma CreateKeeps(c: Context, r: Results)
    requires Inv(c) && Returns(c.os, r.socket) && c.state == CMD_SERVER_CREATE_SOC
    ensures Inv(CreateSoc(c, r))
  {
    OpenedBalanced(c.os, r.socket);
    assert Opened(c.os, r.socket).open == Held(r.socket);
  }

  lemma ListenKeeps(c: Context, r: Results)
    requires Inv(c) && Returns(c.os, r.accept) && c.state == CMD_SERVER_LISTEN
    ensures Inv(ListenClient(c, r))
  {
    OpenedBalanced(c.os, r.accept);
    assert Opened(c.os, r.accept).open == Held(c.socket) + Held(r.accept);
  }

  lemma ReadyKeeps(c: Context, r: Results)
    requires Inv(c) && c.state == CMD_SERVER_STATE_READY
    ensures Inv(ConnectReady(c, r))
  {
  }

  lemma TurnKeeps(c: Context, r: Results)
    requires Inv(c) && Possible(c, Turns(r))
    ensures Inv(Turn(c, r))
  {
    match c.state
    case CMD_SERVER_CREATE_SOC => CreateKeeps(c, r);
    case CMD_SERVER_LISTEN => ListenKeeps(c, r);
    case CMD_SERVER_STATE_READY => ReadyKeeps(c, r);
    case CMD_SERVER_CLOSE_SOC => CloseKeeps(c);
    case _ =>
  }

  datatype Run = Run(contexts: seq<Context>, moves: seq<Move>)

  ghost predicate IsRun(r: Run) {
    |r.contexts| == |r.moves| + 1 && r.contexts[0] == INITIAL
    && forall i | 0 <= i < |r.moves| :: Possible(r.contexts[i], r.moves[i]) && r.contexts[i + 1] == Next(r.contexts[i], r.moves[i])
  }

  lemma HeldCount(c: Context)
    requires Inv(c)
    ensures |c.os.open| == (if c.socket == -1 then 0 else 1) + (if c.client_socket == -1 then 0 else 1)
  {
    if c.socket != -1 && c.client_socket != -1 {
      assert c.os.open == {c.socket, c.client_socket};
    } else if c.socket != -1 {
      assert c.os.open == {c.socket};
    } else {
      assert c.os.open == Held(c.client_socket);
    }
  }

  // At every moment of every run: what was opened and not closed is at most the listening socket and one
  // connection, namely the two the context holds, and an idle server holds none.
  lemma {:induction false} SocketsConserved(r: Run, i: nat)
    requires IsRun(r) && i < |r.contexts|
    ensures Inv(r.contexts[i])
    ensures var c := r.contexts[i];
      c.os.opens - c.os.closes == (if c.socket == -1 then 0 else 1) + (if c.client_socket == -1 then 0 else 1)
      && (c.state == CMD_SERVER_IDLE ==> c.os.opens == c.os.closes)
  {
    if i > 0 {
      SocketsConserved(r, i - 1);
      if r.moves[i - 1].Turns? { TurnKeeps(r.contexts[i - 1], r.moves[i - 1].r); }
    }
    HeldCount(r.contexts[i]);
  }

  // ------ When the server has a connection, parses and closes ------

  // Turn j accepted the connection the server has had since.
  ghost predicate Accepted(r: Run, j: nat, k: nat) {
    j < k < |r.contexts| && j < |r.moves| && r.contexts[j].state == CMD_SERVER_LISTEN
    && r.contexts[j].start && !r.contexts[j].disconnect_req
    && r.moves[j].Turns? && r.moves[j].r.select > 0 && r.moves[j].r.accept >= 0
    && forall i | j < i <= k :: r.contexts[i].client_socket == r.moves[j].r.accept
                            && (r.contexts[i].state == CMD_SERVER_STATE_READY || r.contexts[i].state == CMD_SERVER_PARSE_RESPONSE)
  }

  // In every run, a server that is ready or parsing is so since a turn that was listening, was neither stopped
  // nor asked to disconnect, and accepted the connection it holds.
  lemma {:induction false} ReadyIsAccepted(r: Run, k: nat) returns (j: nat)
    requires IsRun(r) && k < |r.contexts|
    requires r.contexts[k].state == CMD_SERVER_STATE_READY || r.contexts[k].state == CMD_SERVER_PARSE_RESPONSE
    ensures Accepted(r, j, k)
  {
    assert k > 0;
    j := k - 1;
    assert r.contexts[k] == Next(r.contexts[j], r.moves[j]);
    if r.contexts[j].state != CMD_SERVER_LISTEN {
      j := ReadyIsAccepted(r, k - 1);
    }
  }

  // A received packet is parsed exactly by a ready server that is wanted and whose read brought something.
  lemma ParsesIf(c: Context, r: Results)
    ensures Turn(c, r).state == CMD_SERVER_PARSE_RESPONSE
        <==> c.state == CMD_SERVER_STATE_READY && c.start && !c.disconnect_req && r.select > 0 && r.started && r.read > 0
  {
  }

  // It listens next exactly if its socket was just bound and listened on, even one that could not be created,
  // which the error flag then tells, or if it was listening, is wanted, and nobody connected.
  lemma ListensIf(c: Context, r: Results)
    ensures Turn(c, r).state == CMD_SERVER_LISTEN
        <==> (c.state == CMD_SERVER_CREATE_SOC && c.socket == -1 && r.bind >= 0 && r.listen >= 0)
             || (c.state == CMD_SERVER_LISTEN && c.start && !c.disconnect_req && r.select == 0)
    ensures Turn(c, r).state == CMD_SERVER_LISTEN ==>
      Turn(c, r).error == (c.error || (c.state == CMD_SERVER_CREATE_SOC && r.socket < 0))
      && Turn(c, r).socket == if c.state == CMD_SERVER_CREATE_SOC then r.socket else c.socket
  {
  }

  // A turn goes to the close state exactly for a stop or a disconnect request seen while there is a socket, a
  // failure of a call it makes, the end of the connection, or a socket left over before its creation; it sets
  // the error flag exactly for a failed call.
  lemma ClosesIf(c: Context, r: Results)
    requires c.state != CMD_SERVER_CLOSE_SOC
    ensures Turn(c, r).state == CMD_SERVER_CLOSE_SOC <==> match c.state
      case CMD_SERVER_CREATE_SOC => c.socket != -1 || r.bind < 0 || r.listen < 0
      case CMD_SERVER_LISTEN => !c.start || c.disconnect_req || r.select < 0 || (r.select > 0 && r.accept < 0)
      case CMD_SERVER_STATE_READY =>
        !c.start || c.disconnect_req || r.select < 0 || (r.select > 0 && (!r.started || r.read <= 0))
      case CMD_SERVER_PARSE_RESPONSE => !c.start || c.disconnect_req
      case _ => false
    ensures Turn(c, r).state == CMD_SERVER_CLOSE_SOC ==> Turn(c, r).error == (c.error || match c.state
      case CMD_SERVER_CREATE_SOC => c.socket == -1
      case CMD_SERVER_LISTEN => c.start && !c.disconnect_req
      case CMD_SERVER_STATE_READY => c.start && !c.disconnect_req && (r.select < 0 || (r.started && r.read < 0))
      case _ => false)
  {
  }

  // Turns without a request between them.
  function Undisturbed(c: Context, rs: seq<Results>): Context {
    if rs == [] then c else Turn(Undisturbed(c, rs[..|rs| - 1]), rs[|rs| - 1])
  }

  // A started idle server whose calls succeed listens after two turns, whatever its flags were, and goes on
  // listening on that socket while nobody connects.
  lemma {:induction false} GetsListening(c: Context, rs: seq<Results>)
    requires c.state == CMD_SERVER_IDLE && c.socket == -1 && c.client_socket == -1 && c.start
    requires |rs| >= 2 && rs[1].socket >= 0 && rs[1].bind >= 0 && rs[1].listen >= 0
    requires forall i | 2 <= i < |rs| :: rs[i].select == 0
    ensures Undisturbed(c, rs)
         == Context(CMD_SERVER_LISTEN, rs[1].socket, -1, false, true, false, Opened(c.os, rs[1].socket))
  {
    if |rs| == 2 {
      assert Undisturbed(c, rs[..1][..0]) == c;
      assert rs[..1][0] == rs[0];
    } else {
      GetsListening(c, rs[..|rs| - 1]);
    }
  }

  // The turns of an undisturbed connection: nothing to read, or something read.
  predicate Serving(r: Results) {
    r.select == 0 || (r.select > 0 && r.started && r.read > 0)
  }

  // When somebody connects, it is ready with that connection, and while something is read whenever there is
  // something to read, it stays ready or parsing, with the same sockets; after a parse it is ready again.
  lemma {:induction false} ServesConnection(c: Context, rs: seq<Results>)
    requires c.state == CMD_SERVER_LISTEN && c.start && !c.disconnect_req
    requires |rs| >= 1 && rs[0].select > 0 && rs[0].accept >= 0 && forall i | 1 <= i < |rs| :: Serving(rs[i])
    ensures var s := Undisturbed(c, rs);
      s == c.(state := s.state, client_socket := rs[0].accept, os := Opened(c.os, rs[0].accept))
      && if |rs| > 1 && Undisturbed(c, rs[..|rs| - 1]).state == CMD_SERVER_STATE_READY && rs[|rs| - 1].select > 0
         then s.state == CMD_SERVER_PARSE_RESPONSE else s.state == CMD_SERVER_STATE_READY
  {
    if |rs| == 1 {
      assert Undisturbed(c, rs[..0]) == c;
    } else {
      ServesConnection(c, rs[..|rs| - 1]);
    }
  }

  // The close state leads in two turns to an idle server without sockets, error or disconnect request, what it
  // held closed.
  lemma Closes(c: Context, r: Results, r': Results)
    requires c.state == CMD_SERVER_CLOSE_SOC
    ensures Turn(c, r).state == CMD_SERVER_CHECK_ERRORS && Turn(c, r).socket == -1 && Turn(c, r).client_socket == -1
    ensures Turn(Turn(c, r), r').os.open == c.os.open - Held(c.client_socket) - Held(c.socket)
    ensures Turn(Turn(c, r), r')
         == Context(CMD_SERVER_IDLE, -1, -1, false, c.start, false, Turn(c, r).os)
  {
  }

  // So a stop or disconnect request of a listening, ready or parsing server ends in an idle one after three turns.
  lemma StopEndsIdle(c: Context, r: Results, r': Results, r'': Results)
    requires c.state == CMD_SERVER_LISTEN || c.state == CMD_SERVER_STATE_READY || c.state == CMD_SERVER_PARSE_RESPONSE
    requires !c.start || c.disconnect_req
    ensures Turn(Turn(Turn(c, r), r'), r'')
         == Context(CMD_SERVER_IDLE, -1, -1, false, c.start, false, Turn(Turn(c, r), r').os)
    ensures Turn(Turn(c, r), r').os.open == c.os.open - Held(c.client_socket) - Held(c.socket)
  {
    assert Turn(c, r) == c.(state := CMD_SERVER_CLOSE_SOC);
    Closes(Turn(c, r), r', r'');
  }
}
