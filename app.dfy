/**
 * The browser client's shared context of frontend/src/main.rs: the loop of
 * `AppLayout` that applies every message from the server to the context,
 * the join form of `Home`, and the host/player decision of `GameRoom`.
 */
module App {
  import opened Protocol
  import opened Text

  datatype Route = Home | GameRoom(code: nat)

  /** The context signals the reducer and the pages read and write, with the
      routes pushed onto the navigator so far, oldest first. */
  datatype Ctx = Ctx(
    gameState: Option<GameState>,
    playerId: Option<Uuid>,
    playerName: Option<string>,
    gameCode: Option<nat>,
    errorMessage: Option<string>,
    locallyLocked: bool,
    isHost: bool,
    routes: seq<Route>)

  /** The context `AppLayout` starts from. */
  function Initial(): Ctx
  {
    Ctx(None, None, None, None, None, false, false, [])
  }

  /** What the socket yields: a text frame with its decoding (None when it is
      not a valid ServerToClient), or anything that ends the loop (a binary
      frame, a read error, the end of the stream). */
  datatype Frame = TextFrame(parsed: Option<ServerToClient>) | OtherFrame

  /** The body of the receive loop for one text frame. */
  function Step(c: Ctx, parsed: Option<ServerToClient>): (d: Ctx)
    // a malformed frame changes nothing
    ensures parsed.None? ==> d == c
    // every decoded message clears the error, unless it is an Error itself
    ensures parsed.Some? ==>
      d.errorMessage == (if parsed.value.Error? then Some(parsed.value.message) else None)
    ensures parsed.Some? && parsed.value.GameCreated? ==>
      var m := parsed.value;
      && d.gameCode == Some(m.gameCode) && d.playerId == Some(m.playerId)
      && d.gameState == Some(m.gameState) && d.routes == c.routes + [GameRoom(m.gameCode)]
      && d.playerName == c.playerName && d.locallyLocked == c.locallyLocked
    ensures parsed.Some? && parsed.value.GameJoined? ==>
      var m := parsed.value;
      && d.playerId == Some(m.playerId) && d.playerName == Some(m.playerName)
      && d.gameState == Some(m.gameState) && d.gameCode == c.gameCode
      && d.routes == c.routes + (if c.gameCode.Some? then [GameRoom(c.gameCode.value)] else [])
      && d.locallyLocked == c.locallyLocked
    ensures parsed.Some? && parsed.value.GameStateUpdate? ==>
      && d.gameState == Some(parsed.value.gameState)
      && d.locallyLocked == parsed.value.gameState.globallyLocked
      && d.(gameState := c.gameState, locallyLocked := c.locallyLocked, errorMessage := c.errorMessage) == c
    ensures parsed.Some? && (parsed.value.PlayerBuzzed? || parsed.value.Error?) ==>
      d.(errorMessage := c.errorMessage) == c
    // the reducer never writes `is_host`
    ensures d.isHost == c.isHost
  {
    match parsed
    case None => c
    case Some(msg) =>
      var c := c.(errorMessage := None);
      match msg
      case GameCreated(code, id, state) =>
        c.(gameCode := Some(code), playerId := Some(id), gameState := Some(state),
           routes := c.routes + [GameRoom(code)])
      case GameJoined(id, name, state) =>
        c.(playerId := Some(id), playerName := Some(name), gameState := Some(state),
           routes := c.routes + (if c.gameCode.Some? then [GameRoom(c.gameCode.value)] else []))
      case GameStateUpdate(state) =>
        c.(locallyLocked := state.globallyLocked, gameState := Some(state))
      case PlayerBuzzed(_, _) => c
      case Error(message) => c.(errorMessage := Some(message))
  }

  /** The whole `while let` loop: text frames are applied in order until the
      first frame that is not text. */
  function Run(c: Ctx, frames: seq<Frame>): (r: Ctx)
    // the reducer never writes `is_host`, however many frames arrive
    ensures r.isHost == c.isHost
    // routes are only ever pushed, never popped or replaced
    ensures |c.routes| <= |r.routes| && r.routes[..|c.routes|] == c.routes
    decreases |frames|
  {
    if frames == [] || frames[0].OtherFrame? then c
    else
      var d := Step(c, frames[0].parsed);
      var r := Run(d, frames[1..]);
      assert r.routes[..|c.routes|] == r.routes[..|d.routes|][..|c.routes|];
      r
  }

  /** The frames the loop consumes: those before the first non-text frame. */
  function Consumed(frames: seq<Frame>): (k: nat)
    ensures k <= |frames|
    ensures forall i :: 0 <= i < k ==> frames[i].TextFrame?
    ensures k < |frames| ==> frames[k].OtherFrame?
    decreases |frames|
  {
    if frames == [] || frames[0].OtherFrame? then 0
    else
      var k := Consumed(frames[1..]);
      assert forall i :: 1 <= i <= k ==> frames[i] == frames[1..][i - 1];
      1 + k
  }

  /** Nothing after the first non-text frame has any effect. */
  lemma {:induction false} RunIgnoresRest(c: Ctx, frames: seq<Frame>)
    ensures Run(c, frames) == Run(c, frames[..Consumed(frames)])
    decreases |frames|
  {
    var k := Consumed(frames);
    if frames != [] && frames[0].TextFrame? {
      RunIgnoresRest(Step(c, frames[0].parsed), frames[1..]);
      assert frames[..k][1..] == frames[1..][..k - 1];
    }
  }

  /** Running a batch of text frames and then more frames is one run. */
  lemma {:induction false} RunAppend(c: Ctx, a: seq<Frame>, b: seq<Frame>)
    requires forall i :: 0 <= i < |a| ==> a[i].TextFrame?
    ensures Run(c, a + b) == Run(Run(c, a), b)
    decreases |a|
  {
    if a == [] {
      assert a + b == b;
    } else {
      assert (a + b)[0] == a[0] && (a + b)[1..] == a[1..] + b;
      RunAppend(Step(c, a[0].parsed), a[1..], b);
    }
  }

  /** The last decoded message among the consumed frames, if any. */
  function LastMessage(frames: seq<Frame>): Option<ServerToClient>
    decreases |frames|
  {
    if frames == [] || frames[0].OtherFrame? then None
    else
      match LastMessage(frames[1..])
      case Some(m) => Some(m)
      case None => frames[0].parsed
  }

  /** After the loop, the error shown is the message of the last decoded
      message when that was an Error, nothing when it was anything else,
      and the old error when no message was decoded. */
  lemma {:induction false} RunErrorIsLast(c: Ctx, frames: seq<Frame>)
    ensures Run(c, frames).errorMessage == match LastMessage(frames)
      case None => c.errorMessage
      case Some(m) => if m.Error? then Some(m.message) else None
    decreases |frames|
  {
    if frames != [] && frames[0].TextFrame? {
      RunErrorIsLast(Step(c, frames[0].parsed), frames[1..]);
    }
  }

  /** The game codes the consumed frames announce in GameCreated. */
  function CreatedCodes(frames: seq<Frame>): set<nat>
    decreases |frames|
  {
    if frames == [] || frames[0].OtherFrame? then {}
    else
      var here := match frames[0].parsed
        case Some(GameCreated(code, _, _)) => {code}
        case _ => {};
      here + CreatedCodes(frames[1..])
  }

  /** The reducer only ever takes a game code from a GameCreated. */
  lemma {:induction false} RunGameCodeProvenance(c: Ctx, frames: seq<Frame>)
    ensures Run(c, frames).gameCode == c.gameCode
         || (Run(c, frames).gameCode.Some? && Run(c, frames).gameCode.value in CreatedCodes(frames))
    decreases |frames|
  {
    if frames != [] && frames[0].TextFrame? {
      RunGameCodeProvenance(Step(c, frames[0].parsed), frames[1..]);
    }
  }

  /** A state is never available without a game code, which the pages
      `unwrap`. */
  predicate CodeWithState(c: Ctx)
  {
    c.gameState.Some? ==> c.gameCode.Some?
  }

  /** Every message keeps CodeWithState once a code is known, and so do the
      messages that bring no state of a game the client has not asked for. */
  lemma StepKeepsCodeWithState(c: Ctx, parsed: Option<ServerToClient>)
    requires CodeWithState(c)
    requires c.gameCode.None? ==> parsed.None? || !(parsed.value.GameJoined? || parsed.value.GameStateUpdate?)
    ensures CodeWithState(Step(c, parsed))
    ensures c.gameCode.Some? ==> Step(c, parsed).gameCode.Some?
  {
  }

  /** A GameJoined before any code is set breaks it: the reducer itself does
      not protect the pages' `unwrap`. */
  lemma JoinedWithoutCode(id: Uuid, name: string, g: GameState)
    ensures !CodeWithState(Step(Initial(), Some(GameJoined(id, name, g))))
  {
  }

  /** `on_join_submit`: a JoinGame with the untrimmed name, only when the code
      text parses as a usize. */
  function JoinSubmission(joinCode: string, playerName: string): (msg: Option<ClientToServer>)
    ensures msg.Some? <==> ParseUsize(joinCode).Some?
    ensures msg.Some? ==> msg.value == JoinGame(ParseUsize(joinCode).value, playerName)
  {
    match ParseUsize(joinCode)
    case None => None
    case Some(code) => Some(JoinGame(code, playerName))
  }

  /** The code a player types joins the game whose code is displayed. */
  lemma DisplayedCodeJoins(code: nat, playerName: string)
    requires code <= USIZE_MAX
    ensures JoinSubmission(NatToString(code), playerName) == Some(JoinGame(code, playerName))
  {
    ParseUsizeNatToString(code);
  }

  /** What `GameRoom` renders. */
  datatype RoomView = HostScreen | PlayerScreen | RedirectedHome | RoomPanic

  /** `is_host`: this client's id is the game's host id. */
  predicate IsHostIn(playerId: Option<Uuid>, g: GameState)
  {
    playerId == Some(g.hostId)
  }

  /** `GameRoom` as written: without a state it pushes Home and then panics
      on the `unwrap` of the state. */
  function RoomAsWritten(c: Ctx): (r: (Ctx, RoomView))
    ensures c.gameState.None? ==> r.1 == RoomPanic && r.0 == c.(routes := c.routes + [Home])
    ensures c.gameState.Some? ==>
      && r.0 == c.(isHost := IsHostIn(c.playerId, c.gameState.value))
      && r.1 == (if r.0.isHost then HostScreen else PlayerScreen)
  {
    match c.gameState
    case None => (c.(routes := c.routes + [Home]), RoomPanic)
    case Some(g) =>
      var isHost := IsHostIn(c.playerId, g);
      (c.(isHost := isHost), if isHost then HostScreen else PlayerScreen)
  }

  /** Opening a game page directly, before any message, panics. */
  lemma RoomAsWrittenPanicsOnDirectVisit()
    ensures RoomAsWritten(Initial()).1 == RoomPanic
  {
  }

  /** `GameRoom` as intended: without a state it only redirects Home. */
  function Room(c: Ctx): (r: (Ctx, RoomView))
    ensures r.1 != RoomPanic
    ensures c.gameState.None? ==> r.1 == RedirectedHome && r.0 == c.(routes := c.routes + [Home])
    ensures c.gameState.Some? ==>
      && r.0 == c.(isHost := IsHostIn(c.playerId, c.gameState.value))
      && (r.1 == HostScreen <==> r.0.isHost) && (r.1 == PlayerScreen <==> !r.0.isHost)
  {
    match c.gameState
    case None => (c.(routes := c.routes + [Home]), RedirectedHome)
    case Some(g) =>
      var isHost := IsHostIn(c.playerId, g);
      (c.(isHost := isHost), if isHost then HostScreen else PlayerScreen)
  }

  /** The correction changes nothing when a state is present. */
  lemma RoomAgreesWithState(c: Ctx)
    requires c.gameState.Some?
    ensures Room(c) == RoomAsWritten(c)
  {
  }

  /** The context as signals that the handlers write in place. */
  class AppContext {
    var gameState: Option<GameState>
    var playerId: Option<Uuid>
    var playerName: Option<string>
    var gameCode: Option<nat>
    var errorMessage: Option<string>
    var locallyLocked: bool
    var isHost: bool
    var routes: seq<Route>

    function Snapshot(): Ctx
      reads this
    {
      Ctx(gameState, playerId, playerName, gameCode, errorMessage, locallyLocked, isHost, routes)
    }

    constructor ()
      ensures Snapshot() == Initial()
    {
      gameState := None;
      playerId := None;
      playerName := None;
      gameCode := None;
      errorMessage := None;
      locallyLocked := false;
      isHost := false;
      routes := [];
    }

    /** One turn of the receive loop: apply one decoded (or malformed) frame. */
    method HandleMessage(parsed: Option<ServerToClient>)
      modifies this
      ensures Snapshot() == Step(old(Snapshot()), parsed)
    {
      if parsed.None? {
        return;
      }
      errorMessage := None;
      match parsed.value
      case GameCreated(code, id, state) =>
        gameCode := Some(code);
        playerId := Some(id);
        gameState := Some(state);
        routes := routes + [GameRoom(code)];
      case GameJoined(id, name, state) =>
        playerId := Some(id);
        playerName := Some(name);
        gameState := Some(state);
        if gameCode.Some? {
          routes := routes + [GameRoom(gameCode.value)];
        }
      case GameStateUpdate(state) =>
        if state.globallyLocked != locallyLocked {
          locallyLocked := state.globallyLocked;
        }
        gameState := Some(state);
      case PlayerBuzzed(_, _) =>
      case Error(message) =>
        errorMessage := Some(message);
    }

    /** The `while let` loop over the frames of the socket. */
    method Listen(frames: seq<Frame>)
      modifies this
      ensures Snapshot() == Run(old(Snapshot()), frames)
    {
      var i := 0;
      while i < |frames| && frames[i].TextFrame?
        invariant i <= |frames|
        invariant Run(Snapshot(), frames[i..]) == Run(old(Snapshot()), frames)
        decreases |frames| - i
      {
        assert frames[i..][1..] == frames[i + 1..];
        HandleMessage(frames[i].parsed);
        i := i + 1;
      }
    }

    /** `on_join_submit` of `Home`: store the code and send JoinGame when the
        code text parses; otherwise do nothing. */
    method OnJoinSubmit(joinCode: string, name: string) returns (sent: Option<ClientToServer>)
      modifies this
      ensures sent == JoinSubmission(joinCode, name)
      ensures Snapshot() == old(Snapshot()).(gameCode :=
        if sent.Some? then Some(sent.value.gameCode) else old(gameCode))
    {
      sent := None;
      var parsed := ParseUsize(joinCode);
      if parsed.Some? {
        gameCode := Some(parsed.value);
        sent := Some(JoinGame(parsed.value, name));
      }
    }

    /** `GameRoom` with the missing-state case corrected: decide host or
        player and record it in `is_host`, or go back Home. */
    method EnterGameRoom() returns (view: RoomView)
      modifies this
      ensures (Snapshot(), view) == Room(old(Snapshot()))
    {
      if gameState.None? {
        routes := routes + [Home];
        view := RedirectedHome;
        return;
      }
      isHost := playerId == Some(gameState.value.hostId);
      view := if isHost then HostScreen else PlayerScreen;
    }
  }
}
