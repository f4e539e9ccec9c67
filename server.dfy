/**
 * The session server of server/src/main.rs: the registry of games keyed by
 * a five-digit code, the registry of live connections, and one handler per
 * client event. Each handler is one atomic step on plain maps; the messages
 * it sends are appended to `outbox` in the order the handler sends them.
 */
module Server {
  import opened Protocol
  import Text

  /** The half-open range `10000..99999` that codes are drawn from. */
  const CODE_LOW: nat := 10000
  const CODE_HIGH: nat := 99999

  /** The largest accepted byte length of a trimmed player name. */
  const NAME_MAX_BYTES: nat := 12

  const NAME_LENGTH_ERROR: string := "Player name must be between 1 and 12 characters."

  function NotFoundMessage(code: nat): string
  {
    "Game '" + Text.NatToString(code) + "' not found."
  }

  predicate InCodeRange(code: nat)
  {
    CODE_LOW <= code < CODE_HIGH
  }

  /** The name check of JoinGame, on the already trimmed name. The bound is
      on UTF-8 bytes, not characters: it admits at most 12 characters, and
      exactly the names of 1 to 12 characters when all are ASCII. */
  predicate ValidName(name: string)
    ensures ValidName(name) ==> 1 <= |name| <= NAME_MAX_BYTES
    ensures (forall i :: 0 <= i < |name| ==> name[i] as int < 0x80) ==>
      (ValidName(name) <==> 1 <= |name| <= NAME_MAX_BYTES)
  {
    !(name == [] || Text.Utf8Len(name) > NAME_MAX_BYTES)
  }

  /** One message queued on the channel of a connection. */
  datatype Envelope = Envelope(to: Uuid, msg: ServerToClient)

  /** What every handler keeps true of every stored game. */
  predicate WellFormed(g: GameState)
  {
    && (forall id :: id in g.players ==> g.players[id].id == id)
    && (forall id :: id in g.players && g.players[id].Host? ==> id == g.hostId)
    && (forall i :: 0 <= i < |g.playerJoinOrder| ==> g.playerJoinOrder[i] in g.players)
    && (forall id :: id in g.players ==> id in g.playerJoinOrder)
    && (forall id :: id in g.players && g.players[id].Player? ==> id in g.scores)
    && (forall id :: id in g.scores ==> g.scores[id] >= 0)
  }

  /** The game CreateGame builds for its sender. */
  function NewGame(host: Uuid): (g: GameState)
    ensures WellFormed(g)
    ensures g.hostId == host && g.players.Keys == {host} && g.players[host] == Host(host)
    ensures g.playerJoinOrder == [host] && g.scores == map[]
    ensures g.buzzerOrder == [] && !g.globallyLocked
  {
    GameState(host, false, [], map[host := Host(host)], map[], [host])
  }

  /** The game after a successful JoinGame by `id` under `name`. */
  function Joined(g: GameState, id: Uuid, name: string): GameState
  {
    g.(players := g.players[id := Player(id, name)],
       scores := g.scores[id := 0],
       playerJoinOrder := g.playerJoinOrder + [id])
  }

  lemma JoinedWellFormed(g: GameState, id: Uuid, name: string)
    requires WellFormed(g)
    ensures WellFormed(Joined(g, id, name))
  {
    var j := Joined(g, id, name);
    assert forall i :: 0 <= i < |g.playerJoinOrder| ==> j.playerJoinOrder[i] == g.playerJoinOrder[i];
  }

  /** `Vec::retain(|&id| id != x)`: every occurrence of `x` goes, every other
      element stays (with its multiplicity: WithoutMultiset), and the order is
      kept (WithoutAppend). */
  function Without(s: seq<Uuid>, x: Uuid): (r: seq<Uuid>)
    ensures |r| <= |s|
    ensures forall y :: y in r <==> y in s && y != x
    decreases |s|
  {
    if s == [] then []
    else
      var rest := Without(s[1..], x);
      assert s == [s[0]] + s[1..];
      (if s[0] == x then [] else [s[0]]) + rest
  }

  /** `retain` removes every copy of `x` and keeps every other element with
      its multiplicity. */
  lemma {:induction false} WithoutMultiset(s: seq<Uuid>, x: Uuid)
    ensures multiset(Without(s, x)) == multiset(s)[x := 0]
    decreases |s|
  {
    if s != [] {
      WithoutMultiset(s[1..], x);
      assert s == [s[0]] + s[1..];
      assert multiset(s) == multiset([s[0]]) + multiset(s[1..]);
    }
  }

  /** Nothing changes when `x` does not occur. */
  lemma {:induction false} WithoutAbsent(s: seq<Uuid>, x: Uuid)
    requires x !in s
    ensures Without(s, x) == s
    decreases |s|
  {
    if s != [] {
      WithoutAbsent(s[1..], x);
      assert s == [s[0]] + s[1..];
    }
  }

  /** A single element stays exactly when it differs from `x`. */
  lemma WithoutSingle(y: Uuid, x: Uuid)
    ensures Without([y], x) == if y == x then [] else [y]
  {
    assert [y][1..] == [];
  }

  /** `retain` works element by element from the front, so it keeps the order:
      filtering a concatenation is concatenating the filtered parts. */
  lemma {:induction false} WithoutAppend(a: seq<Uuid>, b: seq<Uuid>, x: Uuid)
    ensures Without(a + b, x) == Without(a, x) + Without(b, x)
    decreases |a|
  {
    if a == [] {
      assert a + b == b;
    } else {
      var ab := a + b;
      assert ab[0] == a[0] && ab[1..] == a[1..] + b;
      WithoutAppend(a[1..], b, x);
      var head := if a[0] == x then [] else [a[0]];
      assert Without(ab, x) == head + Without(a[1..] + b, x);
      assert Without(a, x) == head + Without(a[1..], x);
      assert head + (Without(a[1..], x) + Without(b, x)) == (head + Without(a[1..], x)) + Without(b, x);
    }
  }

  /** The game after the disconnect cleanup removed `id` from it: `id` leaves
      the players and every place of the join order, in which the other ids
      keep their multiplicities; the scores, the buzz queue, the host and the
      lock stay as they were. */
  function Removed(g: GameState, id: Uuid): (r: GameState)
    ensures r.players.Keys == g.players.Keys - {id}
    ensures forall other :: other in r.players ==> r.players[other] == g.players[other]
    ensures forall i :: 0 <= i < |r.playerJoinOrder| ==> r.playerJoinOrder[i] != id
    ensures multiset(r.playerJoinOrder) == multiset(g.playerJoinOrder)[id := 0]
    ensures r.scores == g.scores && r.buzzerOrder == g.buzzerOrder
    ensures r.hostId == g.hostId && r.globallyLocked == g.globallyLocked
  {
    WithoutMultiset(g.playerJoinOrder, id);
    var order := Without(g.playerJoinOrder, id);
    assert forall i :: 0 <= i < |order| ==> order[i] in order;
    g.(players := g.players - {id}, playerJoinOrder := order)
  }

  lemma RemovedWellFormed(g: GameState, id: Uuid)
    requires WellFormed(g)
    ensures WellFormed(Removed(g, id))
  {
    var r := Removed(g, id);
    var order := Without(g.playerJoinOrder, id);
    assert r.playerJoinOrder == order;
    forall i | 0 <= i < |order| ensures order[i] in r.players {
      assert order[i] in order;
    }
    forall other | other in r.players ensures other in order {
      assert other in g.playerJoinOrder;
    }
  }

  /** The game after an accepted Buzz of `playerId`: its entry, with the
      name the game holds for it, at the back of the queue. */
  function BuzzedGame(g: GameState, playerId: Uuid): GameState
    requires playerId in g.players
  {
    g.(buzzerOrder := g.buzzerOrder + [(playerId, g.players[playerId].Name())])
  }

  /** The game after the host's Lock (`lock` true) or Unlock. */
  function LockedGame(g: GameState, lock: bool): GameState
  {
    g.(globallyLocked := lock)
  }

  /** The score UpdateScore starts from: the stored one, or 0. */
  function OldScore(scores: map<Uuid, i32>, id: Uuid): i32
  {
    if id in scores then scores[id] else 0
  }

  /** The i32 addition of UpdateScore does not overflow. */
  predicate ScoreFits(scores: map<Uuid, i32>, id: Uuid, delta: i32)
  {
    -0x8000_0000 <= OldScore(scores, id) as int + delta as int < 0x8000_0000
  }

  /** `(score + delta).max(0)`. */
  function ClampedScore(score: i32, delta: i32): (r: i32)
    requires -0x8000_0000 <= score as int + delta as int < 0x8000_0000
    ensures r >= 0 && r as int >= score as int + delta as int
    ensures r == 0 || r as int == score as int + delta as int
  {
    var sum := score + delta;
    if sum < 0 then 0 else sum
  }

  /** Adding a positive delta and then taking it away restores the score. */
  lemma PlusThenMinus(score: i32, delta: i32)
    requires score >= 0 && delta >= 1 && score as int + delta as int < 0x8000_0000
    ensures ClampedScore(ClampedScore(score, delta), -delta) == score
  {
  }

  /** Taking a delta away and adding it back restores the score exactly when
      the score was at least the delta; otherwise the floor at 0 wins. */
  lemma MinusThenPlus(score: i32, delta: i32)
    requires score >= 0 && delta >= 1
    ensures ClampedScore(ClampedScore(score, -delta), delta) >= score
    ensures ClampedScore(ClampedScore(score, -delta), delta) == score <==> score >= delta
  {
  }

  /** Starting at 0, +10 then -15 ends at 0, not -5. */
  lemma TenThenMinusFifteen()
    ensures ClampedScore(ClampedScore(0, 10), -15) == 0
  {
  }

  predicate HasFreeDraw(draws: seq<nat>, games: map<nat, GameState>)
  {
    exists i :: 0 <= i < |draws| && draws[i] !in games
  }

  lemma HasFreeDrawTail(draws: seq<nat>, games: map<nat, GameState>)
    requires HasFreeDraw(draws, games) && draws[0] in games
    ensures HasFreeDraw(draws[1..], games)
  {
    var i :| 0 <= i < |draws| && draws[i] !in games;
    assert draws[1..][i - 1] == draws[i];
  }

  /** The position of the first draw that is not a key of `games`. */
  function FirstFreeIndex(draws: seq<nat>, games: map<nat, GameState>): (k: nat)
    requires HasFreeDraw(draws, games)
    ensures k < |draws| && draws[k] !in games
    ensures forall j :: 0 <= j < k ==> draws[j] in games
    decreases |draws|
  {
    if draws[0] !in games then 0
    else
      HasFreeDrawTail(draws, games);
      var k := FirstFreeIndex(draws[1..], games);
      assert forall j :: 1 <= j <= k ==> draws[j] == draws[1..][j - 1];
      1 + k
  }

  /** The code the retry loop of generate_game_code returns. */
  function FirstFreeCode(draws: seq<nat>, games: map<nat, GameState>): (code: nat)
    requires HasFreeDraw(draws, games)
    ensures code !in games
    ensures code in draws
  {
    draws[FirstFreeIndex(draws, games)]
  }

  /** `sent` is one GameStateUpdate of `g` to every connected key of
      `g.players`, each exactly once, in some order. */
  ghost predicate IsBroadcast(sent: seq<Envelope>, g: GameState, conns: set<Uuid>)
  {
    && (forall i :: 0 <= i < |sent| ==>
          sent[i].msg == GameStateUpdate(g) && sent[i].to in g.players && sent[i].to in conns)
    && (forall id :: id in g.players && id in conns ==>
          exists i :: 0 <= i < |sent| && sent[i].to == id)
    && (forall i, j :: 0 <= i < j < |sent| ==> sent[i].to != sent[j].to)
  }

  /** `after` is `before`, then the messages `direct`, then a broadcast of `g`. */
  ghost predicate SentThenBroadcast(before: seq<Envelope>, after: seq<Envelope>,
                                    direct: seq<Envelope>, g: GameState, conns: set<Uuid>)
  {
    && |before| + |direct| <= |after|
    && after[..|before| + |direct|] == before + direct
    && IsBroadcast(after[|before| + |direct|..], g, conns)
  }

  lemma SentThenBroadcastShift(before: seq<Envelope>, direct: seq<Envelope>, after: seq<Envelope>,
                               g: GameState, conns: set<Uuid>)
    requires SentThenBroadcast(before + direct, after, [], g, conns)
    ensures SentThenBroadcast(before, after, direct, g, conns)
  {
    assert before + direct + [] == before + direct;
  }

  /** CreateGame's update adds exactly one game, under a new code; every
      other game keeps its state. */
  lemma CreateAddsOneGame(games: map<nat, GameState>, draws: seq<nat>, host: Uuid)
    requires HasFreeDraw(draws, games)
    ensures var code := FirstFreeCode(draws, games);
      var after := games[code := NewGame(host)];
      && after.Keys == games.Keys + {code} && |after| == |games| + 1
      && (forall other :: other in games ==> after[other] == games[other])
  {
    var code := FirstFreeCode(draws, games);
    var after := games[code := NewGame(host)];
    assert after.Keys == games.Keys + {code};
  }

  class AppState {
    /** The game registry: code to game. */
    var games: map<nat, GameState>
    /** The ids that currently have an open channel. */
    var connections: set<Uuid>
    /** Every message queued so far, as (recipient, message), in order. */
    var outbox: seq<Envelope>

    ghost predicate Valid()
      reads this
    {
      forall code :: code in games ==> InCodeRange(code) && WellFormed(games[code])
    }

    constructor ()
      ensures Valid()
      ensures games == map[] && connections == {} && outbox == []
    {
      games := map[];
      connections := {};
      outbox := [];
    }

    /** What `send_to_player(id, msg)` queues: nothing for an id that has
        no connection. */
    function Delivered(id: Uuid, msg: ServerToClient): seq<Envelope>
      reads this
    {
      if id in connections then [Envelope(id, msg)] else []
    }

    /** A socket opens and its channel is registered under its id. */
    method Connect(id: Uuid)
      requires Valid()
      modifies this`connections
      ensures Valid()
      ensures connections == old(connections) + {id}
    {
      connections := connections + {id};
    }

    method SendToPlayer(id: Uuid, msg: ServerToClient)
      modifies this`outbox
      ensures outbox == old(outbox) + Delivered(id, msg)
    {
      if id in connections {
        outbox := outbox + [Envelope(id, msg)];
      }
    }

    method BroadcastStateUpdate(g: GameState)
      modifies this`outbox
      ensures SentThenBroadcast(old(outbox), outbox, [], g, connections)
    {
      var update := GameStateUpdate(g);
      var pending := g.players.Keys;
      ghost var sent: seq<Envelope> := [];
      while pending != {}
        invariant pending <= g.players.Keys
        invariant outbox == old(outbox) + sent
        invariant forall i :: 0 <= i < |sent| ==>
          sent[i].msg == update && sent[i].to in g.players && sent[i].to !in pending
          && sent[i].to in connections
        invariant forall id :: id in g.players && id !in pending && id in connections ==>
          exists i :: 0 <= i < |sent| && sent[i].to == id
        invariant forall i, j :: 0 <= i < j < |sent| ==> sent[i].to != sent[j].to
        decreases pending
      {
        var id :| id in pending;
        ghost var prev := sent;
        SendToPlayer(id, update);
        sent := sent + Delivered(id, update);
        pending := pending - {id};
        forall other | other in g.players && other !in pending && other in connections
          ensures exists i :: 0 <= i < |sent| && sent[i].to == other
        {
          if other == id {
            assert sent[|sent| - 1].to == other;
          } else {
            var i :| 0 <= i < |prev| && prev[i].to == other;
            assert sent[i] == prev[i];
          }
        }
      }
      assert outbox[..|old(outbox)| + 0] == old(outbox) + [];
      assert outbox[|old(outbox)| + 0..] == sent;
    }

    /** generate_game_code: draw codes from `draws`, the random stream, until
        one is not in use. */
    method GenerateGameCode(draws: seq<nat>) returns (code: nat)
      requires forall i :: 0 <= i < |draws| ==> InCodeRange(draws[i])
      requires HasFreeDraw(draws, games)
      ensures InCodeRange(code) && code !in games
      ensures code == FirstFreeCode(draws, games)
    {
      var i := 0;
      while draws[i] in games
        invariant i <= FirstFreeIndex(draws, games)
        decreases FirstFreeIndex(draws, games) - i
      {
        i := i + 1;
      }
      code := draws[i];
    }

    twostate predicate CreatedGame(sender: Uuid, draws: seq<nat>)
      requires HasFreeDraw(draws, old(games))
      reads this
    {
      var code := FirstFreeCode(draws, old(games));
      && games == old(games)[code := NewGame(sender)]
      && outbox == old(outbox) + Delivered(sender, GameCreated(code, sender, NewGame(sender)))
    }

    method CreateGame(sender: Uuid, draws: seq<nat>)
      requires Valid()
      requires forall i :: 0 <= i < |draws| ==> InCodeRange(draws[i])
      requires HasFreeDraw(draws, games)
      modifies this`games, this`outbox
      ensures Valid()
      ensures CreatedGame(sender, draws)
    {
      var code := GenerateGameCode(draws);
      var game := NewGame(sender);
      var response := GameCreated(code, sender, game);
      games := games[code := game];
      SendToPlayer(sender, response);
    }

    twostate predicate JoinedGame(sender: Uuid, code: nat, playerName: string)
      reads this
    {
      var name := Text.Trim(playerName);
      if !ValidName(name) then
        games == old(games) && outbox == old(outbox) + Delivered(sender, Error(NAME_LENGTH_ERROR))
      else if code !in old(games) then
        games == old(games) && outbox == old(outbox) + Delivered(sender, Error(NotFoundMessage(code)))
      else
        var game := Joined(old(games)[code], sender, name);
        && games == old(games)[code := game]
        && SentThenBroadcast(old(outbox), outbox, Delivered(sender, GameJoined(sender, name, game)),
                             game, connections)
    }

    method JoinGame(sender: Uuid, code: nat, playerName: string)
      requires Valid()
      modifies this`games, this`outbox
      ensures Valid()
      ensures JoinedGame(sender, code, playerName)
    {
      var name := Text.Trim(playerName);
      if name == [] || Text.Utf8Len(name) > NAME_MAX_BYTES {
        SendToPlayer(sender, Error(NAME_LENGTH_ERROR));
        return;
      }
      if code in games {
        var game := Joined(games[code], sender, name);
        JoinedWellFormed(games[code], sender, name);
        games := games[code := game];
        SendToPlayer(sender, GameJoined(sender, name, game));
        BroadcastStateUpdate(game);
        SentThenBroadcastShift(old(outbox), Delivered(sender, GameJoined(sender, name, game)),
                               outbox, game, connections);
      } else {
        SendToPlayer(sender, Error(NotFoundMessage(code)));
      }
    }

    twostate predicate Buzzed(code: nat, playerId: Uuid)
      reads this
    {
      if code in old(games) && !old(games)[code].globallyLocked && playerId in old(games)[code].players then
        var before := old(games)[code];
        var name := before.players[playerId].Name();
        var game := BuzzedGame(before, playerId);
        && games == old(games)[code := game]
        && SentThenBroadcast(old(outbox), outbox, Delivered(before.hostId, PlayerBuzzed(playerId, name)),
                             game, connections)
      else
        games == old(games) && outbox == old(outbox)
    }

    method Buzz(code: nat, playerId: Uuid)
      requires Valid()
      modifies this`games, this`outbox
      ensures Valid()
      ensures Buzzed(code, playerId)
    {
      if code in games && !games[code].globallyLocked {
        var game := games[code];
        if playerId !in game.players {
          return;
        }
        var name := game.players[playerId].Name();
        game := BuzzedGame(game, playerId);
        games := games[code := game];
        SendToPlayer(game.hostId, PlayerBuzzed(playerId, name));
        BroadcastStateUpdate(game);
        SentThenBroadcastShift(old(outbox), Delivered(game.hostId, PlayerBuzzed(playerId, name)),
                               outbox, game, connections);
      }
    }

    /** The host of `code` is `sender`. */
    predicate IsHostOf(sender: Uuid, code: nat)
      reads this
    {
      code in games && games[code].hostId == sender
    }

    twostate predicate LockSet(sender: Uuid, code: nat, lock: bool)
      reads this
    {
      if old(IsHostOf(sender, code)) then
        var game := LockedGame(old(games)[code], lock);
        && games == old(games)[code := game]
        && SentThenBroadcast(old(outbox), outbox, [], game, connections)
      else
        games == old(games) && outbox == old(outbox)
    }

    /** The shared arm of Lock (`lock` true) and Unlock (`lock` false). */
    method LockOrUnlock(sender: Uuid, code: nat, lock: bool)
      requires Valid()
      modifies this`games, this`outbox
      ensures Valid()
      ensures LockSet(sender, code, lock)
      ensures code in games ==> games[code].globallyLocked == (if old(IsHostOf(sender, code)) then lock else old(games)[code].globallyLocked)
    {
      if code in games {
        var game := games[code];
        if game.hostId == sender {
          game := LockedGame(game, lock);
          games := games[code := game];
          BroadcastStateUpdate(game);
        }
      }
    }

    twostate predicate Cleared(sender: Uuid, code: nat)
      reads this
    {
      if old(IsHostOf(sender, code)) then
        var game := old(games)[code].(buzzerOrder := []);
        && games == old(games)[code := game]
        && SentThenBroadcast(old(outbox), outbox, [], game, connections)
      else
        games == old(games) && outbox == old(outbox)
    }

    method Clear(sender: Uuid, code: nat)
      requires Valid()
      modifies this`games, this`outbox
      ensures Valid()
      ensures Cleared(sender, code)
    {
      if code in games {
        var game := games[code];
        if game.hostId == sender {
          game := game.(buzzerOrder := []);
          games := games[code := game];
          BroadcastStateUpdate(game);
        }
      }
    }

    twostate predicate ScoreUpdated(sender: Uuid, code: nat, playerId: Uuid, delta: i32)
      requires old(IsHostOf(sender, code)) ==> ScoreFits(old(games)[code].scores, playerId, delta)
      reads this
    {
      if old(IsHostOf(sender, code)) then
        var before := old(games)[code];
        var score := ClampedScore(OldScore(before.scores, playerId), delta);
        var game := before.(scores := before.scores[playerId := score]);
        && games == old(games)[code := game]
        && SentThenBroadcast(old(outbox), outbox, [], game, connections)
      else
        games == old(games) && outbox == old(outbox)
    }

    method UpdateScore(sender: Uuid, code: nat, playerId: Uuid, delta: i32)
      requires Valid()
      requires IsHostOf(sender, code) ==> ScoreFits(games[code].scores, playerId, delta)
      modifies this`games, this`outbox
      ensures Valid()
      ensures ScoreUpdated(sender, code, playerId, delta)
    {
      if code in games {
        var game := games[code];
        if game.hostId == sender {
          var score := ClampedScore(OldScore(game.scores, playerId), delta);
          game := game.(scores := game.scores[playerId := score]);
          games := games[code := game];
          BroadcastStateUpdate(game);
        }
      }
    }

    /** handle_c2s_message: dispatch one parsed client event from `sender`.
        `draws` is the random stream generate_game_code reads from. */
    method HandleC2sMessage(msg: ClientToServer, sender: Uuid, draws: seq<nat>)
      requires Valid()
      requires msg.CreateGame? ==>
        (forall i :: 0 <= i < |draws| ==> InCodeRange(draws[i])) && HasFreeDraw(draws, games)
      requires msg.UpdateScore? && IsHostOf(sender, msg.gameCode) ==>
        ScoreFits(games[msg.gameCode].scores, msg.playerId, msg.delta)
      modifies this`games, this`outbox
      ensures Valid()
      ensures match msg
        case CreateGame => CreatedGame(sender, draws)
        case JoinGame(code, name) => JoinedGame(sender, code, name)
        case Buzz(code, playerId) => Buzzed(code, playerId)
        case Lock(code) => LockSet(sender, code, true)
        case Unlock(code) => LockSet(sender, code, false)
        case Clear(code) => Cleared(sender, code)
        case UpdateScore(code, playerId, delta) => ScoreUpdated(sender, code, playerId, delta)
    {
      match msg
      case CreateGame => CreateGame(sender, draws);
      case JoinGame(code, name) => JoinGame(sender, code, name);
      case Buzz(code, playerId) => Buzz(code, playerId);
      case Lock(code) => LockOrUnlock(sender, code, true);
      case Unlock(code) => LockOrUnlock(sender, code, false);
      case Clear(code) => Clear(sender, code);
      case UpdateScore(code, playerId, delta) => UpdateScore(sender, code, playerId, delta);
    }

    twostate predicate Disconnected(id: Uuid)
      reads this
    {
      || ((forall code :: code in old(games) ==> id !in old(games)[code].players)
          && games == old(games) && outbox == old(outbox))
      || (exists code :: (code in old(games) && id in old(games)[code].players
            && games == old(games)[code := Removed(old(games)[code], id)]
            && SentThenBroadcast(old(outbox), outbox, [], Removed(old(games)[code], id), connections)))
    }

    /** The cleanup of handle_socket once either task of a connection ends:
        the channel goes, and the id leaves the first game (in the map's
        unspecified iteration order) whose players contain it. */
    method Disconnect(id: Uuid)
      requires Valid()
      modifies this`connections, this`games, this`outbox
      ensures Valid()
      ensures connections == old(connections) - {id}
      ensures Disconnected(id)
    {
      connections := connections - {id};
      var pending := games.Keys;
      while pending != {}
        invariant pending <= games.Keys
        invariant games == old(games) && outbox == old(outbox)
        invariant connections == old(connections) - {id}
        invariant forall code :: code in games && code !in pending ==> id !in games[code].players
        decreases pending
      {
        var code :| code in pending;
        if id in games[code].players {
          var game := Removed(games[code], id);
          RemovedWellFormed(games[code], id);
          games := games[code := game];
          BroadcastStateUpdate(game);
          return;
        }
        pending := pending - {code};
      }
    }
  }

  /** The end-to-end round of one host (id 1) and one player (id 2) in game
      12345: the game after "Ann" has joined. */
  function AnnJoined(): GameState
  {
    Joined(NewGame(1), 2, "Ann")
  }

  method ScenarioOpen() returns (server: AppState)
    ensures fresh(server) && server.Valid()
    ensures server.games == map[] && server.connections == {1, 2}
  {
    server := new AppState();
    server.Connect(1);
    server.Connect(2);
  }

  method ScenarioCreate(server: AppState)
    requires server.Valid() && server.games == map[]
    modifies server
    ensures server.Valid()
    ensures server.games.Keys == {12345} && server.games[12345] == NewGame(1)
    ensures server.connections == old(server.connections)
  {
    var draws := [12345];
    assert draws[0] !in server.games;
    server.CreateGame(1, draws);
  }

  lemma TrimmedAnn(typed: string)
    requires typed == " Ann "
    ensures Text.Trim(typed) == "Ann" && ValidName(Text.Trim(typed))
  {
    Text.TrimUnique(typed, 1, 4);
  }

  method ScenarioJoin(server: AppState)
    requires server.Valid()
    requires server.games.Keys == {12345} && server.games[12345] == NewGame(1)
    requires server.connections == {1, 2}
    modifies server
    ensures server.games.Keys == {12345}
    ensures server.games[12345] == AnnJoined()
  {
    var typed := " Ann ";
    TrimmedAnn(typed);
    var name := Text.Trim(typed);
    server.JoinGame(2, 12345, typed);
    assert server.games[12345] == Joined(NewGame(1), 2, name);
  }

  /** Ann's game once her buzz is in the queue. */
  function AnnBuzzed(): GameState
  {
    AnnJoined().(buzzerOrder := [(2, "Ann")])
  }

  /** Ann buzzes: she heads the queue and the host is told first. */
  method ScenarioBuzz(server: AppState)
    requires server.Valid()
    requires server.games.Keys == {12345} && server.games[12345] == AnnJoined()
    requires server.connections == {1, 2}
    modifies server
    ensures 12345 in server.games && server.games[12345].buzzerOrder == [(2, "Ann")]
    ensures |server.outbox| > |old(server.outbox)|
    ensures server.outbox[|old(server.outbox)|] == Envelope(1, PlayerBuzzed(2, "Ann"))
  {
    ghost var sent := server.outbox;
    var game := server.games[12345];
    assert game.hostId == 1 && !game.globallyLocked && 2 in game.players;
    assert game.players[2].Name() == "Ann";
    server.Buzz(12345, 2);
    assert server.outbox[..|sent| + 1] == sent + [Envelope(1, PlayerBuzzed(2, "Ann"))];
  }

  /** The host gives Ann +10 and then -15: the floor at 0 brings her back
      to 0, not to -5. */
  method ScenarioScore(server: AppState)
    requires server.Valid()
    requires server.games.Keys == {12345} && server.games[12345] == AnnJoined()
    requires server.connections == {1, 2}
    modifies server
    ensures 12345 in server.games && 2 in server.games[12345].scores
    ensures server.games[12345].scores[2] == 0
  {
    server.UpdateScore(1, 12345, 2, 10);
    server.UpdateScore(1, 12345, 2, -15);
  }

  /** Ann's own Clear is ignored and sends nothing. */
  method ScenarioForeignClear(server: AppState)
    requires server.Valid()
    requires server.games.Keys == {12345} && server.games[12345] == AnnBuzzed()
    modifies server
    ensures server.games == old(server.games) && server.outbox == old(server.outbox)
    ensures server.connections == old(server.connections)
  {
    server.Clear(2, 12345);
  }

  /** The host's Clear empties the queue. */
  method ScenarioHostClear(server: AppState)
    requires server.Valid()
    requires server.games.Keys == {12345} && server.games[12345] == AnnBuzzed()
    requires server.connections == {1, 2}
    modifies server
    ensures 12345 in server.games && server.games[12345].buzzerOrder == []
  {
    server.Clear(1, 12345);
  }

  /** Ann disconnects: she leaves the players and the join order, while her
      score stays behind, as does the game. */
  method ScenarioLeave(server: AppState)
    requires server.Valid()
    requires server.games.Keys == {12345} && server.games[12345] == AnnJoined()
    requires server.connections == {1, 2}
    modifies server
    ensures server.connections == {1} && 12345 in server.games
    ensures 2 !in server.games[12345].players && server.games[12345].playerJoinOrder == [1]
    ensures server.games[12345].scores == map[2 := 0]
  {
    server.Disconnect(2);
    AnnLeaves();
    assert server.games[12345] == Removed(AnnJoined(), 2);
  }

  /** What the cleanup leaves of Ann's game. */
  lemma AnnLeaves()
    ensures var left := Removed(AnnJoined(), 2);
      2 !in left.players && left.playerJoinOrder == [1] && left.scores == map[2 := 0]
  {
    WithoutAppend([1], [2], 2);
    WithoutSingle(1, 2);
    WithoutSingle(2, 2);
    assert [1] + [2] == [1, 2];
  }
}
