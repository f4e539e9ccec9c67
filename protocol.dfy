/**
 * The values exchanged between the buzzer server and its browser clients:
 * participant identities, the per-session game state the server builds, and
 * the two message enums of common/src/message.rs.
 */
module Protocol {

  /** A participant id (a UUID v4 drawn by the server per connection); the
      model only compares ids for equality. */
  type Uuid = nat

  /** The 32-bit signed integers of the score fields and deltas. */
  newtype i32 = x: int | -0x8000_0000 <= x < 0x8000_0000

  /** The display name reported for the host. */
  const HOST: string := "Host"

  /** The identity of a participant of one game. */
  datatype Actor = Host(id: Uuid) | Player(id: Uuid, name: string)
  {
    /** The display name: HOST for the host, the chosen name for a player. */
    function Name(): (n: string)
      ensures Host? ==> n == HOST
      ensures Player? ==> n == name
    {
      match this
      case Host(_) => HOST
      case Player(_, name) => name
    }
  }

  /** One game session, as the server builds and snapshots it. */
  datatype GameState = GameState(
    hostId: Uuid,
    globallyLocked: bool,
    buzzerOrder: seq<(Uuid, string)>,
    players: map<Uuid, Actor>,
    scores: map<Uuid, i32>,
    playerJoinOrder: seq<Uuid>)

  /** Events a client sends to the server. */
  datatype ClientToServer =
    | CreateGame
    | JoinGame(gameCode: nat, playerName: string)
    | Buzz(gameCode: nat, playerId: Uuid)
    | Lock(gameCode: nat)
    | Unlock(gameCode: nat)
    | Clear(gameCode: nat)
    | UpdateScore(gameCode: nat, playerId: Uuid, delta: i32)

  /** Events the server sends to a client; a game state travels as a copy. */
  datatype ServerToClient =
    | GameCreated(gameCode: nat, playerId: Uuid, gameState: GameState)
    | GameJoined(playerId: Uuid, playerName: string, gameState: GameState)
    | GameStateUpdate(gameState: GameState)
    | Error(message: string)
    | PlayerBuzzed(playerId: Uuid, playerName: string)
}
