/**
 * The older four-field game snapshot of common/src/lib.rs and its JSON
 * twin, which differ only in the name of the buzz list. This snapshot is
 * separate from the six-field `Protocol.GameState` the server builds.
 */
module Common {
  import Protocol

  type Uuid = Protocol.Uuid

  /** Uuid::default(), the nil UUID. */
  const NIL_UUID: Uuid := 0

  datatype Player = Player(name: string)

  datatype GameState = GameState(
    hostId: Uuid,
    locked: bool,
    buzzerOrder: seq<Uuid>,
    players: map<Uuid, Player>)

  datatype GameStateJson = GameStateJson(
    hostId: Uuid,
    locked: bool,
    buzzerWinner: seq<Uuid>,
    players: map<Uuid, Player>)

  /** The derived `Default` of GameState: unlocked, with no buzzes, no
      players and the nil host id. */
  function Default(): (d: GameState)
    ensures !d.locked && d.buzzerOrder == [] && d.players == map[]
    ensures d.hostId == NIL_UUID
  {
    GameState(NIL_UUID, false, [], map[])
  }

  /** `GameState::to_json`: the buzz list is copied in order and with its
      multiplicities into the renamed field; the other fields are copied
      unchanged. */
  function ToJson(g: GameState): (j: GameStateJson)
    ensures |j.buzzerWinner| == |g.buzzerOrder|
    ensures forall i :: 0 <= i < |g.buzzerOrder| ==> j.buzzerWinner[i] == g.buzzerOrder[i]
    ensures multiset(j.buzzerWinner) == multiset(g.buzzerOrder)
    ensures j.hostId == g.hostId && j.locked == g.locked && j.players == g.players
  {
    GameStateJson(g.hostId, g.locked, g.buzzerOrder, g.players)
  }

  /** `From<GameStateJson> for GameState`: the renamed buzz list goes back
      into `buzzer_order` unchanged, as do the other fields. */
  function FromJson(j: GameStateJson): (g: GameState)
    ensures g.buzzerOrder == j.buzzerWinner
    ensures g.hostId == j.hostId && g.locked == j.locked && g.players == j.players
  {
    GameState(j.hostId, j.locked, j.buzzerWinner, j.players)
  }

  lemma FromJsonToJson(g: GameState)
    ensures FromJson(ToJson(g)) == g
  {
  }

  lemma ToJsonFromJson(j: GameStateJson)
    ensures ToJson(FromJson(j)) == j
  {
  }

  /** ToJson is injective: distinct snapshots never share a JSON form. */
  lemma ToJsonInjective(g1: GameState, g2: GameState)
    requires ToJson(g1) == ToJson(g2)
    ensures g1 == g2
  {
    FromJsonToJson(g1);
    FromJsonToJson(g2);
  }
}
