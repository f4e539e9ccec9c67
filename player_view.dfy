/**
 * The logic of a player's screen in frontend/src/player.rs: whether the
 * buzzer is locked for this player, what its button says, and what a click
 * on it sends.
 */
module PlayerView {
  import opened Protocol
  import opened Text

  /** The `any` over `buzzer_order`: some entry carries `id`. */
  function HasEntry(order: seq<(Uuid, string)>, id: Uuid): (b: bool)
    ensures b <==> exists i :: 0 <= i < |order| && order[i].0 == id
    decreases |order|
  {
    if order == [] then false
    else
      var rest := HasEntry(order[1..], id);
      assert forall i :: 1 <= i < |order| ==> order[i] == order[1..][i - 1];
      order[0].0 == id || rest
  }

  /** `i_have_buzzed`: false while the player's id is unknown. */
  function IHaveBuzzed(myId: Option<Uuid>, g: GameState): (b: bool)
    ensures b <==> myId.Some? && exists i :: 0 <= i < |g.buzzerOrder| && g.buzzerOrder[i].0 == myId.value
  {
    match myId
    case None => false
    case Some(id) => HasEntry(g.buzzerOrder, id)
  }

  /** `locked`: the whole game is locked, or this player has already buzzed. */
  predicate BuzzerLocked(myId: Option<Uuid>, g: GameState)
    ensures BuzzerLocked(myId, g) <==>
      (g.globallyLocked
       || (myId.Some? && exists i :: 0 <= i < |g.buzzerOrder| && g.buzzerOrder[i].0 == myId.value))
  {
    g.globallyLocked || IHaveBuzzed(myId, g)
  }

  /** What the player's screen shows: the code and the buzzer button, or a
      panic when the game code is unset (the `unwrap` of the render). */
  datatype Screen = Shown(code: Option<nat>, disabled: bool, text: string) | Panic

  function PlayerScreen(state: Option<GameState>, myId: Option<Uuid>, gameCode: Option<nat>): (s: Screen)
    ensures state.None? ==> s == Shown(None, true, "Loading...")
    ensures state.Some? && gameCode.None? <==> s.Panic?
    ensures state.Some? && gameCode.Some? ==>
      s.Shown? && s.code == gameCode && s.disabled == BuzzerLocked(myId, state.value)
    ensures s.Shown? && state.Some? ==> (s.text == "Locked" <==> s.disabled)
    ensures s.Shown? && state.Some? ==> (s.text == "BUZZ!" <==> !s.disabled)
  {
    match state
    case None => Shown(None, true, "Loading...")
    case Some(g) =>
      if gameCode.None? then Panic
      else
        var locked := BuzzerLocked(myId, g);
        Shown(gameCode, locked, if locked then "Locked" else "BUZZ!")
  }

  /** What a click on the buzzer does. */
  datatype Effect = Send(msg: ClientToServer) | Nothing | Crash

  /** `on_buzz`: nothing while the id is unknown; otherwise a Buzz carrying
      this player's id, or a panic when the game code is unset. */
  function OnBuzz(myId: Option<Uuid>, gameCode: Option<nat>): (e: Effect)
    ensures e.Nothing? <==> myId.None?
    ensures e.Crash? <==> myId.Some? && gameCode.None?
    ensures e.Send? ==> e.msg == Buzz(gameCode.value, myId.value)
  {
    match myId
    case None => Nothing
    case Some(id) =>
      match gameCode
      case None => Crash
      case Some(code) => Send(Buzz(code, id))
  }

  /** Once this player's own buzz is in the queue, its button is locked;
      entries of other players do not lock it. */
  lemma OwnBuzzLocks(g: GameState, id: Uuid, name: string, code: nat)
    ensures PlayerScreen(Some(g.(buzzerOrder := g.buzzerOrder + [(id, name)])), Some(id), Some(code))
         == Shown(Some(code), true, "Locked")
  {
    var order := g.buzzerOrder + [(id, name)];
    assert order[|order| - 1].0 == id;
  }

  lemma OthersBuzzKeepsUnlocked(g: GameState, id: Uuid, other: Uuid, name: string)
    requires other != id
    ensures IHaveBuzzed(Some(id), g.(buzzerOrder := g.buzzerOrder + [(other, name)]))
        == IHaveBuzzed(Some(id), g)
  {
    var order := g.buzzerOrder + [(other, name)];
    assert forall i :: 0 <= i < |g.buzzerOrder| ==> order[i] == g.buzzerOrder[i];
  }

  /** Emptying the queue of an unlocked game unlocks every player's button. */
  lemma ClearedUnlocks(g: GameState, myId: Option<Uuid>)
    requires !g.globallyLocked
    ensures !BuzzerLocked(myId, g.(buzzerOrder := []))
  {
  }
}
