/**
 * The logic of the host's screen in frontend/src/host.rs: the list of players
 * with their scores, the list of buzzes, the lock controls, and the score
 * increment that the "+" and "-" buttons send.
 */
module HostView {
  import opened Protocol
  import opened Text

  /** One line of the "Players & Scores" list. */
  datatype PlayerRow = PlayerRow(id: Uuid, name: string, score: i32)

  /** An id gets a line when it names a participant whose name is not HOST. */
  predicate Listed(g: GameState, id: Uuid)
  {
    id in g.players && g.players[id].Name() != HOST
  }

  /** The score shown for `id`: the stored one, or 0 when there is none. */
  function ScoreOf(g: GameState, id: Uuid): i32
  {
    if id in g.scores then g.scores[id] else 0
  }

  function RowFor(g: GameState, id: Uuid): (row: PlayerRow)
    requires id in g.players
    ensures row.id == id && row.name == g.players[id].Name() && row.score == ScoreOf(g, id)
  {
    PlayerRow(id, g.players[id].Name(), ScoreOf(g, id))
  }

  /** The ids of a list of rows, in order. */
  function Ids(rows: seq<PlayerRow>): (ids: seq<Uuid>)
    ensures |ids| == |rows|
    ensures forall i :: 0 <= i < |rows| ==> ids[i] == rows[i].id
  {
    seq(|rows|, i requires 0 <= i < |rows| => rows[i].id)
  }

  /** The `filter_map` / `filter` / `map` chain over `order`. */
  function Rows(g: GameState, order: seq<Uuid>): (rows: seq<PlayerRow>)
    ensures |rows| <= |order|
    ensures forall i :: 0 <= i < |rows| ==>
      Listed(g, rows[i].id) && rows[i] == RowFor(g, rows[i].id)
    decreases |order|
  {
    if order == [] then []
    else (if Listed(g, order[0]) then [RowFor(g, order[0])] else []) + Rows(g, order[1..])
  }

  /** `players_data`: the rows in join order, or none without a game state. */
  function PlayersData(state: Option<GameState>): (rows: seq<PlayerRow>)
    ensures state.None? ==> rows == []
    ensures state.Some? ==> rows == Rows(state.value, state.value.playerJoinOrder)
  {
    match state
    case None => []
    case Some(g) => Rows(g, g.playerJoinOrder)
  }

  /** An id has a row exactly when it occurs in the join order and is listed:
      ids without an entry in `players` and the host are skipped. */
  lemma {:induction false} RowsMembership(g: GameState, order: seq<Uuid>, id: Uuid)
    ensures id in Ids(Rows(g, order)) <==> id in order && Listed(g, id)
    decreases |order|
  {
    if order != [] {
      RowsMembership(g, order[1..], id);
      var head := if Listed(g, order[0]) then [RowFor(g, order[0])] else [];
      var tail := Rows(g, order[1..]);
      assert Rows(g, order) == head + tail;
      var ids := Ids(head + tail);
      assert ids == Ids(head) + Ids(tail);
      assert id in ids <==> id in Ids(head) || id in Ids(tail);
      if Listed(g, order[0]) {
        assert Ids(head) == [order[0]];
      } else {
        assert Ids(head) == [];
      }
      assert order == [order[0]] + order[1..];
      assert id in order <==> id == order[0] || id in order[1..];
    }
  }

  /** Rows distributes over concatenation of the order. */
  lemma {:induction false} RowsAppend(g: GameState, a: seq<Uuid>, b: seq<Uuid>)
    ensures Rows(g, a + b) == Rows(g, a) + Rows(g, b)
    decreases |a|
  {
    if a == [] {
      assert a + b == b;
    } else {
      var ab := a + b;
      assert ab[0] == a[0] && ab[1..] == a[1..] + b;
      RowsAppend(g, a[1..], b);
      var head := if Listed(g, a[0]) then [RowFor(g, a[0])] else [];
      calc {
        Rows(g, ab);
        head + Rows(g, ab[1..]);
        head + (Rows(g, a[1..]) + Rows(g, b));
        (head + Rows(g, a[1..])) + Rows(g, b);
        Rows(g, a) + Rows(g, b);
      }
    }
  }

  /** `xs` can be obtained from `ys` by deleting elements. */
  predicate SubsequenceOf(xs: seq<Uuid>, ys: seq<Uuid>)
    decreases |ys|
  {
    if xs == [] then true
    else if ys == [] then false
    else if xs[0] == ys[0] then SubsequenceOf(xs[1..], ys[1..])
    else SubsequenceOf(xs, ys[1..])
  }

  /** The rows keep the relative order of the join order. */
  lemma {:induction false} RowsFollowOrder(g: GameState, order: seq<Uuid>)
    ensures SubsequenceOf(Ids(Rows(g, order)), order)
    decreases |order|
  {
    if order != [] {
      RowsFollowOrder(g, order[1..]);
      var tail := Ids(Rows(g, order[1..]));
      if Listed(g, order[0]) {
        assert Ids(Rows(g, order)) == [order[0]] + tail;
        assert Ids(Rows(g, order))[1..] == tail;
      } else {
        assert Ids(Rows(g, order)) == tail;
        SkipHead(tail, order);
      }
    }
  }

  /** Dropping the first element of `ys` keeps `xs` a subsequence. */
  lemma {:induction false} SkipHead(xs: seq<Uuid>, ys: seq<Uuid>)
    requires ys != [] && SubsequenceOf(xs, ys[1..])
    ensures SubsequenceOf(xs, ys)
    decreases |ys|, 0
  {
    if xs != [] && xs[0] == ys[0] {
      SubsequenceTail(xs, ys[1..]);
    }
  }

  /** Dropping the first element of `xs` keeps it a subsequence. */
  lemma {:induction false} SubsequenceTail(xs: seq<Uuid>, ys: seq<Uuid>)
    requires xs != [] && SubsequenceOf(xs, ys)
    ensures SubsequenceOf(xs[1..], ys)
    decreases |ys|, 1
  {
    if xs[0] == ys[0] {
      SkipHead(xs[1..], ys);
    } else {
      SubsequenceTail(xs, ys[1..]);
      SkipHead(xs[1..], ys);
    }
  }

  /** When every id of the order is listed, the rows are the order itself. */
  lemma {:induction false} RowsAllListed(g: GameState, order: seq<Uuid>)
    requires forall i :: 0 <= i < |order| ==> Listed(g, order[i])
    ensures Ids(Rows(g, order)) == order
    decreases |order|
  {
    if order != [] {
      RowsAllListed(g, order[1..]);
      assert Rows(g, order) == [RowFor(g, order[0])] + Rows(g, order[1..]);
    }
  }

  /** A participant whose name is HOST never gets a row, whatever its kind:
      the host, and also a player who chose that name. */
  lemma NamedHostHidden(g: GameState, id: Uuid)
    requires id in g.players && g.players[id].Name() == HOST
    ensures forall i :: 0 <= i < |PlayersData(Some(g))| ==> PlayersData(Some(g))[i].id != id
  {
  }

  /** Every row belongs to a player, never to the host. */
  lemma RowsArePlayers(g: GameState)
    ensures forall i :: 0 <= i < |PlayersData(Some(g))| ==>
      g.players[PlayersData(Some(g))[i].id].Player?
  {
  }

  /** The names of the "Buzzed" list, in queue order. */
  function BuzzedNames(state: Option<GameState>): (names: seq<string>)
    ensures state.None? ==> names == []
    ensures state.Some? ==> NamesOf(state.value.buzzerOrder) == names
  {
    match state
    case None => []
    case Some(g) => NamesOf(g.buzzerOrder)
  }

  function NamesOf(order: seq<(Uuid, string)>): (names: seq<string>)
    ensures |names| == |order|
    ensures forall i :: 0 <= i < |order| ==> names[i] == order[i].1
    decreases |order|
  {
    if order == [] then []
    else NamesOf(order[..|order| - 1]) + [order[|order| - 1].1]
  }

  /** The lock control the host sees. */
  datatype LockControl = LockButton | UnlockButton

  function ShownLockControl(g: GameState): (c: LockControl)
    ensures c == UnlockButton <==> g.globallyLocked
    ensures c == LockButton <==> !g.globallyLocked
  {
    if g.globallyLocked then UnlockButton else LockButton
  }

  /** The three host controls. */
  datatype Control = LockControlPressed | UnlockControlPressed | ClearPressed

  /** `on_lock`, `on_unlock` and `on_clear`: the message sent, if any; there
      is none while the game code is unknown. */
  function ControlMessage(gameCode: Option<nat>, control: Control): (msg: Option<ClientToServer>)
    ensures msg.None? <==> gameCode.None?
    ensures msg.Some? ==> !msg.value.CreateGame? && msg.value.gameCode == gameCode.value
    ensures msg.Some? ==> (msg.value.Lock? <==> control == LockControlPressed)
    ensures msg.Some? ==> (msg.value.Unlock? <==> control == UnlockControlPressed)
    ensures msg.Some? ==> (msg.value.Clear? <==> control == ClearPressed)
  {
    match gameCode
    case None => None
    case Some(code) =>
      Some(match control
           case LockControlPressed => Lock(code)
           case UnlockControlPressed => Unlock(code)
           case ClearPressed => Clear(code))
  }

  /** The delta after the increment input is edited: a text that parses as an
      i32 is stored raised to at least 1; any other text leaves it. */
  function DeltaAfterInput(delta: i32, text: string): (r: i32)
    requires delta >= 1
    ensures r >= 1
    ensures ParseI32(text).None? ==> r == delta
    ensures ParseI32(text).Some? ==> r as int == if ParseI32(text).value < 1 then 1 else ParseI32(text).value
  {
    match ParseI32(text)
    case None => delta
    case Some(v) => if v < 1 then 1 else v as i32
  }

  /** The UpdateScore a score button sends: +delta for "+", -delta for "-";
      nothing while the game code is unknown. */
  function ScoreMessage(gameCode: Option<nat>, playerId: Uuid, delta: i32, plus: bool): (msg: Option<ClientToServer>)
    requires delta >= 1
    ensures msg.None? <==> gameCode.None?
    ensures msg.Some? ==> (msg.value.UpdateScore? && msg.value.gameCode == gameCode.value
                           && msg.value.playerId == playerId)
    ensures msg.Some? ==> msg.value.delta as int == if plus then delta as int else -(delta as int)
    ensures msg.Some? ==> (msg.value.delta > 0 <==> plus)
  {
    match gameCode
    case None => None
    case Some(code) => Some(UpdateScore(code, playerId, if plus then delta else -delta))
  }

  /** The host's own view state: the score increment of the settings menu. */
  class HostContext {
    var scoreDelta: i32

    ghost predicate Valid()
      reads this
    {
      scoreDelta >= 1
    }

    constructor ()
      ensures Valid() && scoreDelta == 10
    {
      scoreDelta := 10;
    }

    /** The `oninput` handler of the increment field. */
    method OnDeltaInput(text: string)
      requires Valid()
      modifies this
      ensures Valid()
      ensures scoreDelta == DeltaAfterInput(old(scoreDelta), text)
    {
      var parsed := ParseI32(text);
      if parsed.Some? {
        var v := parsed.value;
        scoreDelta := if v < 1 then 1 else v as i32;
      }
    }

    /** The click handler of "+" (`plus`) or "-" on the row of `playerId`. */
    method OnScoreClick(gameCode: Option<nat>, playerId: Uuid, plus: bool) returns (msg: Option<ClientToServer>)
      requires Valid()
      ensures msg == ScoreMessage(gameCode, playerId, scoreDelta, plus)
    {
      msg := None;
      if gameCode.Some? {
        var delta := scoreDelta;
        if !plus {
          delta := -delta;
        }
        msg := Some(UpdateScore(gameCode.value, playerId, delta));
      }
    }
  }
}
