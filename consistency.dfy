/**
 * How the client screens read the states the server builds: the facts that
 * hold when the frontend of frontend/src is fed the game states of the
 * session server of server/src/main.rs.
 */
module Consistency {
  import opened Protocol
  import opened Text
  import Server
  import HostView
  import PlayerView
  import App

  /** A freshly created game lists no player on the host's screen. */
  lemma NewGameListsNobody(host: Uuid)
    ensures HostView.PlayersData(Some(Server.NewGame(host))) == []
  {
    var g := Server.NewGame(host);
    assert g.playerJoinOrder[1..] == [];
  }

  /** The rows over `order` only read the entries of the ids in it. */
  lemma {:induction false} RowsAgree(g1: GameState, g2: GameState, order: seq<Uuid>)
    requires forall i :: 0 <= i < |order| ==>
      (order[i] in g1.players <==> order[i] in g2.players)
      && (order[i] in g1.players ==> g1.players[order[i]] == g2.players[order[i]])
      && HostView.ScoreOf(g1, order[i]) == HostView.ScoreOf(g2, order[i])
    ensures HostView.Rows(g1, order) == HostView.Rows(g2, order)
    decreases |order|
  {
    if order != [] {
      RowsAgree(g1, g2, order[1..]);
    }
  }

  /** A successful join adds exactly one row, at the bottom, with score 0. */
  lemma JoinAppendsHostRow(g: GameState, sender: Uuid, name: string)
    requires Server.WellFormed(g) && sender !in g.players && name != HOST
    ensures HostView.PlayersData(Some(Server.Joined(g, sender, name)))
         == HostView.PlayersData(Some(g)) + [HostView.PlayerRow(sender, name, 0)]
  {
    var j := Server.Joined(g, sender, name);
    var order := g.playerJoinOrder;
    HostView.RowsAppend(j, order, [sender]);
    RowsAgree(g, j, order);
    assert [sender][1..] == [];
  }

  /** A JoinGame from an id already in the join order, such as the host
      joining its own game, pushes the id a second time, so the host's list
      shows that participant at least twice (under a name other than HOST). */
  lemma RejoinListedTwice(g: GameState, sender: Uuid, name: string)
    requires sender in g.playerJoinOrder && name != HOST
    ensures multiset(HostView.Ids(HostView.PlayersData(Some(Server.Joined(g, sender, name)))))[sender] >= 2
  {
    var j := Server.Joined(g, sender, name);
    var order := g.playerJoinOrder;
    var row := HostView.PlayerRow(sender, name, 0);
    HostView.RowsAppend(j, order, [sender]);
    assert [sender][1..] == [];
    var first := HostView.Rows(j, order);
    assert HostView.Rows(j, order + [sender]) == first + [row];
    HostView.RowsMembership(j, order, sender);
    var ids := HostView.Ids(first + [row]);
    assert ids == HostView.Ids(first) + [sender];
    assert multiset(ids) == multiset(HostView.Ids(first)) + multiset{sender};
  }

  /** The host who joins its own fresh game sees itself twice: at the top,
      where its id already stood, and at the bottom. */
  lemma HostRejoinsOwnGame(host: Uuid, name: string)
    requires name != HOST
    ensures HostView.PlayersData(Some(Server.Joined(Server.NewGame(host), host, name)))
         == [HostView.PlayerRow(host, name, 0), HostView.PlayerRow(host, name, 0)]
  {
    var j := Server.Joined(Server.NewGame(host), host, name);
    var order := j.playerJoinOrder;
    var row := HostView.PlayerRow(host, name, 0);
    assert order == [host, host];
    assert j.players[host].Name() == name && HostView.Listed(j, host);
    assert HostView.RowFor(j, host) == row;
    assert order[1..] == [host] && order[1..][1..] == [];
    assert HostView.Rows(j, order[1..]) == [row] + HostView.Rows(j, []);
    assert HostView.Rows(j, order) == [row] + HostView.Rows(j, order[1..]);
  }

  /** A JoinGame under the name HOST hides the joiner from the host's list
      altogether, whether it is the host itself or a listed player. */
  lemma JoinAsHostHidden(g: GameState, sender: Uuid)
    ensures sender !in HostView.Ids(HostView.PlayersData(Some(Server.Joined(g, sender, HOST))))
  {
    var j := Server.Joined(g, sender, HOST);
    HostView.NamedHostHidden(j, sender);
  }

  /** The rows of a list other than those of `id`, in their order. */
  function RowsWithout(rows: seq<HostView.PlayerRow>, id: Uuid): (r: seq<HostView.PlayerRow>)
    ensures |r| <= |rows|
    ensures forall i :: 0 <= i < |r| ==> r[i].id != id
    decreases |rows|
  {
    if rows == [] then []
    else (if rows[0].id == id then [] else [rows[0]]) + RowsWithout(rows[1..], id)
  }

  /** Filtering a short head and then the rest. */
  lemma RowsWithoutHead(head: seq<HostView.PlayerRow>, tail: seq<HostView.PlayerRow>, id: Uuid)
    requires |head| <= 1
    ensures RowsWithout(head + tail, id)
         == (if head == [] || head[0].id == id then [] else head) + RowsWithout(tail, id)
  {
    if head == [] {
      assert head + tail == tail;
    } else {
      assert (head + tail)[0] == head[0] && (head + tail)[1..] == tail;
    }
  }

  /** An id other than the removed one gets the same row, if any, in the
      cleaned-up game as before. */
  lemma RemovedRowsStep(g: GameState, id: Uuid, o: Uuid, rest: seq<Uuid>)
    requires o != id
    ensures HostView.Rows(Server.Removed(g, id), [o] + rest)
         == (if HostView.Listed(g, o) then [HostView.RowFor(g, o)] else [])
            + HostView.Rows(Server.Removed(g, id), rest)
  {
    var r := Server.Removed(g, id);
    var w := [o] + rest;
    assert w[0] == o && w[1..] == rest;
    assert HostView.Listed(r, o) == HostView.Listed(g, o);
    assert HostView.Listed(g, o) ==> HostView.RowFor(r, o) == HostView.RowFor(g, o);
  }

  /** Over any order, the rows of the cleaned-up game are the old rows minus
      those of `id`. */
  lemma {:induction false} RemovedRows(g: GameState, id: Uuid, order: seq<Uuid>)
    ensures HostView.Rows(Server.Removed(g, id), Server.Without(order, id))
         == RowsWithout(HostView.Rows(g, order), id)
    decreases |order|
  {
    if order != [] {
      var r := Server.Removed(g, id);
      var o := order[0];
      var head := if HostView.Listed(g, o) then [HostView.RowFor(g, o)] else [];
      var tail := HostView.Rows(g, order[1..]);
      var rest := Server.Without(order[1..], id);
      assert HostView.Rows(g, order) == head + tail;
      if o == id {
        calc {
          HostView.Rows(r, Server.Without(order, id));
          { assert Server.Without(order, id) == rest; }
          HostView.Rows(r, rest);
          { RemovedRows(g, id, order[1..]); }
          RowsWithout(tail, id);
          { RowsWithoutHead(head, tail, id); }
          RowsWithout(head + tail, id);
        }
      } else {
        calc {
          HostView.Rows(r, Server.Without(order, id));
          { assert Server.Without(order, id) == [o] + rest; }
          HostView.Rows(r, [o] + rest);
          { RemovedRowsStep(g, id, o, rest); }
          head + HostView.Rows(r, rest);
          { RemovedRows(g, id, order[1..]); }
          head + RowsWithout(tail, id);
          { RowsWithoutHead(head, tail, id); }
          RowsWithout(head + tail, id);
        }
      }
    }
  }

  /** When a player disconnects, the host's list loses exactly the rows of
      that player, and every other row stays, in the same order. */
  lemma RemovedDropsHostRow(g: GameState, id: Uuid)
    ensures HostView.PlayersData(Some(Server.Removed(g, id)))
         == RowsWithout(HostView.PlayersData(Some(g)), id)
  {
    RemovedRows(g, id, g.playerJoinOrder);
  }

  /** Scores shown to the host are never negative. */
  lemma ViewScoresNonNegative(g: GameState)
    requires Server.WellFormed(g)
    ensures forall i :: 0 <= i < |HostView.PlayersData(Some(g))| ==> HostView.PlayersData(Some(g))[i].score >= 0
  {
  }

  /** In a well-formed game every player has a row, and only players do. */
  lemma EveryPlayerListed(g: GameState, id: Uuid)
    requires Server.WellFormed(g)
    ensures id in HostView.Ids(HostView.PlayersData(Some(g)))
        <==> id in g.players && g.players[id].Name() != HOST
  {
    HostView.RowsMembership(g, g.playerJoinOrder, id);
  }

  /** An accepted buzz (the game `Server.Buzzed` stores) puts the buzzer's
      name at the bottom of the host's "Buzzed" list and locks the buzzer of
      that player. */
  lemma BuzzShowsOnBothScreens(g: GameState, id: Uuid, code: nat)
    requires id in g.players
    ensures var after := Server.BuzzedGame(g, id);
      && HostView.BuzzedNames(Some(after)) == HostView.BuzzedNames(Some(g)) + [g.players[id].Name()]
      && PlayerView.PlayerScreen(Some(after), Some(id), Some(code)) == PlayerView.Shown(Some(code), true, "Locked")
  {
    var name := g.players[id].Name();
    var after := Server.BuzzedGame(g, id);
    PlayerView.OwnBuzzLocks(g, id, name, code);
    assert after.buzzerOrder[..|after.buzzerOrder| - 1] == g.buzzerOrder;
  }

  /** The host's lock control always sends the message that flips the lock:
      once the server's handler stores the game `Server.LockSet` gives (Lock
      sets the lock, Unlock clears it), the other control is shown. */
  lemma LockControlFlips(g: GameState, code: nat)
    ensures var control := if HostView.ShownLockControl(g) == HostView.LockButton
                           then HostView.LockControlPressed else HostView.UnlockControlPressed;
      var msg := HostView.ControlMessage(Some(code), control).value;
      var after := Server.LockedGame(g, msg.Lock?);
      HostView.ShownLockControl(after) != HostView.ShownLockControl(g)
  {
  }

  /** After the host's Clear of an unlocked game every player may buzz again. */
  lemma ClearReopensBuzzers(g: GameState, myId: Option<Uuid>, code: nat)
    requires !g.globallyLocked
    ensures PlayerView.PlayerScreen(Some(g.(buzzerOrder := [])), myId, Some(code))
         == PlayerView.Shown(Some(code), false, "BUZZ!")
  {
    PlayerView.ClearedUnlocks(g, myId);
  }

  /** "+" then "-" with the same increment restores a score the host sees. */
  lemma PlusMinusRestores(code: nat, player: Uuid, score: i32, delta: i32)
    requires score >= 0 && delta >= 1 && score as int + delta as int < 0x8000_0000
    ensures var plus := HostView.ScoreMessage(Some(code), player, delta, true).value.delta;
      var minus := HostView.ScoreMessage(Some(code), player, delta, false).value.delta;
      Server.ClampedScore(Server.ClampedScore(score, plus), minus) == score
  {
    Server.PlusThenMinus(score, delta);
  }

  /** The client that created a game takes the host's screen. */
  lemma CreatorSeesHostScreen(c: App.Ctx, code: nat, id: Uuid)
    ensures App.Room(App.Step(c, Some(GameCreated(code, id, Server.NewGame(id))))).1 == App.HostScreen
  {
  }

  /** A client that joined someone else's game takes the player's screen. */
  lemma JoinerSeesPlayerScreen(c: App.Ctx, g: GameState, id: Uuid, name: string)
    requires id != g.hostId
    ensures var joined := GameJoined(id, name, Server.Joined(g, id, name));
      App.Room(App.Step(c, Some(joined))).1 == App.PlayerScreen
  {
  }

  /** The buzzer of a client that joined through the form never panics: the
      code is stored before JoinGame is sent, so the state that comes back
      always finds it. */
  lemma JoinedClientNeverCrashes(c: App.Ctx, joinCode: string, name: string,
                                 id: Uuid, g: GameState)
    requires App.JoinSubmission(joinCode, name).Some?
    ensures var submitted := c.(gameCode := Some(App.JoinSubmission(joinCode, name).value.gameCode));
      var d := App.Step(submitted, Some(GameJoined(id, name, g)));
      && !PlayerView.PlayerScreen(d.gameState, d.playerId, d.gameCode).Panic?
      && !PlayerView.OnBuzz(d.playerId, d.gameCode).Crash?
  {
  }
}
