# Buzzer: a Dafny model of the session server and its browser client

The buzzer is a quiz game.
A host creates a game identified by a five-digit code.
Players join it under a display name and press a buzzer.
The host sees who buzzed, in order, and keeps scores.
The server holds every game in memory and pushes the whole game state to every participant after each change.

This project models:

- **`Server`** (`server.dfy`): the session server.
  The class `AppState` holds the registry of games (`games`, code to game state), the set of connected ids (`connections`), and an `outbox`.
  The outbox is the sequence of (recipient, message) pairs the per-connection channels would carry.
  There is one method per client event: CreateGame, JoinGame, Buzz, Lock/Unlock, Clear, UpdateScore.
  It also has the dispatcher `HandleC2sMessage`, the code generator, `send_to_player`, the broadcast, and the cleanup run when a connection ends.
  Each handler is specified by a two-state predicate that gives the new `games` and `outbox` in terms of the old ones.
  Every handler keeps `Valid()`: every code is in range, and every game is `WellFormed`.
  `WellFormed` means actor ids match their keys, only the host id holds a Host actor, the join order and the players agree, every player has a score, and no score is negative.
- **`Protocol`** (`protocol.dfy`): the game state the server builds, the `Actor` variant, and the two message enums.
- **`Common`** (`common.dfy`): the older four-field `GameState` / `GameStateJson` pair and its field-copy conversions.
- **`Text`** (`text.dfy`): the standard-library string operations the code relies on.
  These are `trim`, the byte length of a `String`, the decimal rendering of a code, and `parse::<usize>` / `parse::<i32>`.
- **`HostView`** (`host_view.dfy`): the host's screen.
  It covers the player/score list, the "Buzzed" list, the lock control, and the score increment (the class `HostContext`) with its "+"/"−" messages.
- **`PlayerView`** (`player_view.dfy`): a player's screen.
  It covers whether the buzzer is locked for this player, its text, and what a click sends.
- **`App`** (`app.dfy`): the client's shared context.
  It covers the reducer that applies each server message (the class `AppContext`, its `HandleMessage`, and the receive loop `Listen`), the join form, and the host/player decision of the game page.
- **`Consistency`** (`consistency.dfy`): facts about the client screens when they are fed the states the server builds.

Ids are modelled as `nat`, because only equality is used.
Names are `string`; their length limit is counted in UTF-8 bytes, as `String::len` does.
Scores and deltas are a 32-bit `i32` newtype.

The model follows the code, including where it does less than a buzzer game might be expected to:

- JoinGame does not reject a duplicate name.
- Buzz does not stop a player from buzzing twice before a Clear.
- Buzz trusts the `player_id` in the message, not the sender.
- The disconnect cleanup removes the id from `players` and from the join order of one game only.
  It keeps the `scores` entry.
  It never removes a game, even when the host leaves.
  After the host leaves, `host_id` is no longer a key of `players`, so `WellFormed` does not demand that.
- A host who sends JoinGame to its own game replaces its Host actor with a Player.
  Its id is then pushed onto the join order a second time.
  Under any name other than HOST, the host's list then shows it twice, at the top and at the bottom (`Consistency.HostRejoinsOwnGame`).
  The same holds for any id that joins a game it is already in, under any name other than HOST (`Consistency.RejoinListedTwice`).
  Under the name HOST, the joiner gets no row at all, and a player who was listed disappears from the list (`Consistency.JoinAsHostHidden`, `HostView.NamedHostHidden`).
- The host's list filters participants by `name() != HOST`, not by the variant.
  A player whose chosen name equals HOST is hidden too (`HostView.NamedHostHidden`).

## Model

| member | source | states |
|---|---|---|
| `Text.Trim` | server/src/main.rs:149 | the trimmed name is no longer than the input and neither starts nor ends with a White_Space character |
| `Text.TrimIsTrimOf` | server/src/main.rs:149 | trim removes only whitespace, and only at the two ends |
| `Text.TrimUnique` | server/src/main.rs:149 | any split of the input into whitespace, a core with non-whitespace ends, and whitespace yields exactly that core |
| `Text.TrimIdempotent` | server/src/main.rs:149 | trimming a trimmed name changes nothing |
| `Text.TrimEmptyIffWhitespace` | server/src/main.rs:149-151 | a name trims to empty exactly when it is all whitespace |
| `Text.Utf8Len` | server/src/main.rs:151 | the byte length lies between the character count and four times it, and equals the count exactly for ASCII |
| `Text.NatToString` | server/src/main.rs:178 | the rendering of a code is non-empty decimal digits without a leading zero |
| `Text.DigitsValueOfNatToString` | server/src/main.rs:178 | reading back the digits of a rendering gives the number |
| `Text.ParseUsize` | frontend/src/main.rs:218 | a parsed code fits a 32-bit usize and comes from a text that is neither empty nor a bare '+' |
| `Text.ParseUsizeNatToString` | frontend/src/main.rs:218 | every usize parses back from its own rendering |
| `Text.ParseI32` | frontend/src/host.rs:267 | a parsed increment lies in the i32 range and comes from a text with at least one digit |
| `Text.ParseI32NatToString` | frontend/src/host.rs:267 | every i32, with or without a minus sign, parses back from its rendering |
| `Protocol.Actor.Name` | frontend/src/host.rs:60-64 | the name of the host is HOST; the name of a player is the name it joined with |
| `Common.Default` | common/src/lib.rs:15-21 | the default snapshot is unlocked, with no buzzes, no players and the nil host id |
| `Common.ToJson` | common/src/lib.rs:32-39 | the buzz list goes into `buzzer_winner` with its order and multiplicities; host, lock and players are copied unchanged |
| `Common.FromJson` | common/src/lib.rs:43-50 | `buzzer_winner` goes back into `buzzer_order` unchanged, as do host, lock and players |
| `Common.FromJsonToJson` | common/src/lib.rs:31-51 | converting a snapshot to JSON form and back gives the same snapshot |
| `Common.ToJsonFromJson` | common/src/lib.rs:31-51 | converting a JSON form to a snapshot and back gives the same JSON form |
| `Common.ToJsonInjective` | common/src/lib.rs:31-51 | distinct snapshots never share a JSON form |
| `Server.ValidName` | server/src/main.rs:151 | an accepted name has 1 to 12 characters; the bound is on UTF-8 bytes, so it is exactly 1 to 12 characters only for an all-ASCII name |
| `Server.NewGame` | server/src/main.rs:122-132 | a new game is well formed, has the sender as its host and only participant, first in the join order, and starts unlocked with no buzzes and no scores |
| `Server.Joined` | server/src/main.rs:159-168 | (definition) the player is inserted under its id with the trimmed name, its score set to 0, and its id pushed at the end of the join order |
| `Server.JoinedWellFormed` | server/src/main.rs:159-168 | inserting the player, its 0 score and its place in the join order keeps a game well formed |
| `Server.Without` | server/src/main.rs:109 | `retain` keeps exactly the ids different from the removed one, and never lengthens the list |
| `Server.WithoutMultiset` | server/src/main.rs:109 | every copy of the removed id goes, and every other id keeps its number of occurrences |
| `Server.WithoutAbsent` | server/src/main.rs:109 | removing an id that does not occur changes nothing |
| `Server.WithoutSingle` | server/src/main.rs:109 | a one-element list is kept exactly when its element differs from the removed id |
| `Server.WithoutAppend` | server/src/main.rs:109 | `retain` keeps the order: filtering a concatenation is concatenating the filtered parts |
| `Server.Removed` | server/src/main.rs:105-109 | the cleanup drops the id from the players and from every place of the join order, where the other ids keep their occurrences; the other players' entries, the scores, the buzz queue, the host and the lock stay as they were |
| `Server.BuzzedGame` | server/src/main.rs:189-196 | (definition) the buzzer's entry, with the name the game holds for it, is pushed at the back of the queue; nothing else changes |
| `Server.LockedGame` | server/src/main.rs:211 | (definition) the lock is set to true for Lock and false for Unlock; nothing else changes |
| `Server.RemovedWellFormed` | server/src/main.rs:105-113 | the disconnect cleanup keeps a game well formed |
| `Server.ClampedScore` | server/src/main.rs:232-233 | the new score is never negative; it is the sum when the sum is not negative, and 0 otherwise |
| `Server.PlusThenMinus` | server/src/main.rs:233 | adding a positive delta and then subtracting it restores the score |
| `Server.MinusThenPlus` | server/src/main.rs:233 | subtracting then adding a delta never lowers the score, and restores it exactly when the score was at least the delta |
| `Server.TenThenMinusFifteen` | server/src/main.rs:233 | from 0, +10 and then −15 ends at 0 |
| `Server.FirstFreeIndex` | server/src/main.rs:267-272 | the retry loop stops at the first draw that is not a used code |
| `Server.FirstFreeCode` | server/src/main.rs:266-274 | the chosen code is one of the draws and not a used code |
| `Server.CreateAddsOneGame` | server/src/main.rs:141 | CreateGame's insertion adds exactly one code and leaves every other game as it was |
| `Server.AppState.constructor` | server/src/main.rs:28-34 | the server starts with no games, no connections and nothing sent |
| `Server.AppState.Connect` | server/src/main.rs:66-72 | a new connection registers exactly its id |
| `Server.AppState.SendToPlayer` | server/src/main.rs:246-253 | a message is queued for a connected id, and sending to an id with no connection does nothing |
| `Server.AppState.BroadcastStateUpdate` | server/src/main.rs:256-264 | exactly one GameStateUpdate of the game goes to each connected participant of the game, and nothing else is sent |
| `Server.AppState.GenerateGameCode` | server/src/main.rs:266-274 | the code is in the half-open range 10000..99999, is not in use, and is the first unused draw |
| `Server.AppState.CreateGame` | server/src/main.rs:118-143 | one new game under the chosen code, with the sender as host, unlocked, with no buzzes and no scores, and the sender alone in players and join order; only the sender gets GameCreated; other games are untouched |
| `Server.AppState.JoinGame` | server/src/main.rs:144-182 | an empty or over-12-byte trimmed name, or an unknown code, sends one Error to the sender and changes nothing; otherwise the player is added with score 0 at the end of the join order, the sender gets GameJoined, and then every participant gets the new state |
| `Server.AppState.Buzz` | server/src/main.rs:183-206 | a locked game, an unknown code or an unknown player changes nothing and sends nothing; otherwise the entry is appended at the back of the queue, the host gets PlayerBuzzed, and the state is broadcast |
| `Server.AppState.LockOrUnlock` | server/src/main.rs:207-215 | only the host's Lock/Unlock sets the lock to true/false and broadcasts; anyone else changes and sends nothing |
| `Server.AppState.Clear` | server/src/main.rs:216-224 | only the host's Clear empties the buzz queue, keeping every other field, and broadcasts; anyone else changes and sends nothing |
| `Server.AppState.UpdateScore` | server/src/main.rs:225-241 | only the host's update sets that one score to max(0, old + delta), with old 0 when absent, and broadcasts; anyone else changes and sends nothing |
| `Server.AppState.HandleC2sMessage` | server/src/main.rs:116-243 | each client event has exactly the effect of its handler |
| `Server.AppState.Disconnect` | server/src/main.rs:105-113 | the connection goes; the id leaves players and join order of exactly one game containing it, which is then broadcast; or nothing else changes when no game contains it |
| `Server.ScenarioOpen` | server/src/main.rs:66-72 | a host (id 1) and a player (id 2) connect to an empty server |
| `Server.ScenarioCreate` | server/src/main.rs:118-143 | the host's CreateGame with the draw 12345 creates game 12345 |
| `Server.TrimmedAnn` | server/src/main.rs:149-151 | the typed name " Ann " trims to the valid name "Ann" |
| `Server.ScenarioJoin` | server/src/main.rs:144-175 | after " Ann " joins game 12345, it is the game with host 1 and the player "Ann" (id 2), join order [1, 2] and Ann's score 0 |
| `Server.ScenarioBuzz` | server/src/main.rs:183-206 | Ann's buzz makes the queue [(2, "Ann")], and the first message sent is PlayerBuzzed to the host |
| `Server.ScenarioScore` | server/src/main.rs:225-241 | the host's +10 and then −15 leave Ann at 0, not −5 |
| `Server.ScenarioForeignClear` | server/src/main.rs:216-224 | Ann's own Clear changes no game and sends nothing |
| `Server.ScenarioHostClear` | server/src/main.rs:216-224 | the host's Clear empties the queue |
| `Server.ScenarioLeave` | server/src/main.rs:105-113 | after Ann disconnects, she is gone from the players and the join order is [1], while her score entry stays and the game remains |
| `Server.AnnLeaves` | server/src/main.rs:107-109 | the cleanup of Ann's game leaves join order [1] and keeps her score entry |
| `HostView.RowFor` | frontend/src/host.rs:61-67 | a row carries the id, the participant's name, and the stored score or 0 |
| `HostView.Rows` | frontend/src/host.rs:53-68 | every row is of a participant that is listed, with its own name and score |
| `HostView.PlayersData` | frontend/src/host.rs:51-71 | without a game state the list is empty; otherwise it is the rows over the join order |
| `HostView.RowsMembership` | frontend/src/host.rs:53-60 | an id has a row exactly when it is in the join order, has an entry in players and its name is not HOST |
| `HostView.RowsAppend` | frontend/src/host.rs:53-68 | the list over a concatenated join order is the concatenation of the lists |
| `HostView.RowsFollowOrder` | frontend/src/host.rs:53-54 | the rows keep the relative order of the join order |
| `HostView.RowsAllListed` | frontend/src/host.rs:53-68 | when every id of the join order is listed, the rows are the join order itself |
| `HostView.NamedHostHidden` | frontend/src/host.rs:60 | a participant named HOST, the host or a player, never gets a row |
| `HostView.RowsArePlayers` | frontend/src/host.rs:60 | every row belongs to a Player, never to the Host |
| `HostView.BuzzedNames` | frontend/src/host.rs:178-198 | the "Buzzed" list is empty without a state and otherwise lists the names of the buzz queue in queue order |
| `HostView.NamesOf` | frontend/src/host.rs:183-194 | one name per queue entry, at the same position |
| `HostView.ShownLockControl` | frontend/src/host.rs:95-99 | the Unlock button is shown exactly when the game is locked, and the Lock button exactly when it is not |
| `HostView.ControlMessage` | frontend/src/host.rs:28-48 | Lock/Unlock/Clear each send their own message for the stored code, and nothing while no code is stored |
| `HostView.DeltaAfterInput` | frontend/src/host.rs:266-268 | an input that parses is stored raised to at least 1; any other input leaves the increment unchanged, so it stays at least 1 |
| `HostView.ScoreMessage` | frontend/src/host.rs:143-166 | "+" sends UpdateScore with +delta and "−" with −delta for that player and code; nothing without a code |
| `HostView.HostContext.constructor` | frontend/src/host.rs:19 | the increment starts at 10 |
| `HostView.HostContext.OnDeltaInput` | frontend/src/host.rs:266-268 | the handler stores the clamped increment and keeps it at least 1 |
| `HostView.HostContext.OnScoreClick` | frontend/src/host.rs:143-166 | a click sends the score message for the current increment |
| `PlayerView.HasEntry` | frontend/src/player.rs:25-27 | the `any` is true exactly when some queue entry carries the id |
| `PlayerView.IHaveBuzzed` | frontend/src/player.rs:24-28 | true exactly when the player's id is known and some queue entry carries it |
| `PlayerView.BuzzerLocked` | frontend/src/player.rs:29 | the buzzer is locked exactly when the game is locked, or the player's id is known and in the buzz queue |
| `PlayerView.PlayerScreen` | frontend/src/player.rs:22-58 | without a state the button is disabled and shows "Loading..."; otherwise it is disabled exactly when the game is locked or this player has buzzed, and shows "Locked" when disabled and "BUZZ!" when not; a state without a stored code panics |
| `PlayerView.OnBuzz` | frontend/src/player.rs:11-20 | nothing is sent while the id is unknown; otherwise the Buzz carries this player's id and the stored code, or panics without a code |
| `PlayerView.OwnBuzzLocks` | frontend/src/player.rs:24-30 | once the player's own entry is queued, its button shows "Locked" and is disabled |
| `PlayerView.OthersBuzzKeepsUnlocked` | frontend/src/player.rs:24-28 | another player's entry does not change whether this player has buzzed |
| `PlayerView.ClearedUnlocks` | frontend/src/player.rs:29 | in an unlocked game, emptying the queue unlocks every player's button |
| `App.Step` | frontend/src/main.rs:116-177 | a malformed frame changes nothing; a decoded message clears the error, or sets it for Error; GameCreated stores code, id and state and opens the room; GameJoined stores id, name and state, keeps the code, and opens the room only with a code; GameStateUpdate replaces the state and copies its lock into `locally_locked`; PlayerBuzzed changes no field; `is_host` is never written |
| `App.Consumed` | frontend/src/main.rs:115 | the loop consumes the longest prefix of text frames |
| `App.Run` | frontend/src/main.rs:115-181 | whatever frames arrive, `is_host` is never changed and routes are only pushed, never popped |
| `App.RunIgnoresRest` | frontend/src/main.rs:115 | frames after the first non-text frame have no effect |
| `App.RunAppend` | frontend/src/main.rs:115-181 | processing a batch of text frames and then more frames is one run |
| `App.RunErrorIsLast` | frontend/src/main.rs:119-120 | after the loop the error is that of the last decoded message when it was an Error, none after any other message, and unchanged when nothing was decoded |
| `App.RunGameCodeProvenance` | frontend/src/main.rs:128 | the reducer's game code is either the one it started with or the code of some GameCreated it received |
| `App.StepKeepsCodeWithState` | frontend/src/main.rs:128-154 | once a code is stored, every message keeps a code stored, so a stored state always has a code |
| `App.JoinedWithoutCode` | frontend/src/main.rs:134-146 | a GameJoined that arrives before any code is stored leaves a state without a code |
| `App.JoinSubmission` | frontend/src/main.rs:217-225 | JoinGame is sent, with the name as typed, exactly when the code text parses as a usize |
| `App.DisplayedCodeJoins` | frontend/src/main.rs:218 | typing the decimal rendering of any code up to the usize maximum, which includes every code the server generates, joins that code |
| `App.RoomAsWritten` | frontend/src/main.rs:278-289 | without a state the page pushes Home and then panics; with one it sets `is_host` exactly when the player id is the host id, and shows the host or player view accordingly |
| `App.RoomAsWrittenPanicsOnDirectVisit` | frontend/src/main.rs:284-287 | opening a game page before any message has arrived panics |
| `App.Room` | frontend/src/main.rs:278-289 | never panics: without a state it only redirects Home; with one, the host view is shown exactly when `is_host` is set, exactly when the player id is the host id |
| `App.RoomAgreesWithState` | frontend/src/main.rs:284-289 | with a state present, the corrected page behaves exactly as written |
| `App.AppContext.constructor` | frontend/src/main.rs:83-104 | the context starts with every signal unset and nothing locked |
| `App.AppContext.HandleMessage` | frontend/src/main.rs:116-180 | the in-place writes of one loop turn produce exactly the reducer step |
| `App.AppContext.Listen` | frontend/src/main.rs:115-181 | the loop leaves the context as the run of the reducer over the frames |
| `App.AppContext.OnJoinSubmit` | frontend/src/main.rs:217-225 | the code is stored and JoinGame returned only when the code text parses, and nothing else changes |
| `App.AppContext.EnterGameRoom` | frontend/src/main.rs:278-289 | the page's writes and view are those of the corrected `Room` |
| `Consistency.NewGameListsNobody` | frontend/src/host.rs:52-71 | the host of a new game sees an empty player list |
| `Consistency.RowsAgree` | frontend/src/host.rs:55-65 | the list over a join order depends only on the entries and scores of the ids in it |
| `Consistency.JoinAppendsHostRow` | server/src/main.rs:160-168 | a first join, by an id not yet in the well-formed game and under a name other than HOST, adds exactly one row at the bottom of the host's list, with that name and score 0 |
| `Consistency.RejoinListedTwice` | server/src/main.rs:159-168 | a JoinGame from an id already in the join order, under a name other than HOST, leaves that id at least twice in the host's list |
| `Consistency.HostRejoinsOwnGame` | server/src/main.rs:159-168 | the host who joins its own new game sees two identical rows of itself, with the new name and score 0 |
| `Consistency.JoinAsHostHidden` | frontend/src/host.rs:60 | a JoinGame under the name HOST leaves the joiner without any row in the host's list |
| `Consistency.RemovedRows` | server/src/main.rs:107-109 | over any join order, the cleaned-up game lists the old rows minus those of the removed id, in the same order |
| `Consistency.RemovedDropsHostRow` | server/src/main.rs:105-113 | after a disconnect the host's list is the old list with exactly the rows of that id dropped, and every other row in its place and order |
| `Consistency.ViewScoresNonNegative` | frontend/src/host.rs:65 | the host never sees a negative score in a server-built game |
| `Consistency.EveryPlayerListed` | frontend/src/host.rs:52-71 | in a server-built game, the host's list holds exactly the participants not named HOST |
| `Consistency.BuzzShowsOnBothScreens` | server/src/main.rs:195-196 | the game the Buzz handler stores shows the name at the bottom of the host's "Buzzed" list and locks that player's button |
| `Consistency.LockControlFlips` | frontend/src/host.rs:95-99 | the lock control shown sends the message whose handler stores the opposite lock, after which the other control is shown |
| `Consistency.ClearReopensBuzzers` | frontend/src/player.rs:29-30 | after the host clears an unlocked game, every player's button shows "BUZZ!" and is enabled |
| `Consistency.PlusMinusRestores` | frontend/src/host.rs:143-166 | "+" then "−" with the same increment, for any code and player, restores a score on the server |
| `Consistency.CreatorSeesHostScreen` | frontend/src/main.rs:287-288 | the client that created a game gets the host view |
| `Consistency.JoinerSeesPlayerScreen` | frontend/src/main.rs:287-288 | a client that joined someone else's game gets the player view |
| `Consistency.JoinedClientNeverCrashes` | frontend/src/player.rs:16 | a client that joined through the form has a code stored, so neither its buzzer screen nor its buzz panics |

## Left out

- The transport and the runtime are not modelled: tokio tasks, `select!`, the mpsc channels, the axum router, CORS and tracing (server/src/main.rs:38-102). Every send is an append to `outbox`.
- DashMap locking is not modelled. Each handler is one atomic method on plain maps. The map's iteration order is an arbitrary choice, for both the broadcast order and the game the disconnect cleanup finds first.
- The broadcast addresses each participant by its map key, while the code uses the actor's `id()`. The two are equal in every `WellFormed` game.
- Randomness is not modelled. `generate_game_code` reads its draws from a parameter `draws`, and the caller must supply a finite stream that contains a free code. A run that never draws a free code is not modelled.
- serde encoding and decoding, and `Uuid::new_v4`, are not modelled. A frame that fails to decode is `TextFrame(None)`. Messages carry the game state itself: the server's JSON snapshot type is not part of this model.
- Server.AppState.UpdateScore: requires the i32 sum `score + delta` not to overflow. The code would panic or wrap there.
- Server.ClampedScore: requires the same i32 sum not to overflow, for the same reason.
- Server.AppState.HandleC2sMessage: requires the same of an UpdateScore from the host, inherited from `UpdateScore`, and for CreateGame draws that hold a free code, as described for randomness above.
- The value of the `HOST` constant is not part of this model. "Host" is assumed.
- The definition of `Actor::name` is not part of this model. It is modelled from its uses (server/src/main.rs:190, frontend/src/host.rs:60-64): HOST for the host, the chosen name for a player.
- Rendering is not modelled: the markup, the clipboard copy button, the buzzer sound, the settings menu's sound choice, and the PDF upload and viewer (frontend/src/host.rs:201-395).
- `AppContext::send` is not modelled (frontend/src/main.rs:42-65). The handlers return the message they would send.
- The navigator's routing is reduced to the list of pushed routes.
- frontend/src/timer.rs is not part of this model. It is a UI countdown.
- frontend/src/file_viewer.rs is not part of this model. It is entirely commented out.
- The legacy `C2S` / `S2C` enums of common/src/lib.rs:53-73 are not modelled. Nothing in the core uses them.
- The home page's Create Game button is not modelled (frontend/src/main.rs:212-215). It only sends CreateGame.

## Findings

| source | as written | input that shows it | evidently intended | confidence | as-written member | corrected member |
|---|---|---|---|---|---|---|
| frontend/src/main.rs:284-287 | `GameRoom` pushes the Home route when there is no game state, then still runs `.unwrap()` on it | open `/game/12345` directly, before any server message: `game_state` is `None` | redirect Home and render nothing else | not executed | `App.RoomAsWritten` (with `App.RoomAsWrittenPanicsOnDirectVisit`) | `App.Room` (with `App.RoomAgreesWithState`) |
