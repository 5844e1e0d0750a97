# Multiplayer Wordle: server rooms, guess scoring and client input

This project models the core of a two-player Wordle game served over
socket.io. It covers three parts:

- **The guess evaluator (`checkGuess`).** It scores a guess against the secret
  word in two passes over a five-slot result: exact hits first, then
  misplaced letters while the word still has copies of the letter to give.
  `GuessEvaluator.CheckGuess` is that algorithm, over an array and a letter
  table. It is proved to compute the declarative `GuessEvaluator.Score`, and
  the lemmas beside it say what `Score` guarantees.
- **The server.** It keeps four tables: rooms, board contents,
  player-to-socket and pending disconnect timeouts. It also holds, per
  socket, the player id the socket has announced, and the timers it has
  armed. `Session.Server` is a class with those fields. Each `socket.on`
  handler is a method that updates the fields and returns the messages it
  emits, in order, each addressed to one socket, to a room or to everyone.
  - One room's transitions are pure functions over a `Rooms.Room` value:
    joining, rejoining, removal after the grace period, kicking, and the end
    of a round.
  - The server's JavaScript `Map`s keep insertion order. The server depends
    on that order in three places: the room list it broadcasts, the order in
    which `disconnect` visits rooms, and which player a disconnecting socket
    is taken to be. So they are modelled as `OrderedMaps.OMap`: a key
    sequence plus a map.
  - A timer is a slot in `timers`, indexed by its handle:
    - arming appends a slot;
    - `clearTimeout` empties the slot;
    - the timer queue fires one timer by calling `FireTimer` on its handle.
  - Random values appear as parameters:
    - the room id;
    - the random part of a generated player id;
    - the word index.
- **The browser's input state (`public/js/game.js`).** `Client.Game` holds the
  guess being typed, its row, the current room and the owner flag. Key
  presses edit and submit the guess. Socket emits and UI calls are returned
  as effects.

The invariant the server keeps is `Session.Server.Valid`. Every handler
requires it and preserves it:

- the room table is insertion-ordered with distinct keys;
- every room is stored under its own id, has at least one player, has one
  entry per player id, and a running game's word is one of the five words;
- every board belongs to a listed room;
- every remembered timeout handle lies within the timer sequence;
- the player-to-socket table is insertion-ordered with distinct keys.

In the source, some behaviour differs from what one would expect. Each
difference is stated as a lemma:

- **Rejoining bypasses the capacity check.** `joinRoom` with an id already in
  the room rejoins without the capacity check, so a two-player room can end
  up with three connected players (`Rooms.RejoinBypassesCapacity`).
- **A self-kick leaves the room without an owner.** A kick never transfers
  ownership, so an owner who kicks themself leaves a room whose owner is not
  a member (`Rooms.SelfKickLeavesNoOwner`).

Repeated letters are credited once per copy in the word, exact hits first:
PAPER against APPLE scores Misplaced, Misplaced, Correct, Misplaced, Wrong
(`GuessEvaluator.PaperAgainstApple`).

## Model

Some functions transcribe a piece of the source without a contract of their
own. They are named in the rows of the members whose contracts use them:
- `DisconnectTimers` and `GraceFor` in `Session.DisconnectTimersCover`;
- `JoinEvents` and `BoardOf` in `Session.Server.JoinRoom`;
- `KickEvents` in `Session.Server.KickPlayer`;
- `RemovalEvents` in `Session.Server.HandlePlayerRemoval`;
- `Notices` in `Session.Server.Disconnect` and `DisconnectPlayer`;
- `DisplayName` in `Rooms.DisplayNameShape`;
- `StillDisconnected` in `Rooms.FireDecision`;
- `Submits` in `Client.Edited`;
- `MayKick` in `Client.Game.KickPlayer`.

`Client.Keys` (one key press per letter) is a helper for stating the typing
lemmas; it models no line of its own.

| member | source | states |
|---|---|---|
| GuessEvaluator.Score | server.js:32-57 | the result has five slots; a slot is Correct exactly when the guess has the word's letter there; a slot past the end of a short guess is Wrong |
| GuessEvaluator.CheckGuess | server.js:32-57 | the two passes over the result array and the letter-count table compute exactly `Score(guess, word)` |
| GuessEvaluator.PassesStep | server.js:36-54 | each step of either pass changes only the slot it visits; the first pass ends where the second starts, and the second ends at `Score` |
| GuessEvaluator.SecondPassStart | server.js:36-47 | after the first pass, each letter has its copies in the word minus its exact hits left to spend |
| GuessEvaluator.SecondPassVisit | server.js:48-54 | a non-exact slot whose letter still has a copy is marked Misplaced and spends one copy; otherwise the slot and the table are unchanged |
| GuessEvaluator.ExactWithinWord | server.js:36-47 | a letter never has more exact hits than copies in the word, so the first pass never overspends |
| GuessEvaluator.GuessCountSplits | server.js:42-54 | the guess's copies of a letter are its exact hits plus its non-exact occurrences |
| GuessEvaluator.MarksOnPrefix | server.js:42-54 | among the first n slots, a letter is credited on its exact hits plus as many non-exact occurrences as it has spare copies |
| GuessEvaluator.ScoreCreditsCommonCopies | server.js:32-57 | a letter is credited (Correct or Misplaced) exactly min(copies in the guess, copies in the word) times |
| GuessEvaluator.ScoreConservesLetters | server.js:32-57 | a letter is never credited more often than the word contains it |
| GuessEvaluator.WrongMeansExhausted | server.js:48-54 | a guess letter marked Wrong has had all the word's copies of it credited elsewhere |
| GuessEvaluator.LooseGrows | server.js:48-54 | the count of non-exact occurrences never decreases along the guess |
| GuessEvaluator.AllCorrectIffWord | server.js:32-57 | every slot is Correct if and only if the guess begins with the word |
| GuessEvaluator.PaperAgainstApple | server.js:32-57 | PAPER against APPLE scores Misplaced, Misplaced, Correct, Misplaced, Wrong |
| OrderedMaps.DistinctAt | server.js:17-20 | distinct keys differ at every pair of positions |
| OrderedMaps.DistinctSnoc | server.js:17-20 | appending a key that is not present keeps the keys distinct |
| OrderedMaps.Without | server.js:394 | exactly the other keys remain, and distinctness is preserved |
| OrderedMaps.WithoutSplits | server.js:394 | the other keys keep their order: dropping a key from a concatenation is concatenating the parts with the key dropped |
| OrderedMaps.WithoutOne | server.js:394 | a single key is kept exactly when it is not the one dropped |
| OrderedMaps.OMap.Get | server.js:128 | `map.get`: a value exactly for the keys present |
| OrderedMaps.OMap.Set | server.js:118 | `map.set`: the entry is replaced or added; an existing key keeps its place, a new key goes last; validity is kept |
| OrderedMaps.OMap.Delete | server.js:470 | `map.delete`: the entry goes and the key list becomes `Without(keys, k)`, whose order `WithoutSplits` states; validity is kept |
| OrderedMaps.EmptyMap | server.js:17-20 | a fresh `Map` is valid and has no entries |
| OrderedMaps.FirstKeyWith | server.js:386-391 | a found key is present and maps to the value; if none is found, no present key maps to it |
| OrderedMaps.FirstKeyWithIsFirst | server.js:386-391 | no key before the one found maps to the value: the scan stops at the first match in insertion order |
| OrderedMaps.FirstKeyWithSkips | server.js:386-391 | a position that does not match can be skipped without changing the result |
| Rooms.NewGame | server.js:23-29 | a new game's word is one of the five words and five letters long, and no guesses are recorded |
| Rooms.ConnectedCount | server.js:69 | the number of connected players is at most the number of players |
| Rooms.IndexOf | server.js:396 | `findIndex`: the first position holding the id, or -1 exactly when the id is absent |
| Rooms.FirstOtherConnected | server.js:282 | `find`: a found player is another connected member and every player before it is the guesser or disconnected; if none is found, every other member is disconnected |
| Rooms.GuessesBy | server.js:280-284 | a player's guess count is at most the number of guesses recorded, and is 0 when none are theirs |
| Rooms.GuessesByAppend | server.js:280-284 | recording one more guess adds one to its author's count and leaves every other player's count unchanged, so the count is the number of the player's records |
| Rooms.Summary | server.js:66-70 | a room-list entry carries the room's id, its name and its number of connected players, which is at most its player count |
| Rooms.View | server.js:179-191 | the room as sent to clients has the room's id, name and creator, and lists the same players in the same order with their ids, names and connection flags |
| Rooms.NewRoom | server.js:105-116 | a new room has the given id and name, its creator as its only member (connected on the creating socket, named by `DisplayName`) and as its owner, and no game |
| Rooms.DisplayNameShape | server.js:112 | `DisplayName` is `Player ` followed by the first four characters of the id, or the whole of a shorter id |
| Rooms.Reconnect | server.js:141-142 | only the rejoining player's entry changes: new socket, connected, same name; everything else is kept |
| Rooms.MarkedDisconnected | server.js:396-399 | the player's first entry is marked disconnected with its other fields kept, every other entry is unchanged, and a room without the player is unchanged |
| Rooms.Join | server.js:138-176 | a member rejoins; otherwise a newcomer is refused exactly when two players are connected, and admitted at the end of the list |
| Rooms.ConnectedCountAppend | server.js:156-157 | appending a player adds one to the connected count exactly when that player is connected |
| Rooms.JoinAdmitsWithinCapacity | server.js:156-176 | an admitted newcomer leaves at most two players connected |
| Rooms.JoinKeepsIdsUnique | server.js:138-176 | a join that is not refused keeps one entry per player id, and the joiner is a member afterwards |
| Rooms.JoinTwiceRejoins | server.js:138-176 | a second join with the same id is a rejoin and adds no entry |
| Rooms.RejoinBypassesCapacity | server.js:138-160 | a room with two connected players and one disconnected member ends up with three connected when that member rejoins |
| Rooms.RemoveAt | server.js:478-500 | the player at the index is spliced out; a departing owner is replaced by the first remaining player; a game ends once fewer than two players are connected |
| Rooms.RemovalKeepsOwnerPresent | server.js:487-491 | while anyone remains in the room, its owner is one of its players |
| Rooms.RemovalMembers | server.js:479 | removal takes out exactly the player at the index and keeps ids unique |
| Rooms.WithoutPlayer | server.js:435 | `filter`: exactly the players with other ids remain, ids stay unique, and the first one kept is the first player of the list who is not the target |
| Rooms.WithoutPlayerSplits | server.js:435 | `filter` keeps the order: filtering a concatenation is concatenating the filtered parts |
| Rooms.WithoutPlayerOne | server.js:435 | a single player is kept exactly when they are not the target |
| Rooms.Kick | server.js:435-448 | the target's entries are removed by the order-keeping `filter`, the game is reset, and the id, name and owner are kept |
| Rooms.KickRemovesOnlyTarget | server.js:435 | after a kick, a player is a member exactly when they were a member and are not the target |
| Rooms.SelfKickLeavesNoOwner | server.js:424-435 | an owner who kicks themself is no longer a member of the room they own |
| Rooms.RoundEndAfter | server.js:268-293 | the guesser wins exactly when the guess is the word; a draw needs the guesser at six guesses and the first other connected player either absent or at six; otherwise the round continues |
| Rooms.WordGuessedIsWon | server.js:268-272 | guessing the word wins, whatever the guess counts, and the word scores all Correct |
| Rooms.FireDecision | server.js:402-409 | as written: the callback skips a player who is no longer disconnected (`StillDisconnected`, the `find` of line 405); otherwise it removes the captured index, and crashes when that index is past the end of the player list |
| Rooms.FireDecisionById | server.js:402-409 | corrected: the callback never crashes, and it removes the disconnected player it was armed for, wherever that player now is |
| Rooms.StaleIndexCrashes | server.js:402-409 | with both players disconnected and the first already removed, the second timer's stale index 1 crashes, where removal by id would remove index 0 |
| Rooms.StaleIndexRemovesWrongPlayer | server.js:402-409 | a stale index that now belongs to a connected player removes that player instead of the disconnected one |
| Session.GeneratedIdShape | server.js:60-62 | a generated id is `player-` followed by the random part |
| Session.BoundPlayer | server.js:255-258 | `socket.playerId` is used only when it is set and non-empty |
| Session.RoomList | server.js:65-71 | the room list has one entry per room; `RoomListNamesEveryRoom` states the entries |
| Session.WithCell | server.js:265-269 | `board[pid][row] = cell`: the cell is stored at that player and row, and every other entry is kept |
| Session.StartRefusal | server.js:222-243 | the game starts exactly when the room exists, the caller is its owner, two players are connected and no game is running; otherwise the first failing check in that order names the refusal |
| Session.KickRefusal | server.js:424-433 | a kick proceeds exactly when the caller owns the room and the target is a member; a non-owner gets the owner refusal, and an owner naming a non-member gets "Player not found in the room." |
| Session.ReconnectRefusal | server.js:322-338 | a reconnect proceeds exactly when the room exists and the player is a disconnected member; a missing room and a non-member get their own `invalidLobby`, and a connected member gets `joinError` "Player is already connected." |
| Session.DisconnectTimersCover | server.js:395-412 | each timer of `DisconnectTimers` names a visited room, the player, the player's index there and the grace period `GraceFor` gives for that room's state (30000 ms with a game, 2000 ms without); every room the player is in gets one |
| Session.LastHandle | server.js:411 | the handle remembered for the player is the last of the handles just armed, since each room's timer overwrites the previous one |
| Session.LastHandleHoldsLastTimer | server.js:402-411 | the remembered handle lies within the timers and its slot holds the last timer armed, the one a reconnect cancels |
| Session.Arm | server.js:402 | one slot per armed timer, holding that timer |
| Session.DisconnectStep | server.js:395-412 | visiting one more room arms a timer and marks the player there exactly when the player is a member of that room |
| Session.RoomsAfterRemoval | server.js:478-506 | a room left empty is deleted, otherwise it is replaced by the room after removal; the key order is kept, minus the deleted room; other rooms are untouched; validity is kept |
| Session.BoardsAfterRemoval | server.js:483-497 | the board is deleted with an emptied room or an abandoned game and kept otherwise; other boards are untouched; no board outlives its room |
| Session.RoomsAfterKick | server.js:435-473 | a room left empty by a kick is deleted, otherwise it is replaced by the kicked room; the key order is kept, minus the deleted room; other rooms are untouched; validity is kept |
| Session.BoardsAfterKick | server.js:444-471 | the board is deleted with a reset game or an emptied room and kept otherwise; other boards are untouched; no board outlives its room |
| Session.TablePut | server.js:118 | storing a well-formed room keeps the room table well formed |
| Session.TableDrop | server.js:470 | deleting a room keeps the room table well formed |
| Session.RemovalKeepsTable | server.js:478-506 | removing a player keeps the room table well formed, whether or not the room survives |
| Session.KickKeepsTable | server.js:435-473 | a kick keeps the room table well formed, whether or not the room survives |
| Session.RemovalKeepsOwner | server.js:487-491 | a surviving room's owner is still one of its players after a removal |
| Session.MarkedEverywhere | server.js:395-399 | marking every room keeps the same set of rooms |
| Session.MarkKeepsTable | server.js:395-399 | marking a player disconnected everywhere keeps the table well formed |
| Session.AppendKeepsRoomOk | server.js:163-169 | seating a newcomer keeps the room well formed |
| Session.RebindKeepsTable | server.js:141-143 | rebinding a member to a new socket keeps the table well formed |
| Session.ReconnectKeepsRoomOk | server.js:341-342 | reconnecting a member keeps the room well formed |
| Session.RoomListNamesEveryRoom | server.js:65-71 | entry i of the room list is the i-th room in insertion order, with its id, name and connected-player count; so the list names a room exactly when it exists, and no room twice |
| Session.MarkedOnVisited | server.js:395-399 | marking rooms one by one marks exactly the rooms visited and leaves the others as they were |
| Session.MarkedOnAll | server.js:395-399 | visiting every room is the same as marking every room |
| Session.MarkAndCollect | server.js:395-413 | the `rooms.forEach` loop marks the player in every room and arms one timer per room the player is in, in insertion order |
| Session.FindBoundPlayer | server.js:385-391 | the `for … of` scan of `playerSocketMap` finds the first player, in insertion order, bound to the socket |
| Session.Cleared | server.js:348-351 | the player's pending timer slot is emptied and every other slot is kept |
| Session.Server.constructor | server.js:17-20 | the server starts with four empty tables, no bound sockets and no timers |
| Session.Server.OnConnection | server.js:74-91 | a new connection receives the current room list |
| Session.Server.Identify | server.js:78-88 | a truthy id is bound to the socket in both directions and `identified` goes back; any other id changes nothing and sends nothing; rooms, boards and timers are never touched |
| Session.Server.CreateRoom | server.js:94-123 | the room is stored under the given id with the caller as owner and an empty board; a socket without a player id gets a generated one, bound in both directions and announced to it first; then come the creator's `roomCreated` and the new room list for everyone |
| Session.Server.JoinRoom | server.js:126-219 | a missing room is refused; a member rejoins on the new socket, with the pending removal cleared; a newcomer is refused when two players are connected and seated otherwise; the emits of a successful join are `JoinEvents`, with the board from `BoardOf` |
| Session.Server.Rebind | server.js:139-153 | the rejoining member's entry moves to the socket, both bindings are updated, and the pending removal is cleared and forgotten |
| Session.Server.Seat | server.js:162-176 | the newcomer is appended, connected and bound in both directions; timers are untouched |
| Session.Server.StartGame | server.js:222-246 | on `StartRefusal` the reason goes back to the caller and nothing changes; otherwise the room gets `NewGame(pick)` and `gameStarted` goes to the room |
| Session.Server.MakeGuess | server.js:249-297 | within a running game, the scored guess is recorded and stored on the board, and a win or draw ends the game and clears the board; otherwise nothing changes and nothing is sent |
| Session.Server.UpdateCurrentGuess | server.js:300-319 | within a running game, the typed guess is stored on the board without a result and relayed to the room; otherwise nothing changes |
| Session.Server.ReconnectToGame | server.js:322-362 | on `ReconnectRefusal` the refusal goes back to the caller and nothing changes; otherwise the member is rebound and the pending removal is cleared |
| Session.Server.RequestGameState | server.js:365-380 | a room with a running game sends its game state, board and lobby roster to the caller; otherwise nothing is sent |
| Session.Server.Disconnect | server.js:383-415 | the socket is unbound; the first player bound to it, if any, is marked disconnected everywhere, with one timer armed per room, the last handle remembered (its slot holds the last timer armed) and one `playerDisconnected` per room (`Notices`) |
| Session.Server.DisconnectPlayer | server.js:393-413 | the player-to-socket entry is deleted; every room is marked; the armed timers are exactly `DisconnectTimers`; the handle of the last one is remembered and its slot holds that timer; the emits are `Notices` of those timers |
| Session.Server.KickPlayer | server.js:418-474 | a missing room is ignored; on `KickRefusal` the caller is told why; otherwise the table and boards become `RoomsAfterKick` and `BoardsAfterKick` and the emits are `KickEvents` |
| Session.Server.HandlePlayerRemoval | server.js:478-506 | the tables become `RoomsAfterRemoval` and `BoardsAfterRemoval` and the emits are `RemovalEvents`; the bindings and timers are kept |
| Session.Server.FireTimer | server.js:402-409 | as written: the timer's slot is emptied; a deleted room or a reconnected player leaves everything unchanged; otherwise the captured index is removed, or the callback crashes when that index is out of range |
| Session.Server.FireTimerById | server.js:402-409 | corrected: the same, except that the player it was armed for is removed by id, so it never crashes |
| Client.Upper | public/js/game.js:47 | `toUpperCase` on a letter yields an upper-case letter: the same letter of the alphabet for a lower-case one, and upper case unchanged |
| Client.Edited | public/js/game.js:36-48 | the guess stays at most five upper-case letters; Enter clears a full guess (`Submits`) and keeps a short one; Escape clears; Backspace drops the last letter |
| Client.RowAfter | public/js/game.js:36-41 | the row moves on by one exactly when a full guess is submitted, and stays otherwise |
| Client.KeyEffects | public/js/game.js:36-52 | in order: `makeGuess` first exactly when Enter completes the guess, then the edited guess shown, then `updateCurrentGuess` with the edited guess and row last exactly when the room has an id; nothing else |
| Client.LetterAppends | public/js/game.js:46-47 | a letter appends its upper case to a guess with room for it, and is ignored on a full guess |
| Client.BackspaceUndoesLetter | public/js/game.js:42-47 | Backspace takes back the letter just typed |
| Client.OtherKeysIgnored | public/js/game.js:36-48 | any other key leaves the guess and the row unchanged |
| Client.UpperAll | public/js/game.js:47 | each letter is upper-cased in place |
| Client.TypingIntoFullBuffer | public/js/game.js:46 | letters typed into a full guess are dropped |
| Client.TypingAppends | public/js/game.js:46-47 | typing a word that fits appends it in upper case |
| Client.TypingFills | public/js/game.js:46-47 | typing a word spells it in upper case as far as there is room, and drops the rest |
| Client.TypedSplits | public/js/game.js:33-53 | typing one series of keys and then another is the same as typing both |
| Client.FiveLettersMakeAGuess | public/js/game.js:36-47 | five letters typed into an empty guess make a complete guess that Enter submits |
| Client.Game.constructor | public/js/game.js:16-24 | the state after `init`: the given player id, no room, not the owner, an empty guess on row 0 |
| Client.Game.HandleKeyPress | public/js/game.js:33-53 | outside a running game nothing changes and nothing happens; otherwise the guess becomes `Edited`, the row `RowAfter`, and the effects `KeyEffects` |
| Client.Game.ResetGuess | public/js/game.js:59-62 | the guess is cleared and shown; the row stays |
| Client.Game.ResetGame | public/js/game.js:86-93 | in a room, the game flag is dropped, typing restarts on row 0 and the room is shown again; with no room nothing changes |
| Client.Game.SetCurrentRoomId | public/js/game.js:112-114 | only the room id changes |
| Client.Game.SetCurrentRoom | public/js/game.js:129-133 | the room is replaced, and the player is owner exactly when they created it |
| Client.Game.KickPlayer | public/js/game.js:143-151 | a kick is sent exactly when `MayKick` holds: the player owns the current room and it is the room named; anyone else gets the refusal text |
| Client.Game.LeaveRoom | public/js/game.js:163-170 | the room, room id, owner flag, guess and row are all reset, and the stored room id is forgotten |

## Left out

- Transport: socket.io connections, `socket.join` and room broadcast membership are not modelled. A message to a room is an `Emit` addressed to that room, without the set of sockets it reaches.
- Timers: real time and the event loop are not modelled. The environment fires an armed timer by its handle; delays are recorded but not ordered.
- Randomness: room ids from `uuidv4()`, the random part of generated player ids and the word index from `Math.random`, and `generateUUID` on the client, are parameters.
- Strings are sequences of Unicode characters. JavaScript indexes UTF-16 code units in `guess[i]`, `substr(0, 4)` and `event.key.length`, so a string with a character outside the Basic Multilingual Plane is scored, shortened and measured at different positions than in the model.
- The crash: the exception thrown by the timer callback is reported as a `crashed` flag with the state unchanged; the process exit is not modelled.
- Logging (`console.log`, `console.error`) is not modelled.
- The client's DOM, `UI` and `localStorage` are effects only. `init` is the `Client.Game` constructor, with the player id as a parameter.
- Client operations that only emit and change no state are not modelled: `createRoom`, `joinRoom`, `startGame`, `requestGameState` and `reconnectToGame`. Neither are the accessors, `setPlayerId`, `updateCurrentRow`, `setReconnectionAttempts`, and the client reconnect timer (`startReconnectTimer` and `clearReconnectTimer`).
- Client.Game: `currentRoom` is reduced to its id, its owner and whether it has a game. The client's room object is shared with the UI, and `resetGame` mutates it in place; that aliasing is not modelled.
- Client.Game.Valid assumes the row is never negative. `updateCurrentRow` could set it arbitrarily, and it is not modelled.
- Session.Server.KickPlayer: the kicked player's socket is taken from the player record. Whether that socket still exists is not modelled.
- Session.Server.FireTimer: the fired timer's handle stays in `disconnectTimeouts`, as in the source, which never deletes it; a later `clearTimeout` on it is a no-op on an empty slot.
- GuessEvaluator.CheckGuess requires only a five-letter word, which every word of the game is. The guess may have any length, as in the source.
- Payload shapes are simplified to the fields the model uses. Malformed payloads (a non-string room name, a missing object) are not modelled.

## Findings

| source | as written | input that shows it | evidently intended | confidence | as-written member | corrected member |
|---|---|---|---|---|---|---|
| server.js:402-409 | the disconnect timer removes the index the player had when the timer was armed, after checking only that the player is still disconnected somewhere in the room | room [A, B], both players disconnect, and A's timer fires first and removes index 0. B's timer then calls `splice(1, 1)` on a one-player room, and reading `.id` of `undefined` throws (`Rooms.StaleIndexCrashes`). If instead a player before B leaves and a connected C now sits at B's old index, C is removed while B stays (`Rooms.StaleIndexRemovesWrongPlayer`) | remove the player the timer was armed for, found by id when the timer fires | high, not executed | Rooms.FireDecision, Session.Server.FireTimer | Rooms.FireDecisionById, Session.Server.FireTimerById |
