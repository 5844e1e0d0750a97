/**
 * The server's state and its socket handlers.
 *
 * The four tables of the server (rooms, board contents, player-to-socket,
 * pending disconnect timeouts) are fields of `Server`, together with what the
 * transport and the timer queue hold for it: the player id each socket has
 * announced (`socket.playerId`) and the armed timers, one slot per handle.
 * Every handler takes the socket id it runs for and returns the messages it
 * emits, in order, each addressed to one socket, one room's sockets, or
 * every socket.  Values that the server draws at random (room ids, generated
 * player-id suffixes, the word index) are parameters.
 */
module Session {
  import opened Wrappers
  import opened GuessEvaluator
  import opened OrderedMaps
  import opened Rooms

  // ---------------------------------------------------------------------------
  // Messages

  /** A cell of a board: a submitted guess carries its result, a guess being typed does not. */
  datatype Cell = Cell(guess: string, result: Option<seq<Verdict>>)

  /** A room's board: player id -> row -> cell. */
  type Board = map<string, map<int, Cell>>

  /** A player as `requestGameState` shows them. */
  datatype RosterEntry = RosterEntry(id: string, name: string)

  datatype Lobby = Lobby(id: string, name: string, creator: string, roster: seq<RosterEntry>)

  datatype Msg =
    | RoomListUpdate(list: seq<RoomSummary>)
    | Identified
    | AssignedPlayerId(newId: string)
    | RoomCreated(created: Room)
    | JoinError(reason: string)
    | Reconnected(playerId: string, roomId: string)
    | PlayerReconnected(who: string, name: Option<string>)
    | PlayerIdAssigned(given: string)
    | PlayerJoined(joiner: string, joinerName: string)
    | RoomJoined(view: RoomView, state: Option<GameState>)
    | GameStateUpdate(game: GameState, board: Board, lobby: Option<Lobby>)
    | RoomStateUpdate(roomView: RoomView, roomState: Option<GameState>)
    | StartGameError(startReason: string)
    | GameStarted(started: GameState)
    | GuessResult(record: GuessRecord)
    | GameOver(word: string, winner: Option<string>)
    | CurrentGuess(typist: string, currentGuess: string, row: int)
    | InvalidLobby(lobbyReason: string)
    | PlayerDisconnected(gone: string)
    | KickPlayerError(kickReason: string)
    | PlayerKicked(kicked: string)
    | KickedFromRoom
    | GameReset(resetReason: string)
    | OwnershipTransferred(owned: Room)
    | PlayerLeft(leaver: string)

  datatype Target = ToSocket(socketId: string) | ToRoom(roomId: string) | ToAll

  datatype Emit = Emit(to: Target, msg: Msg)

  const RoomMissing := "Room does not exist."
  const RoomFull := "Room is full."
  const NotStartOwner := "Only the room creator can start the game."
  const NeedTwoPlayers := "The game requires 2 connected players to start."
  const AlreadyStarted := "The game has already started."
  const NoSuchLobby := "This room does not exist."
  const NotAMember := "You are not a member of this room."
  const AlreadyConnected := "Player is already connected."
  const NotKickOwner := "Only the room creator can kick players."
  const KickTargetMissing := "Player not found in the room."
  const KickedReset := "A player was kicked. The game has been reset."
  const ClosedForInactivity := "This room has been closed due to inactivity."
  const StoppedByLeaving := "Game stopped due to player leaving."

  /** Grace periods, in milliseconds, before a disconnected player is removed. */
  const GameGraceMs: nat := 30000
  const LobbyGraceMs: nat := 2000

  /** A pending removal: armed by `disconnect` with the index the player had then. */
  datatype Timer = Timer(roomId: string, playerId: string, playerIndex: nat, delay: nat)

  // ---------------------------------------------------------------------------
  // Pure pieces of the handlers

  /** `'player-' + Math.random().toString(36).substr(2, 9)`, with the random part given. */
  function GeneratedId(suffix: string): string
  {
    "player-" + suffix
  }

  /** A generated id is `player-` followed by the random part. */
  lemma GeneratedIdShape(suffix: string)
    ensures var pid := GeneratedId(suffix);
            |pid| == 7 + |suffix| && pid[..7] == "player-" && pid[7..] == suffix
  {
  }

  /** `socket.playerId`, when it is set to a non-empty string. */
  function BoundPlayer(socketPlayer: map<string, string>, sid: string): (r: Option<string>)
    ensures r.Some? <==> sid in socketPlayer && socketPlayer[sid] != ""
    ensures r.Some? ==> r.value == socketPlayer[sid]
  {
    if sid in socketPlayer && socketPlayer[sid] != "" then Some(socketPlayer[sid]) else None
  }

  /** A player id given by a client, when it is truthy. */
  predicate Given(pid: Option<string>)
  {
    pid.Some? && pid.value != ""
  }

  /** `getRoomListUpdate()`: the rooms in creation order with their connected-player counts. */
  function RoomList(rooms: OMap<Room>): (r: seq<RoomSummary>)
    requires rooms.Valid()
    ensures |r| == |rooms.keys|
  {
    seq(|rooms.keys|, i requires 0 <= i < |rooms.keys| => Summary(rooms.entries[rooms.keys[i]]))
  }

  function GraceFor(room: Room): nat
  {
    if room.gameState.Some? then GameGraceMs else LobbyGraceMs
  }

  /** `boardContents.get(roomId) || {}`. */
  function BoardOf(boards: map<string, Board>, roomId: string): Board
  {
    if roomId in boards then boards[roomId] else map[]
  }

  /** `board[pid][row] = cell`, creating the player's row list when missing. */
  function WithCell(b: Board, pid: string, row: int, cell: Cell): (r: Board)
    ensures pid in r && row in r[pid] && r[pid][row] == cell
    ensures r.Keys == b.Keys + {pid}
    ensures forall q :: q in b && q != pid ==> r[q] == b[q]
    ensures pid in b ==> forall k :: k in b[pid] && k != row ==> k in r[pid] && r[pid][k] == b[pid][k]
    ensures forall k :: k in r[pid] ==> k == row || (pid in b && k in b[pid])
  {
    b[pid := (if pid in b then b[pid] else map[])[row := cell]]
  }

  /** Why `startGame` refuses, checked in the handler's order, or None when the game starts. */
  function StartRefusal(room: Option<Room>, caller: Option<string>): (r: Option<string>)
    ensures r.None? <==> room.Some? && caller == Some(room.value.creator)
                         && ConnectedCount(room.value.players) == Capacity && room.value.gameState.None?
    ensures r == Some(RoomMissing) <==> room.None?
    ensures room.Some? && caller != Some(room.value.creator) ==> r == Some(NotStartOwner)
    ensures (room.Some? && caller == Some(room.value.creator) && ConnectedCount(room.value.players) != Capacity)
            ==> r == Some(NeedTwoPlayers)
    ensures (&& room.Some? && caller == Some(room.value.creator) && ConnectedCount(room.value.players) == Capacity
             && room.value.gameState.Some?)
            ==> r == Some(AlreadyStarted)
  {
    if room.None? then Some(RoomMissing)
    else if caller != Some(room.value.creator) then Some(NotStartOwner)
    else if ConnectedCount(room.value.players) != Capacity then Some(NeedTwoPlayers)
    else if room.value.gameState.Some? then Some(AlreadyStarted)
    else None
  }

  /** Why `kickPlayer` refuses an existing room, or None when the target is kicked. */
  function KickRefusal(room: Room, caller: Option<string>, target: string): (r: Option<string>)
    ensures r.None? <==> caller == Some(room.creator) && IsMember(room.players, target)
    ensures r == Some(NotKickOwner) <==> caller != Some(room.creator)
    ensures caller == Some(room.creator) && !IsMember(room.players, target) ==> r == Some(KickTargetMissing)
  {
    if caller != Some(room.creator) then Some(NotKickOwner)
    else if !IsMember(room.players, target) then Some(KickTargetMissing)
    else None
  }

  /** Why `reconnectToGame` refuses, as the message it sends back, or None when it proceeds. */
  function ReconnectRefusal(room: Option<Room>, pid: string): (r: Option<Msg>)
    ensures r.None? <==> room.Some? && IsMember(room.value.players, pid)
                         && !room.value.players[IndexOf(room.value.players, pid)].connected
    ensures r == Some(InvalidLobby(NoSuchLobby)) <==> room.None?
    ensures r == Some(InvalidLobby(NotAMember)) <==> room.Some? && !IsMember(room.value.players, pid)
    ensures (&& room.Some? && IsMember(room.value.players, pid)
             && room.value.players[IndexOf(room.value.players, pid)].connected)
            ==> r == Some(JoinError(AlreadyConnected))
  {
    if room.None? then Some(InvalidLobby(NoSuchLobby))
    else
      var i := IndexOf(room.value.players, pid);
      if i < 0 then Some(InvalidLobby(NotAMember))
      else if room.value.players[i].connected then Some(JoinError(AlreadyConnected))
      else None
  }

  /** The timers `disconnect` arms, visiting `ks` in order: one per room the player is in. */
  function DisconnectTimers(ks: seq<string>, entries: map<string, Room>, pid: string): (ts: seq<Timer>)
    requires forall k :: k in ks ==> k in entries
  {
    if ks == [] then []
    else
      var k := ks[|ks| - 1];
      var i := IndexOf(entries[k].players, pid);
      DisconnectTimers(ks[..|ks| - 1], entries, pid) + (if i >= 0 then [Timer(k, pid, i, GraceFor(entries[k]))] else [])
  }

  /**
   * Each armed timer names a room of `ks`, the player, the position the player
   * holds there and the grace period that room's state calls for; and every
   * room of `ks` the player is in gets one.
   */
  lemma {:induction false} DisconnectTimersCover(ks: seq<string>, entries: map<string, Room>, pid: string)
    requires forall k :: k in ks ==> k in entries
    ensures |DisconnectTimers(ks, entries, pid)| <= |ks|
    ensures forall t :: t in DisconnectTimers(ks, entries, pid) ==>
              && t.roomId in ks && t.playerId == pid
              && t.playerIndex < |entries[t.roomId].players|
              && entries[t.roomId].players[t.playerIndex].id == pid
              && t.delay == GraceFor(entries[t.roomId])
    ensures forall k :: k in ks && IsMember(entries[k].players, pid) ==>
              exists t :: t in DisconnectTimers(ks, entries, pid) && t.roomId == k
  {
    if ks != [] {
      var init := ks[..|ks| - 1];
      var k := ks[|ks| - 1];
      DisconnectTimersCover(init, entries, pid);
      var i := IndexOf(entries[k].players, pid);
      assert forall x :: x in ks ==> x in init || x == k;
      if i >= 0 {
        var t := Timer(k, pid, i, GraceFor(entries[k]));
        assert DisconnectTimers(ks, entries, pid) == DisconnectTimers(init, entries, pid) + [t];
        assert t in DisconnectTimers(ks, entries, pid);
      }
    }
  }

  /** The handle of the last of `armed` when they are armed after `before` other timers. */
  function LastHandle(before: nat, armed: seq<Timer>): (h: nat)
    requires armed != []
    ensures before <= h < before + |armed|
    ensures h + 1 == before + |armed|
  {
    before + |armed| - 1
  }

  /** The remembered handle is the slot of the last timer armed: the one a reconnect cancels. */
  lemma LastHandleHoldsLastTimer(timers: seq<Option<Timer>>, armed: seq<Timer>)
    requires armed != []
    ensures LastHandle(|timers|, armed) < |timers + Arm(armed)|
    ensures (timers + Arm(armed))[LastHandle(|timers|, armed)] == Some(armed[|armed| - 1])
  {
  }

  function Arm(ts: seq<Timer>): (r: seq<Option<Timer>>)
    ensures |r| == |ts|
    ensures forall i :: 0 <= i < |ts| ==> r[i] == Some(ts[i])
  {
    seq(|ts|, i requires 0 <= i < |ts| => Some(ts[i]))
  }

  /** The `playerDisconnected` broadcasts that go with the armed timers. */
  function Notices(ts: seq<Timer>): (r: seq<Emit>)
  {
    seq(|ts|, i requires 0 <= i < |ts| => Emit(ToRoom(ts[i].roomId), PlayerDisconnected(ts[i].playerId)))
  }

  lemma DisconnectStep(ks: seq<string>, j: nat, entries: map<string, Room>, pid: string)
    requires j < |ks|
    requires forall k :: k in ks ==> k in entries
    ensures var i := IndexOf(entries[ks[j]].players, pid);
            DisconnectTimers(ks[..j + 1], entries, pid)
              == DisconnectTimers(ks[..j], entries, pid)
                 + (if i >= 0 then [Timer(ks[j], pid, i, GraceFor(entries[ks[j]]))] else [])
    ensures MarkedOn(entries, ks[..j + 1], pid)
              == if IndexOf(entries[ks[j]].players, pid) >= 0
                 then MarkedOn(entries, ks[..j], pid)[ks[j] := MarkedDisconnected(entries[ks[j]], pid)]
                 else MarkedOn(entries, ks[..j], pid)
  {
    assert ks[..j + 1][..j] == ks[..j];
  }

  /** The room table after `handlePlayerRemoval(room, roomId, idx)`. */
  function RoomsAfterRemoval(rooms: OMap<Room>, roomId: string, idx: nat): (r: OMap<Room>)
    requires roomId in rooms.entries && idx < |rooms.entries[roomId].players|
    ensures rooms.Valid() ==> r.Valid()
    ensures |RemoveAt(rooms.entries[roomId], idx).players| == 0 ==> roomId !in r.entries
    ensures |RemoveAt(rooms.entries[roomId], idx).players| > 0 ==> roomId in r.entries && r.entries[roomId] == RemoveAt(rooms.entries[roomId], idx)
    ensures |RemoveAt(rooms.entries[roomId], idx).players| > 0 ==> r.keys == rooms.keys
    ensures |RemoveAt(rooms.entries[roomId], idx).players| == 0 ==> r.keys == Without(rooms.keys, roomId)
    ensures forall k :: k != roomId ==> (k in r.entries <==> k in rooms.entries) && (k in r.entries ==> r.entries[k] == rooms.entries[k])
  {
    var after := RemoveAt(rooms.entries[roomId], idx);
    if |after.players| == 0 then rooms.Delete(roomId) else rooms.Set(roomId, after)
  }

  /** The board table after the same removal: the board goes with the room or with an abandoned game. */
  function BoardsAfterRemoval(rooms: OMap<Room>, boards: map<string, Board>, roomId: string, idx: nat): (r: map<string, Board>)
    requires roomId in rooms.entries && idx < |rooms.entries[roomId].players|
    ensures boards.Keys <= rooms.entries.Keys ==> r.Keys <= RoomsAfterRemoval(rooms, roomId, idx).entries.Keys
    ensures |RemoveAt(rooms.entries[roomId], idx).players| == 0 ==> roomId !in r
    ensures rooms.entries[roomId].gameState.Some? && RemoveAt(rooms.entries[roomId], idx).gameState.None? ==> roomId !in r
    ensures (&& |RemoveAt(rooms.entries[roomId], idx).players| > 0
             && !(rooms.entries[roomId].gameState.Some? && RemoveAt(rooms.entries[roomId], idx).gameState.None?))
            ==> r == boards
    ensures forall k :: k != roomId ==> (k in r <==> k in boards) && (k in r ==> r[k] == boards[k])
  {
    var room := rooms.entries[roomId];
    var after := RemoveAt(room, idx);
    if |after.players| == 0 || (room.gameState.Some? && after.gameState.None?) then boards - {roomId} else boards
  }

  /** The room table after `kickPlayer` removes `target`: a room left empty is deleted. */
  function RoomsAfterKick(rooms: OMap<Room>, roomId: string, target: string): (r: OMap<Room>)
    requires roomId in rooms.entries
    ensures rooms.Valid() ==> r.Valid()
    ensures |Kick(rooms.entries[roomId], target).players| == 0 ==> roomId !in r.entries
    ensures |Kick(rooms.entries[roomId], target).players| > 0 ==> roomId in r.entries && r.entries[roomId] == Kick(rooms.entries[roomId], target)
    ensures |Kick(rooms.entries[roomId], target).players| > 0 ==> r.keys == rooms.keys
    ensures |Kick(rooms.entries[roomId], target).players| == 0 ==> r.keys == Without(rooms.keys, roomId)
    ensures forall k :: k != roomId ==> (k in r.entries <==> k in rooms.entries) && (k in r.entries ==> r.entries[k] == rooms.entries[k])
  {
    var kicked := Kick(rooms.entries[roomId], target);
    if |kicked.players| == 0 then rooms.Delete(roomId) else rooms.Set(roomId, kicked)
  }

  /** The board table after the same kick: the board goes with a reset game or with the room. */
  function BoardsAfterKick(rooms: OMap<Room>, boards: map<string, Board>, roomId: string, target: string): (r: map<string, Board>)
    requires roomId in rooms.entries
    ensures boards.Keys <= rooms.entries.Keys ==> r.Keys <= RoomsAfterKick(rooms, roomId, target).entries.Keys
    ensures rooms.entries[roomId].gameState.Some? || |Kick(rooms.entries[roomId], target).players| == 0 ==> roomId !in r
    ensures !(rooms.entries[roomId].gameState.Some? || |Kick(rooms.entries[roomId], target).players| == 0) ==> r == boards
    ensures forall k :: k != roomId ==> (k in r <==> k in boards) && (k in r ==> r[k] == boards[k])
  {
    var room := rooms.entries[roomId];
    if room.gameState.Some? || |Kick(room, target).players| == 0 then boards - {roomId} else boards
  }

  /** What `handlePlayerRemoval` emits, ending with the room list of the new table. */
  function RemovalEvents(rooms: OMap<Room>, roomId: string, idx: nat): seq<Emit>
    requires rooms.Valid()
    requires roomId in rooms.entries && idx < |rooms.entries[roomId].players|
  {
    var room := rooms.entries[roomId];
    var removed := room.players[idx];
    var after := RemoveAt(room, idx);
    (if |after.players| == 0 then [Emit(ToRoom(roomId), InvalidLobby(ClosedForInactivity))]
     else
       (if room.creator == removed.id
        then [Emit(ToSocket(after.players[0].socketId), OwnershipTransferred(after.(gameState := room.gameState)))]
        else [])
       + (if room.gameState.Some? && after.gameState.None?
          then [Emit(ToRoom(roomId), GameOver(StoppedByLeaving, None))]
          else [Emit(ToRoom(roomId), PlayerLeft(removed.id))]))
    + [Emit(ToAll, RoomListUpdate(RoomList(RoomsAfterRemoval(rooms, roomId, idx))))]
  }


  /** The messages `joinRoom` sends once the player is in, `name` being the name the room shows. */
  function JoinEvents(sid: string, roomId: string, pid: string, rejoined: bool, name: string,
                      joined: Room, board: Board, list: seq<RoomSummary>): seq<Emit>
  {
    (if rejoined
     then [Emit(ToSocket(sid), Reconnected(pid, roomId)), Emit(ToRoom(roomId), PlayerReconnected(pid, Some(name)))]
     else [Emit(ToSocket(sid), PlayerIdAssigned(pid)), Emit(ToRoom(roomId), PlayerJoined(pid, name))])
    + [Emit(ToSocket(sid), RoomJoined(View(joined), joined.gameState))]
    + (if joined.gameState.Some? then [Emit(ToSocket(sid), GameStateUpdate(joined.gameState.value, board, None))] else [])
    + [Emit(ToAll, RoomListUpdate(list)), Emit(ToRoom(roomId), RoomStateUpdate(View(joined), joined.gameState))]
  }

  /**
   * The messages of a successful `kickPlayer`: `listed` is the table with the
   * emptied-or-not room still in it, `remaining` the table after an emptied
   * room is deleted.
   */
  function KickEvents(roomId: string, target: string, victimSocket: string, hadGame: bool,
                      kicked: Room, listed: seq<RoomSummary>, remaining: seq<RoomSummary>): seq<Emit>
  {
    [Emit(ToRoom(roomId), PlayerKicked(target)), Emit(ToSocket(victimSocket), KickedFromRoom)]
    + (if hadGame then [Emit(ToRoom(roomId), GameReset(KickedReset))] else [])
    + [Emit(ToRoom(roomId), RoomStateUpdate(View(kicked), None)), Emit(ToAll, RoomListUpdate(listed))]
    + (if |kicked.players| == 0 then [Emit(ToAll, RoomListUpdate(remaining))] else [])
  }

  /** What the server keeps true of every room it lists under `key`. */
  ghost predicate RoomOk(key: string, room: Room)
  {
    && room.id == key
    && |room.players| > 0
    && UniqueIds(room.players)
    && (room.gameState.Some? ==> room.gameState.value.word in Words)
  }

  /** The room table: insertion-ordered, and every room well formed under its own id. */
  ghost predicate Table(rooms: OMap<Room>)
  {
    rooms.Valid() && forall k :: k in rooms.entries ==> RoomOk(k, rooms.entries[k])
  }

  lemma TablePut(rooms: OMap<Room>, key: string, room: Room)
    requires Table(rooms) && RoomOk(key, room)
    ensures Table(rooms.Set(key, room))
  {
  }

  lemma TableDrop(rooms: OMap<Room>, key: string)
    requires Table(rooms)
    ensures Table(rooms.Delete(key))
  {
  }

  /** Removing a player keeps the table well formed, whether or not the room survives. */
  lemma RemovalKeepsTable(rooms: OMap<Room>, roomId: string, idx: nat)
    requires Table(rooms)
    requires roomId in rooms.entries && idx < |rooms.entries[roomId].players|
    ensures Table(RoomsAfterRemoval(rooms, roomId, idx))
  {
    var after := RemoveAt(rooms.entries[roomId], idx);
    if |after.players| == 0 {
      TableDrop(rooms, roomId);
    } else {
      RemovalMembers(rooms.entries[roomId], idx, roomId);
      TablePut(rooms, roomId, after);
    }
  }

  /** Kicking keeps the table well formed, whether or not the room survives. */
  lemma KickKeepsTable(rooms: OMap<Room>, roomId: string, target: string)
    requires Table(rooms) && roomId in rooms.entries
    ensures Table(RoomsAfterKick(rooms, roomId, target))
  {
    var kicked := Kick(rooms.entries[roomId], target);
    if |kicked.players| == 0 {
      TableDrop(rooms, roomId);
    } else {
      TablePut(rooms, roomId, kicked);
    }
  }

  /**
   * While the room survives, its owner is one of its players after a removal
   * if they were before.
   */
  lemma RemovalKeepsOwner(rooms: OMap<Room>, roomId: string, idx: nat)
    requires roomId in rooms.entries && idx < |rooms.entries[roomId].players|
    requires IsMember(rooms.entries[roomId].players, rooms.entries[roomId].creator)
    ensures roomId in RoomsAfterRemoval(rooms, roomId, idx).entries ==>
              var r := RoomsAfterRemoval(rooms, roomId, idx).entries[roomId];
              IsMember(r.players, r.creator)
  {
    RemovalKeepsOwnerPresent(rooms.entries[roomId], idx);
  }

  /** Every room after `disconnect`'s marking. */
  function MarkedEverywhere(entries: map<string, Room>, pid: string): (r: map<string, Room>)
    ensures r.Keys == entries.Keys
  {
    map k | k in entries :: MarkedDisconnected(entries[k], pid)
  }

  lemma MarkKeepsTable(rooms: OMap<Room>, pid: string)
    requires Table(rooms)
    ensures Table(OMap(rooms.keys, MarkedEverywhere(rooms.entries, pid)))
  {
    var marked := MarkedEverywhere(rooms.entries, pid);
    forall k | k in marked
      ensures RoomOk(k, marked[k])
    {
      var room := rooms.entries[k];
      var r := MarkedDisconnected(room, pid);
      assert forall i, j :: 0 <= i < j < |r.players| ==> r.players[i].id == room.players[i].id && r.players[j].id == room.players[j].id;
    }
  }

  /** Seating a newcomer at the end of the player list keeps the room well formed. */
  lemma AppendKeepsRoomOk(key: string, room: Room, pid: string, sid: string)
    requires RoomOk(key, room) && !IsMember(room.players, pid)
    ensures RoomOk(key, room.(players := room.players + [Player(pid, sid, DisplayName(pid), true)]))
  {
    JoinKeepsIdsUnique(room, pid, sid);
  }

  lemma RebindKeepsTable(rooms: OMap<Room>, roomId: string, i: nat, sid: string)
    requires Table(rooms) && roomId in rooms.entries && i < |rooms.entries[roomId].players|
    ensures Table(rooms.Set(roomId, Reconnect(rooms.entries[roomId], i, sid)))
  {
    ReconnectKeepsRoomOk(roomId, rooms.entries[roomId], i, sid);
    TablePut(rooms, roomId, Reconnect(rooms.entries[roomId], i, sid));
  }

  lemma ReconnectKeepsRoomOk(key: string, room: Room, i: nat, sid: string)
    requires RoomOk(key, room) && i < |room.players|
    ensures RoomOk(key, Reconnect(room, i, sid))
  {
    var r := Reconnect(room, i, sid);
    assert forall a, b :: 0 <= a < b < |r.players| ==> r.players[a].id == room.players[a].id && r.players[b].id == room.players[b].id;
  }

  /** The room list names each room once, in creation order, with its name and connected players. */
  lemma RoomListNamesEveryRoom(rooms: OMap<Room>, roomId: string)
    requires Table(rooms)
    ensures |RoomList(rooms)| == |rooms.keys|
    ensures forall i :: 0 <= i < |RoomList(rooms)| ==>
              && RoomList(rooms)[i].id == rooms.keys[i]
              && RoomList(rooms)[i].name == rooms.entries[rooms.keys[i]].name
              && RoomList(rooms)[i].playerCount == ConnectedCount(rooms.entries[rooms.keys[i]].players)
    ensures (exists i :: 0 <= i < |RoomList(rooms)| && RoomList(rooms)[i].id == roomId) <==> roomId in rooms.entries
    ensures forall i, j :: 0 <= i < j < |RoomList(rooms)| ==> RoomList(rooms)[i].id != RoomList(rooms)[j].id
    ensures forall i :: 0 <= i < |RoomList(rooms)| && RoomList(rooms)[i].id == roomId ==>
              roomId in rooms.entries && RoomList(rooms)[i].playerCount == ConnectedCount(rooms.entries[roomId].players)
  {
    var r := RoomList(rooms);
    DistinctAt(rooms.keys);
    assert forall i :: 0 <= i < |r| ==> r[i] == Summary(rooms.entries[rooms.keys[i]]);
    if roomId in rooms.entries {
      var i :| 0 <= i < |rooms.keys| && rooms.keys[i] == roomId;
      assert r[i].id == roomId;
    }
  }

  /** The rooms of `ks` marked one after the other, the others as they were. */
  function MarkedOn(entries: map<string, Room>, ks: seq<string>, pid: string): (r: map<string, Room>)
    requires forall k :: k in ks ==> k in entries
  {
    if ks == [] then entries
    else
      var k := ks[|ks| - 1];
      var before := MarkedOn(entries, ks[..|ks| - 1], pid);
      if IndexOf(entries[k].players, pid) >= 0 then before[k := MarkedDisconnected(entries[k], pid)] else before
  }

  /** Marking the rooms one by one marks exactly the rooms visited. */
  lemma {:induction false} MarkedOnVisited(entries: map<string, Room>, ks: seq<string>, pid: string)
    requires forall k :: k in ks ==> k in entries
    ensures MarkedOn(entries, ks, pid).Keys == entries.Keys
    ensures forall k :: k in entries ==>
              MarkedOn(entries, ks, pid)[k] == if k in ks then MarkedDisconnected(entries[k], pid) else entries[k]
  {
    if ks != [] {
      var init := ks[..|ks| - 1];
      MarkedOnVisited(entries, init, pid);
      assert forall x :: x in ks <==> x in init || x == ks[|ks| - 1];
    }
  }

  /** Visiting every room marks every room. */
  lemma MarkedOnAll(entries: map<string, Room>, ks: seq<string>, pid: string)
    requires forall k :: k in entries <==> k in ks
    ensures MarkedOn(entries, ks, pid) == MarkedEverywhere(entries, pid)
  {
    MarkedOnVisited(entries, ks, pid);
  }

  /**
   * The `rooms.forEach` of `disconnect`, over the room keys in insertion order:
   * each room the player is in is marked, and a removal timer is set up for
   * it with the index the player holds there.  The caller arms the timers in
   * this order and announces each; the last one armed is the one remembered.
   */
  method MarkAndCollect(ks: seq<string>, entries0: map<string, Room>, pid: string)
    returns (entries: map<string, Room>, armed: seq<Timer>)
    requires forall k :: k in entries0 <==> k in ks
    ensures entries == MarkedEverywhere(entries0, pid)
    ensures armed == DisconnectTimers(ks, entries0, pid)
  {
    entries := entries0;
    armed := [];
    var j := 0;
    while j < |ks|
      invariant 0 <= j <= |ks|
      invariant armed == DisconnectTimers(ks[..j], entries0, pid)
      invariant entries == MarkedOn(entries0, ks[..j], pid)
    {
      var roomId := ks[j];
      var room := entries0[roomId];
      DisconnectStep(ks, j, entries0, pid);
      var idx := IndexOf(room.players, pid);
      if idx != -1 {
        entries := entries[roomId := MarkedDisconnected(room, pid)];
        armed := armed + [Timer(roomId, pid, idx, GraceFor(room))];
      }
      j := j + 1;
    }
    assert ks[..j] == ks;
    MarkedOnAll(entries0, ks, pid);
  }

  /** The scan of `playerSocketMap`, in insertion order, for the first player bound to `sid`. */
  method FindBoundPlayer(sockets: OMap<string>, sid: string) returns (bound: Option<string>)
    requires sockets.Valid()
    ensures bound == FirstKeyWith(sockets.keys, sockets.entries, sid)
  {
    var ks := sockets.keys;
    var i := 0;
    while i < |ks| && sockets.entries[ks[i]] != sid
      invariant 0 <= i <= |ks|
      invariant FirstKeyWith(ks, sockets.entries, sid) == FirstKeyWith(ks[i..], sockets.entries, sid)
    {
      FirstKeyWithSkips(ks, sockets.entries, sid, i);
      i := i + 1;
    }
    if i < |ks| {
      assert ks[i..][0] == ks[i];
      bound := Some(ks[i]);
    } else {
      assert ks[i..] == [];
      bound := None;
    }
  }

  /** `clearTimeout(disconnectTimeouts.get(pid))`: the player's pending removal, if any, will not fire. */
  function Cleared(timers: seq<Option<Timer>>, handles: map<string, nat>, pid: string): (r: seq<Option<Timer>>)
    requires pid in handles ==> handles[pid] < |timers|
    ensures |r| == |timers|
    ensures pid in handles ==> r[handles[pid]].None?
    ensures forall h :: 0 <= h < |timers| && !(pid in handles && h == handles[pid]) ==> r[h] == timers[h]
  {
    if pid in handles then timers[handles[pid] := None] else timers
  }

  // ---------------------------------------------------------------------------
  // The server

  class Server {
    var rooms: OMap<Room>
    var boardContents: map<string, Board>
    var playerSocketMap: OMap<string>
    var disconnectTimeouts: map<string, nat>
    /** Armed timers by handle; a cleared or fired timer leaves `None`. */
    var timers: seq<Option<Timer>>
    /** `socket.playerId` of the sockets that have one. */
    var socketPlayer: map<string, string>

    ghost predicate Valid()
      reads this
    {
      && Table(rooms)
      && playerSocketMap.Valid()
      && boardContents.Keys <= rooms.entries.Keys
      && (forall pid :: pid in disconnectTimeouts ==> disconnectTimeouts[pid] < |timers|)
    }

    constructor ()
      ensures Valid()
      ensures rooms.entries == map[] && boardContents == map[] && playerSocketMap.entries == map[]
      ensures disconnectTimeouts == map[] && timers == [] && socketPlayer == map[]
    {
      rooms := EmptyMap();
      boardContents := map[];
      playerSocketMap := EmptyMap();
      disconnectTimeouts := map[];
      timers := [];
      socketPlayer := map[];
    }

    /** A new connection is sent the room list. */
    method OnConnection(sid: string) returns (events: seq<Emit>)
      requires Valid()
      ensures events == [Emit(ToSocket(sid), RoomListUpdate(RoomList(rooms)))]
    {
      events := [Emit(ToSocket(sid), RoomListUpdate(RoomList(rooms)))];
    }

    /** `identify`: a socket announces the player id it belongs to. */
    method Identify(sid: string, pid: Option<string>) returns (events: seq<Emit>)
      requires Valid()
      modifies this
      ensures Valid()
      ensures rooms == old(rooms) && boardContents == old(boardContents)
      ensures disconnectTimeouts == old(disconnectTimeouts) && timers == old(timers)
      ensures Given(pid) ==> && playerSocketMap == old(playerSocketMap).Set(pid.value, sid)
                              && socketPlayer == old(socketPlayer)[sid := pid.value]
                              && events == [Emit(ToSocket(sid), Identified)]
      ensures !Given(pid) ==> playerSocketMap == old(playerSocketMap) && socketPlayer == old(socketPlayer) && events == []
    {
      if Given(pid) {
        playerSocketMap := playerSocketMap.Set(pid.value, sid);
        socketPlayer := socketPlayer[sid := pid.value];
        events := [Emit(ToSocket(sid), Identified)];
      } else {
        events := [];
      }
    }

    /** `createRoom`: the caller, given an id if the socket has none, owns a new room. */
    method CreateRoom(sid: string, roomName: string, roomId: string, suffix: string) returns (events: seq<Emit>)
      requires Valid()
      modifies this
      ensures Valid()
      ensures disconnectTimeouts == old(disconnectTimeouts) && timers == old(timers)
      ensures var bound := BoundPlayer(old(socketPlayer), sid);
              var pid := if bound.Some? then bound.value else GeneratedId(suffix);
              var room := NewRoom(roomId, roomName, pid, sid);
              && rooms == old(rooms).Set(roomId, room)
              && boardContents == old(boardContents)[roomId := map[]]
              && (bound.Some? ==> playerSocketMap == old(playerSocketMap) && socketPlayer == old(socketPlayer))
              && (bound.None? ==> playerSocketMap == old(playerSocketMap).Set(pid, sid) && socketPlayer == old(socketPlayer)[sid := pid])
              && events == (if bound.Some? then [] else [Emit(ToSocket(sid), AssignedPlayerId(pid))])
                           + [Emit(ToSocket(sid), RoomCreated(room)), Emit(ToAll, RoomListUpdate(RoomList(rooms)))]
    {
      var bound := BoundPlayer(socketPlayer, sid);
      var pid := if bound.Some? then bound.value else GeneratedId(suffix);
      var room := NewRoom(roomId, roomName, pid, sid);
      TablePut(rooms, roomId, room);
      // A socket without a player id is given one first.
      rooms, boardContents, socketPlayer, playerSocketMap :=
        rooms.Set(roomId, room), boardContents[roomId := map[]],
        if bound.Some? then socketPlayer else socketPlayer[sid := pid],
        if bound.Some? then playerSocketMap else playerSocketMap.Set(pid, sid);
      events := (if bound.Some? then [] else [Emit(ToSocket(sid), AssignedPlayerId(pid))])
                + [Emit(ToSocket(sid), RoomCreated(room)), Emit(ToAll, RoomListUpdate(RoomList(rooms)))];
    }

    /**
     * `joinRoom`: a member comes back (whatever the room's occupancy), a
     * newcomer is admitted while fewer than two players are connected.
     */
    method JoinRoom(sid: string, roomId: string, requested: Option<string>, suffix: string) returns (events: seq<Emit>)
      requires Valid()
      modifies this
      ensures Valid()
      ensures boardContents == old(boardContents)
      ensures roomId !in old(rooms).entries ==>
                && rooms == old(rooms) && playerSocketMap == old(playerSocketMap) && socketPlayer == old(socketPlayer)
                && disconnectTimeouts == old(disconnectTimeouts) && timers == old(timers)
                && events == [Emit(ToSocket(sid), JoinError(RoomMissing))]
      ensures roomId in old(rooms).entries ==>
                var pid := if Given(requested) then requested.value else GeneratedId(suffix);
                var room := old(rooms).entries[roomId];
                var out := Join(room, pid, sid);
                && (out.Full? ==>
                      && rooms == old(rooms) && playerSocketMap == old(playerSocketMap) && socketPlayer == old(socketPlayer)
                      && disconnectTimeouts == old(disconnectTimeouts) && timers == old(timers)
                      && events == [Emit(ToSocket(sid), JoinError(RoomFull))])
                && (out.Admitted? ==>
                      && rooms == old(rooms).Set(roomId, out.room)
                      && playerSocketMap == old(playerSocketMap).Set(pid, sid)
                      && socketPlayer == old(socketPlayer)[sid := pid]
                      && disconnectTimeouts == old(disconnectTimeouts) && timers == old(timers)
                      && events == JoinEvents(sid, roomId, pid, false, DisplayName(pid), out.room,
                                              BoardOf(boardContents, roomId), RoomList(rooms)))
                && (out.Rejoined? ==>
                      && rooms == old(rooms).Set(roomId, out.room)
                      && playerSocketMap == old(playerSocketMap).Set(pid, sid)
                      && socketPlayer == old(socketPlayer)[sid := pid]
                      && disconnectTimeouts == old(disconnectTimeouts) - {pid}
                      && timers == Cleared(old(timers), old(disconnectTimeouts), pid)
                      && events == JoinEvents(sid, roomId, pid, true, room.players[IndexOf(room.players, pid)].name, out.room,
                                              BoardOf(boardContents, roomId), RoomList(rooms)))
    {
      if roomId !in rooms.entries {
        events := [Emit(ToSocket(sid), JoinError(RoomMissing))];
        return;
      }
      var pid := if Given(requested) then requested.value else GeneratedId(suffix);
      var room := rooms.entries[roomId];
      var out := Join(room, pid, sid);
      if out.Full? {
        events := [Emit(ToSocket(sid), JoinError(RoomFull))];
        return;
      }
      // A returning player keeps their name.
      var name := if out.Rejoined? then room.players[IndexOf(room.players, pid)].name else DisplayName(pid);
      if out.Rejoined? {
        Rebind(sid, roomId, pid);
      } else {
        Seat(sid, roomId, pid);
      }
      events := JoinEvents(sid, roomId, pid, out.Rejoined?, name, out.room, BoardOf(boardContents, roomId), RoomList(rooms));
    }

    /**
     * A member of room `roomId` comes back on socket `sid`, through `joinRoom`
     * or `reconnectToGame`: their entry is rebound to the socket and marked
     * connected, and their pending removal is cancelled.
     */
    method Rebind(sid: string, roomId: string, pid: string)
      requires Valid() && roomId in rooms.entries && IsMember(rooms.entries[roomId].players, pid)
      modifies this
      ensures Valid()
      ensures boardContents == old(boardContents)
      ensures var room := old(rooms).entries[roomId];
              && rooms == old(rooms).Set(roomId, Reconnect(room, IndexOf(room.players, pid), sid))
              && playerSocketMap == old(playerSocketMap).Set(pid, sid)
              && socketPlayer == old(socketPlayer)[sid := pid]
              && disconnectTimeouts == old(disconnectTimeouts) - {pid}
              && timers == Cleared(old(timers), old(disconnectTimeouts), pid)
    {
      var room := rooms.entries[roomId];
      var i := IndexOf(room.players, pid);
      RebindKeepsTable(rooms, roomId, i, sid);
      rooms, playerSocketMap, socketPlayer, timers, disconnectTimeouts :=
        rooms.Set(roomId, Reconnect(room, i, sid)), playerSocketMap.Set(pid, sid), socketPlayer[sid := pid],
        Cleared(timers, disconnectTimeouts, pid), disconnectTimeouts - {pid};
    }

    /** A newcomer to room `roomId` is appended to its players, connected on socket `sid`. */
    method Seat(sid: string, roomId: string, pid: string)
      requires Valid() && roomId in rooms.entries && !IsMember(rooms.entries[roomId].players, pid)
      modifies this
      ensures Valid()
      ensures boardContents == old(boardContents) && disconnectTimeouts == old(disconnectTimeouts) && timers == old(timers)
      ensures var room := old(rooms).entries[roomId];
              && rooms == old(rooms).Set(roomId, room.(players := room.players + [Player(pid, sid, DisplayName(pid), true)]))
              && playerSocketMap == old(playerSocketMap).Set(pid, sid)
              && socketPlayer == old(socketPlayer)[sid := pid]
    {
      var room := rooms.entries[roomId];
      var joined := room.(players := room.players + [Player(pid, sid, DisplayName(pid), true)]);
      AppendKeepsRoomOk(roomId, room, pid, sid);
      TablePut(rooms, roomId, joined);
      rooms, playerSocketMap, socketPlayer :=
        rooms.Set(roomId, joined), playerSocketMap.Set(pid, sid), socketPlayer[sid := pid];
    }

    /** `startGame`: only the owner, only with two connected players, only once. */
    method StartGame(sid: string, roomId: string, pick: nat) returns (events: seq<Emit>)
      requires Valid()
      requires pick < |Words|
      modifies this
      ensures Valid()
      ensures boardContents == old(boardContents) && playerSocketMap == old(playerSocketMap)
      ensures disconnectTimeouts == old(disconnectTimeouts) && timers == old(timers) && socketPlayer == old(socketPlayer)
      ensures var refusal := StartRefusal(old(rooms).Get(roomId), BoundPlayer(old(socketPlayer), sid));
              && (refusal.Some? ==> rooms == old(rooms) && events == [Emit(ToSocket(sid), StartGameError(refusal.value))])
              && (refusal.None? ==>
                    && rooms == old(rooms).Set(roomId, old(rooms).entries[roomId].(gameState := Some(NewGame(pick))))
                    && events == [Emit(ToRoom(roomId), GameStarted(NewGame(pick)))])
    {
      var refusal := StartRefusal(rooms.Get(roomId), BoundPlayer(socketPlayer, sid));
      if refusal.Some? {
        events := [Emit(ToSocket(sid), StartGameError(refusal.value))];
        return;
      }
      var room := rooms.entries[roomId];
      var game := NewGame(pick);
      TablePut(rooms, roomId, room.(gameState := Some(game)));
      rooms := rooms.Set(roomId, room.(gameState := Some(game)));
      events := [Emit(ToRoom(roomId), GameStarted(game))];
    }

    /**
     * `makeGuess`: the guess is scored against the word, recorded in the game
     * and on the board, and broadcast; a win or a draw ends the game and
     * clears the board.
     */
    method MakeGuess(sid: string, roomId: string, guess: string, row: int) returns (events: seq<Emit>)
      requires Valid()
      modifies this
      ensures Valid()
      ensures playerSocketMap == old(playerSocketMap) && socketPlayer == old(socketPlayer)
      ensures disconnectTimeouts == old(disconnectTimeouts) && timers == old(timers)
      ensures !(roomId in old(rooms).entries && old(rooms).entries[roomId].gameState.Some? && BoundPlayer(old(socketPlayer), sid).Some?) ==>
                rooms == old(rooms) && boardContents == old(boardContents) && events == []
      ensures roomId in old(rooms).entries && old(rooms).entries[roomId].gameState.Some? && BoundPlayer(old(socketPlayer), sid).Some? ==>
                var room := old(rooms).entries[roomId];
                var pid := BoundPlayer(old(socketPlayer), sid).value;
                var game := room.gameState.value;
                var record := GuessRecord(pid, guess, Score(guess, game.word), row);
                var played := GameState(game.word, game.guesses + [record]);
                var end := RoundEndAfter(room.players, played, pid, guess);
                && rooms == old(rooms).Set(roomId, room.(gameState := if end.Continues? then Some(played) else None))
                && boardContents == (if end.Continues?
                                     then old(boardContents)[roomId := WithCell(BoardOf(old(boardContents), roomId), pid, row, Cell(guess, Some(record.result)))]
                                     else old(boardContents) - {roomId})
                && events == [Emit(ToRoom(roomId), GuessResult(record))]
                             + (if end.Continues? then []
                                else [Emit(ToRoom(roomId), GameOver(game.word, if end.Won? then Some(pid) else None))])
    {
      var bound := BoundPlayer(socketPlayer, sid);
      if roomId !in rooms.entries || rooms.entries[roomId].gameState.None? || bound.None? {
        events := [];
        return;
      }
      var room := rooms.entries[roomId];
      var pid := bound.value;
      var game := room.gameState.value;
      var result := CheckGuess(guess, game.word);
      var record := GuessRecord(pid, guess, result, row);
      var played := GameState(game.word, game.guesses + [record]);
      var end := RoundEndAfter(room.players, played, pid, guess);
      // The guess is recorded first; a decided round then clears the game and the board.
      var kept := room.(gameState := if end.Continues? then Some(played) else None);
      var boards := if end.Continues?
                    then boardContents[roomId := WithCell(BoardOf(boardContents, roomId), pid, row, Cell(guess, Some(result)))]
                    else boardContents - {roomId};
      TablePut(rooms, roomId, kept);
      rooms, boardContents := rooms.Set(roomId, kept), boards;
      events := [Emit(ToRoom(roomId), GuessResult(record))]
                + (if end.Continues? then [] else [Emit(ToRoom(roomId), GameOver(game.word, if end.Won? then Some(pid) else None))]);
    }

    /** `updateCurrentGuess`: the letters typed so far are put on the board and broadcast. */
    method UpdateCurrentGuess(sid: string, roomId: string, currentGuess: string, row: int) returns (events: seq<Emit>)
      requires Valid()
      modifies this
      ensures Valid()
      ensures rooms == old(rooms) && playerSocketMap == old(playerSocketMap) && socketPlayer == old(socketPlayer)
      ensures disconnectTimeouts == old(disconnectTimeouts) && timers == old(timers)
      ensures !(roomId in old(rooms).entries && old(rooms).entries[roomId].gameState.Some? && BoundPlayer(old(socketPlayer), sid).Some?) ==>
                boardContents == old(boardContents) && events == []
      ensures roomId in old(rooms).entries && old(rooms).entries[roomId].gameState.Some? && BoundPlayer(old(socketPlayer), sid).Some? ==>
                var pid := BoundPlayer(old(socketPlayer), sid).value;
                && boardContents == old(boardContents)[roomId := WithCell(BoardOf(old(boardContents), roomId), pid, row, Cell(currentGuess, None))]
                && events == [Emit(ToRoom(roomId), CurrentGuess(pid, currentGuess, row))]
    {
      var bound := BoundPlayer(socketPlayer, sid);
      if roomId !in rooms.entries || rooms.entries[roomId].gameState.None? || bound.None? {
        events := [];
        return;
      }
      var pid := bound.value;
      boardContents := boardContents[roomId := WithCell(BoardOf(boardContents, roomId), pid, row, Cell(currentGuess, None))];
      events := [Emit(ToRoom(roomId), CurrentGuess(pid, currentGuess, row))];
    }

    /** `reconnectToGame`: a disconnected member takes their place back on a new socket. */
    method ReconnectToGame(sid: string, roomId: string, pid: string) returns (events: seq<Emit>)
      requires Valid()
      modifies this
      ensures Valid()
      ensures boardContents == old(boardContents)
      ensures var refusal := ReconnectRefusal(old(rooms).Get(roomId), pid);
              && (refusal.Some? ==>
                    && rooms == old(rooms) && playerSocketMap == old(playerSocketMap) && socketPlayer == old(socketPlayer)
                    && disconnectTimeouts == old(disconnectTimeouts) && timers == old(timers)
                    && events == [Emit(ToSocket(sid), refusal.value)])
              && (refusal.None? ==>
                    var room := old(rooms).entries[roomId];
                    && rooms == old(rooms).Set(roomId, Reconnect(room, IndexOf(room.players, pid), sid))
                    && playerSocketMap == old(playerSocketMap).Set(pid, sid)
                    && socketPlayer == old(socketPlayer)[sid := pid]
                    && disconnectTimeouts == old(disconnectTimeouts) - {pid}
                    && timers == Cleared(old(timers), old(disconnectTimeouts), pid)
                    && events == [Emit(ToSocket(sid), Reconnected(pid, roomId)), Emit(ToRoom(roomId), PlayerReconnected(pid, None))]
                                 + (if room.gameState.Some?
                                    then [Emit(ToSocket(sid), GameStateUpdate(room.gameState.value, BoardOf(boardContents, roomId), None))]
                                    else []))
    {
      var refusal := ReconnectRefusal(rooms.Get(roomId), pid);
      if refusal.Some? {
        events := [Emit(ToSocket(sid), refusal.value)];
        return;
      }
      var room := rooms.entries[roomId];
      Rebind(sid, roomId, pid);
      events := [Emit(ToSocket(sid), Reconnected(pid, roomId)), Emit(ToRoom(roomId), PlayerReconnected(pid, None))]
                + (if room.gameState.Some?
                   then [Emit(ToSocket(sid), GameStateUpdate(room.gameState.value, BoardOf(boardContents, roomId), None))]
                   else []);
    }

    /** `requestGameState`: the running game, its board and the roster, to the caller only. */
    method RequestGameState(sid: string, roomId: string) returns (events: seq<Emit>)
      requires Valid()
      ensures !(roomId in rooms.entries && rooms.entries[roomId].gameState.Some?) ==> events == []
      ensures roomId in rooms.entries && rooms.entries[roomId].gameState.Some? ==>
                var room := rooms.entries[roomId];
                && |events| == 1 && events[0].to == ToSocket(sid)
                && events[0].msg.GameStateUpdate?
                && events[0].msg.game == room.gameState.value
                && events[0].msg.board == BoardOf(boardContents, roomId)
                && events[0].msg.lobby.Some?
                && var lobby := events[0].msg.lobby.value;
                   && lobby.id == room.id && lobby.name == room.name && lobby.creator == room.creator
                   && |lobby.roster| == |room.players|
                   && forall i :: 0 <= i < |room.players| ==>
                        lobby.roster[i] == RosterEntry(room.players[i].id, room.players[i].name)
    {
      events := [];
      if roomId in rooms.entries && rooms.entries[roomId].gameState.Some? {
        var room := rooms.entries[roomId];
        var roster := seq(|room.players|, i requires 0 <= i < |room.players| => RosterEntry(room.players[i].id, room.players[i].name));
        events := [Emit(ToSocket(sid), GameStateUpdate(room.gameState.value, BoardOf(boardContents, roomId),
                                                       Some(Lobby(room.id, room.name, room.creator, roster))))];
      }
    }

    /**
     * `disconnect`: the player bound to the socket, if any, is dropped from
     * `playerSocketMap` and marked disconnected everywhere.
     */
    method Disconnect(sid: string) returns (events: seq<Emit>)
      requires Valid()
      modifies this
      ensures Valid()
      ensures boardContents == old(boardContents)
      ensures socketPlayer == old(socketPlayer) - {sid}
      ensures var bound := FirstKeyWith(old(playerSocketMap).keys, old(playerSocketMap).entries, sid);
              !Given(bound) ==>
                && rooms == old(rooms) && playerSocketMap == old(playerSocketMap)
                && disconnectTimeouts == old(disconnectTimeouts) && timers == old(timers) && events == []
      ensures var bound := FirstKeyWith(old(playerSocketMap).keys, old(playerSocketMap).entries, sid);
              Given(bound) ==>
                var pid := bound.value;
                var armed := DisconnectTimers(old(rooms).keys, old(rooms).entries, pid);
                && playerSocketMap == old(playerSocketMap).Delete(pid)
                && rooms == OMap(old(rooms).keys, MarkedEverywhere(old(rooms).entries, pid))
                && timers == old(timers) + Arm(armed)
                && disconnectTimeouts == (if armed == [] then old(disconnectTimeouts)
                                          else old(disconnectTimeouts)[pid := LastHandle(|old(timers)|, armed)])
                && events == Notices(armed)
      ensures var bound := FirstKeyWith(old(playerSocketMap).keys, old(playerSocketMap).entries, sid);
              Given(bound) ==>
                var armed := DisconnectTimers(old(rooms).keys, old(rooms).entries, bound.value);
                armed != [] ==> bound.value in disconnectTimeouts && disconnectTimeouts[bound.value] < |timers|
                                && timers[disconnectTimeouts[bound.value]] == Some(armed[|armed| - 1])
    {
      var bound := FindBoundPlayer(playerSocketMap, sid);
      socketPlayer := socketPlayer - {sid};
      events := [];
      if Given(bound) {
        events := DisconnectPlayer(bound.value);
      }
    }

    /**
     * The body of `disconnect` once the player is known: each room the player
     * is in, in insertion order, marks them disconnected, announces it and arms
     * a removal timer; only the last handle is remembered.
     */
    method DisconnectPlayer(pid: string) returns (events: seq<Emit>)
      requires Valid()
      modifies this
      ensures Valid()
      ensures boardContents == old(boardContents) && socketPlayer == old(socketPlayer)
      ensures var armed := DisconnectTimers(old(rooms).keys, old(rooms).entries, pid);
              && playerSocketMap == old(playerSocketMap).Delete(pid)
              && rooms == OMap(old(rooms).keys, MarkedEverywhere(old(rooms).entries, pid))
              && timers == old(timers) + Arm(armed)
              && disconnectTimeouts == (if armed == [] then old(disconnectTimeouts)
                                        else old(disconnectTimeouts)[pid := LastHandle(|old(timers)|, armed)])
              && events == Notices(armed)
      ensures var armed := DisconnectTimers(old(rooms).keys, old(rooms).entries, pid);
              armed != [] ==> pid in disconnectTimeouts && disconnectTimeouts[pid] < |timers|
                              && timers[disconnectTimeouts[pid]] == Some(armed[|armed| - 1])
    {
      MarkKeepsTable(rooms, pid);
      var entries, armed := MarkAndCollect(rooms.keys, rooms.entries, pid);
      var handles := if armed == [] then disconnectTimeouts else disconnectTimeouts[pid := LastHandle(|timers|, armed)];
      if armed != [] {
        LastHandleHoldsLastTimer(timers, armed);
      }
      playerSocketMap, rooms, timers, disconnectTimeouts :=
        playerSocketMap.Delete(pid), OMap(rooms.keys, entries), timers + Arm(armed), handles;
      events := Notices(armed);
    }

    /**
     * `kickPlayer`: the owner removes a member; a running game is reset; the
     * owner stays the owner even when they kicked themself; an emptied room
     * is deleted.
     */
    method KickPlayer(sid: string, roomId: string, target: string) returns (events: seq<Emit>)
      requires Valid()
      modifies this
      ensures Valid()
      ensures playerSocketMap == old(playerSocketMap) && socketPlayer == old(socketPlayer)
      ensures disconnectTimeouts == old(disconnectTimeouts) && timers == old(timers)
      ensures roomId !in old(rooms).entries ==> rooms == old(rooms) && boardContents == old(boardContents) && events == []
      ensures roomId in old(rooms).entries ==>
                var room := old(rooms).entries[roomId];
                var refusal := KickRefusal(room, BoundPlayer(old(socketPlayer), sid), target);
                && (refusal.Some? ==>
                      rooms == old(rooms) && boardContents == old(boardContents)
                      && events == [Emit(ToSocket(sid), KickPlayerError(refusal.value))])
                && (refusal.None? ==>
                      var kicked := Kick(room, target);
                      && rooms == RoomsAfterKick(old(rooms), roomId, target)
                      && boardContents == BoardsAfterKick(old(rooms), old(boardContents), roomId, target)
                      && events == KickEvents(roomId, target, room.players[IndexOf(room.players, target)].socketId,
                                              room.gameState.Some?, kicked,
                                              RoomList(old(rooms).Set(roomId, kicked)), RoomList(rooms)))
    {
      if roomId !in rooms.entries {
        events := [];
        return;
      }
      var room := rooms.entries[roomId];
      var refusal := KickRefusal(room, BoundPlayer(socketPlayer, sid), target);
      if refusal.Some? {
        events := [Emit(ToSocket(sid), KickPlayerError(refusal.value))];
        return;
      }
      var victim := room.players[IndexOf(room.players, target)];
      var kicked := Kick(room, target);
      var listed := RoomList(rooms.Set(roomId, kicked));
      KickKeepsTable(rooms, roomId, target);
      rooms, boardContents := RoomsAfterKick(rooms, roomId, target), BoardsAfterKick(rooms, boardContents, roomId, target);
      events := KickEvents(roomId, target, victim.socketId, room.gameState.Some?, kicked, listed, RoomList(rooms));
    }

    /** `handlePlayerRemoval(room, roomId, idx)`. */
    method HandlePlayerRemoval(roomId: string, idx: nat) returns (events: seq<Emit>)
      requires Valid()
      requires roomId in rooms.entries && idx < |rooms.entries[roomId].players|
      modifies this
      ensures Valid()
      ensures playerSocketMap == old(playerSocketMap) && socketPlayer == old(socketPlayer)
      ensures disconnectTimeouts == old(disconnectTimeouts) && timers == old(timers)
      ensures rooms == RoomsAfterRemoval(old(rooms), roomId, idx)
      ensures boardContents == BoardsAfterRemoval(old(rooms), old(boardContents), roomId, idx)
      ensures events == RemovalEvents(old(rooms), roomId, idx)
    {
      RemovalKeepsTable(rooms, roomId, idx);
      events := RemovalEvents(rooms, roomId, idx);
      rooms, boardContents := RoomsAfterRemoval(rooms, roomId, idx), BoardsAfterRemoval(rooms, boardContents, roomId, idx);
    }

    /**
     * A removal timer fires, as written: the player is still disconnected, so
     * the index captured at disconnect time is removed even if the roster has
     * shifted since; an index past the end throws (`crashed`).
     */
    method FireTimer(h: nat) returns (events: seq<Emit>, crashed: bool)
      requires Valid()
      requires h < |timers| && timers[h].Some?
      modifies this
      ensures Valid()
      ensures playerSocketMap == old(playerSocketMap) && socketPlayer == old(socketPlayer)
      ensures disconnectTimeouts == old(disconnectTimeouts) && timers == old(timers)[h := None]
      ensures var t := old(timers)[h].value;
              var action := if t.roomId in old(rooms).entries
                            then FireDecision(old(rooms).entries[t.roomId], t.playerId, t.playerIndex) else Skip;
              && crashed == action.Crash?
              && (action.RemoveIndex? ==>
                    && action.index < |old(rooms).entries[t.roomId].players|
                    && rooms == RoomsAfterRemoval(old(rooms), t.roomId, action.index)
                    && boardContents == BoardsAfterRemoval(old(rooms), old(boardContents), t.roomId, action.index)
                    && events == RemovalEvents(old(rooms), t.roomId, action.index))
              && (!action.RemoveIndex? ==> rooms == old(rooms) && boardContents == old(boardContents) && events == [])
    {
      var t := timers[h].value;
      timers := timers[h := None];
      events := [];
      crashed := false;
      if t.roomId in rooms.entries {
        var action := FireDecision(rooms.entries[t.roomId], t.playerId, t.playerIndex);
        match action
        case Skip =>
        case Crash =>
          crashed := true;
        case RemoveIndex(i) =>
          events := HandlePlayerRemoval(t.roomId, i);
      }
    }

    /** The removal timer as intended: it removes the player it was armed for, wherever they now are. */
    method FireTimerById(h: nat) returns (events: seq<Emit>)
      requires Valid()
      requires h < |timers| && timers[h].Some?
      modifies this
      ensures Valid()
      ensures playerSocketMap == old(playerSocketMap) && socketPlayer == old(socketPlayer)
      ensures disconnectTimeouts == old(disconnectTimeouts) && timers == old(timers)[h := None]
      ensures var t := old(timers)[h].value;
              var action := if t.roomId in old(rooms).entries
                            then FireDecisionById(old(rooms).entries[t.roomId], t.playerId) else Skip;
              && (action.RemoveIndex? ==>
                    && old(rooms).entries[t.roomId].players[action.index].id == t.playerId
                    && rooms == RoomsAfterRemoval(old(rooms), t.roomId, action.index)
                    && boardContents == BoardsAfterRemoval(old(rooms), old(boardContents), t.roomId, action.index)
                    && events == RemovalEvents(old(rooms), t.roomId, action.index))
              && (!action.RemoveIndex? ==> rooms == old(rooms) && boardContents == old(boardContents) && events == [])
    {
      var t := timers[h].value;
      timers := timers[h := None];
      events := [];
      if t.roomId in rooms.entries {
        var action := FireDecisionById(rooms.entries[t.roomId], t.playerId);
        if action.RemoveIndex? {
          events := HandlePlayerRemoval(t.roomId, action.index);
        }
      }
    }
  }
}
