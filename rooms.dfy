/**
 * Rooms of the multiplayer Wordle server as values: players, the running game,
 * and the pure transitions the socket handlers apply to one room (a player
 * joining or rejoining, being removed after the grace period, being kicked,
 * the end of a round) together with what the disconnect timer decides to do
 * when it fires.
 */
module Rooms {
  import opened Wrappers
  import opened GuessEvaluator

  datatype Player = Player(id: string, socketId: string, name: string, connected: bool)

  /** One submitted guess as recorded in the game state and broadcast as `guessResult`. */
  datatype GuessRecord = GuessRecord(playerId: string, guess: string, result: seq<Verdict>, row: int)

  datatype GameState = GameState(word: string, guesses: seq<GuessRecord>)

  datatype Room = Room(id: string, name: string, creator: string, players: seq<Player>, gameState: Option<GameState>)

  /** A player as shown to clients in `roomJoined` and `roomStateUpdate` (no socket id). */
  datatype PlayerView = PlayerView(id: string, name: string, connected: bool)

  datatype RoomView = RoomView(id: string, name: string, creator: string, players: seq<PlayerView>)

  /** One entry of the lobby's room list. */
  datatype RoomSummary = RoomSummary(id: string, name: string, playerCount: nat)

  /** A room admits a new player only while fewer than this many are connected. */
  const Capacity: nat := 2

  /** A player who has made this many guesses is out of guesses. */
  const MaxGuesses: nat := 6

  const Words: seq<string> := ["APPLE", "BEACH", "CHAIR", "DANCE", "EAGLE"]

  /** A fresh game; `pick` stands for `Math.floor(Math.random() * words.length)`. */
  function NewGame(pick: nat): (g: GameState)
    requires pick < |Words|
    ensures g.word in Words && |g.word| == Slots
    ensures g.guesses == []
  {
    GameState(Words[pick], [])
  }

  /** `Player ${id.substr(0, 4)}`. */
  function DisplayName(pid: string): string
  {
    "Player " + pid[..Min(4, |pid|)]
  }

  /** A display name is `Player ` followed by the first four characters of the id, or all of a shorter id. */
  lemma DisplayNameShape(pid: string)
    ensures var n := DisplayName(pid);
            && |n| == 7 + Min(4, |pid|) && n[..7] == "Player "
            && n[7..] == pid[..Min(4, |pid|)] && pid[..|n| - 7] == n[7..]
  {
  }

  function ConnectedCount(ps: seq<Player>): (n: nat)
    ensures n <= |ps|
  {
    if ps == [] then 0
    else ConnectedCount(ps[..|ps| - 1]) + (if ps[|ps| - 1].connected then 1 else 0)
  }

  predicate IsMember(ps: seq<Player>, pid: string)
  {
    exists i :: 0 <= i < |ps| && ps[i].id == pid
  }

  predicate UniqueIds(ps: seq<Player>)
  {
    forall i, j :: 0 <= i < j < |ps| ==> ps[i].id != ps[j].id
  }

  /** `players.findIndex(p => p.id === pid)`: the first position holding `pid`, or -1. */
  function IndexOf(ps: seq<Player>, pid: string): (i: int)
    ensures -1 <= i < |ps|
    ensures i >= 0 ==> ps[i].id == pid && forall j :: 0 <= j < i ==> ps[j].id != pid
    ensures i == -1 <==> !IsMember(ps, pid)
  {
    if ps == [] then -1
    else if ps[0].id == pid then 0
    else
      var k := IndexOf(ps[1..], pid);
      assert IsMember(ps[1..], pid) ==> IsMember(ps, pid);
      assert IsMember(ps, pid) ==> IsMember(ps[1..], pid) by {
        if IsMember(ps, pid) {
          var j :| 0 <= j < |ps| && ps[j].id == pid;
          assert ps[1..][j - 1].id == pid;
        }
      }
      if k == -1 then -1 else k + 1
  }

  /** `players.find(p => p.id === pid && !p.connected)` is defined. */
  predicate StillDisconnected(ps: seq<Player>, pid: string)
  {
    exists i :: 0 <= i < |ps| && ps[i].id == pid && !ps[i].connected
  }

  /** `players.find(p => p.id !== pid && p.connected)`. */
  function FirstOtherConnected(ps: seq<Player>, pid: string): (r: Option<Player>)
    ensures r.Some? ==> r.value in ps && r.value.id != pid && r.value.connected
    ensures r.None? ==> forall p :: p in ps ==> p.id == pid || !p.connected
    ensures r.Some? ==> exists i :: 0 <= i < |ps| && ps[i] == r.value
                                    && forall j :: 0 <= j < i ==> ps[j].id == pid || !ps[j].connected
  {
    if ps == [] then None
    else if ps[0].id != pid && ps[0].connected then Some(ps[0])
    else
      var r := FirstOtherConnected(ps[1..], pid);
      assert r.Some? ==> exists i :: 0 <= i < |ps| && ps[i] == r.value
                                     && forall j :: 0 <= j < i ==> ps[j].id == pid || !ps[j].connected by {
        if r.Some? {
          var i :| 0 <= i < |ps[1..]| && ps[1..][i] == r.value
                   && forall j :: 0 <= j < i ==> ps[1..][j].id == pid || !ps[1..][j].connected;
          assert ps[i + 1] == r.value;
          assert forall j :: 1 <= j < i + 1 ==> ps[j] == ps[1..][j - 1];
        }
      }
      r
  }

  /** `guesses.filter(g => g.playerId === pid).length`. */
  function GuessesBy(gs: seq<GuessRecord>, pid: string): (n: nat)
    ensures n <= |gs|
    ensures n == 0 <== forall g :: g in gs ==> g.playerId != pid
  {
    if gs == [] then 0
    else GuessesBy(gs[..|gs| - 1], pid) + (if gs[|gs| - 1].playerId == pid then 1 else 0)
  }

  /** Recording one more guess adds one to its author's count and leaves everyone else's. */
  lemma {:induction false} GuessesByAppend(gs: seq<GuessRecord>, g: GuessRecord, pid: string)
    ensures GuessesBy(gs + [g], pid) == GuessesBy(gs, pid) + (if g.playerId == pid then 1 else 0)
  {
    assert (gs + [g])[..|gs + [g]| - 1] == gs;
  }

  function Summary(room: Room): (s: RoomSummary)
    ensures s.id == room.id && s.name == room.name
    ensures s.playerCount == ConnectedCount(room.players) <= |room.players|
  {
    RoomSummary(room.id, room.name, ConnectedCount(room.players))
  }

  /** The room as `roomJoined` and `roomStateUpdate` show it. */
  function View(room: Room): (v: RoomView)
    ensures v.id == room.id && v.name == room.name && v.creator == room.creator
    ensures |v.players| == |room.players|
    ensures forall i :: 0 <= i < |v.players| ==>
              && v.players[i].id == room.players[i].id && v.players[i].name == room.players[i].name
              && v.players[i].connected == room.players[i].connected
  {
    RoomView(room.id, room.name, room.creator,
             seq(|room.players|, i requires 0 <= i < |room.players| =>
                   PlayerView(room.players[i].id, room.players[i].name, room.players[i].connected)))
  }

  /** The room a player creates: its only member, connected, and its owner. */
  function NewRoom(roomId: string, roomName: string, pid: string, sid: string): (r: Room)
    ensures r.id == roomId && r.name == roomName && r.creator == pid && r.gameState.None?
    ensures |r.players| == 1 && r.players[0].id == pid && r.players[0].socketId == sid && r.players[0].connected
    ensures r.players[0].name == DisplayName(pid)
    ensures UniqueIds(r.players) && IsMember(r.players, r.creator)
  {
    Room(roomId, roomName, pid, [Player(pid, sid, DisplayName(pid), true)], None)
  }

  // ---------------------------------------------------------------------------
  // Joining and rejoining

  /** The player at position `i` comes back on socket `sid`. */
  function Reconnect(room: Room, i: nat, sid: string): (r: Room)
    requires i < |room.players|
    ensures |r.players| == |room.players|
    ensures forall j :: 0 <= j < |r.players| ==> r.players[j].id == room.players[j].id
    ensures r.players[i].socketId == sid && r.players[i].connected && r.players[i].name == room.players[i].name
    ensures forall j :: 0 <= j < |r.players| && j != i ==> r.players[j] == room.players[j]
    ensures r.id == room.id && r.name == room.name && r.creator == room.creator && r.gameState == room.gameState
  {
    room.(players := room.players[i := room.players[i].(socketId := sid, connected := true)])
  }

  /** The disconnect handler's update of one room: the player's first entry is marked disconnected. */
  function MarkedDisconnected(room: Room, pid: string): (r: Room)
    ensures |r.players| == |room.players|
    ensures forall j :: 0 <= j < |r.players| ==> r.players[j].id == room.players[j].id
    ensures IsMember(room.players, pid) ==> StillDisconnected(r.players, pid)
    ensures IsMember(room.players, pid) ==>
              r.players[IndexOf(room.players, pid)] == room.players[IndexOf(room.players, pid)].(connected := false)
    ensures forall j :: 0 <= j < |r.players| && j != IndexOf(room.players, pid) ==> r.players[j] == room.players[j]
    ensures !IsMember(room.players, pid) ==> r == room
    ensures r.id == room.id && r.name == room.name && r.creator == room.creator && r.gameState == room.gameState
  {
    var i := IndexOf(room.players, pid);
    if i < 0 then room
    else
      var r := room.(players := room.players[i := room.players[i].(connected := false)]);
      assert r.players[i].id == pid && !r.players[i].connected;
      r
  }

  datatype JoinOutcome = Rejoined(room: Room) | Admitted(room: Room) | Full

  /** `joinRoom` on an existing room, for the player id it settled on. */
  function Join(room: Room, pid: string, sid: string): (out: JoinOutcome)
    ensures out.Rejoined? <==> IsMember(room.players, pid)
    ensures out.Full? <==> !IsMember(room.players, pid) && ConnectedCount(room.players) >= Capacity
    ensures out.Rejoined? ==> out.room == Reconnect(room, IndexOf(room.players, pid), sid)
    ensures out.Admitted? ==> out.room == room.(players := room.players + [Player(pid, sid, DisplayName(pid), true)])
  {
    var i := IndexOf(room.players, pid);
    if i >= 0 then Rejoined(Reconnect(room, i, sid))
    else if ConnectedCount(room.players) >= Capacity then Full
    else Admitted(room.(players := room.players + [Player(pid, sid, DisplayName(pid), true)]))
  }

  lemma {:induction false} ConnectedCountAppend(ps: seq<Player>, p: Player)
    ensures ConnectedCount(ps + [p]) == ConnectedCount(ps) + (if p.connected then 1 else 0)
  {
    assert (ps + [p])[..|ps + [p]| - 1] == ps;
  }

  /** A newcomer is admitted only into a room with room for them. */
  lemma JoinAdmitsWithinCapacity(room: Room, pid: string, sid: string)
    ensures Join(room, pid, sid).Admitted? ==> ConnectedCount(Join(room, pid, sid).room.players) <= Capacity
  {
    if Join(room, pid, sid).Admitted? {
      ConnectedCountAppend(room.players, Player(pid, sid, DisplayName(pid), true));
    }
  }

  /** Joining keeps one entry per player id, and the joiner is a member afterwards. */
  lemma JoinKeepsIdsUnique(room: Room, pid: string, sid: string)
    requires UniqueIds(room.players)
    ensures !Join(room, pid, sid).Full? ==>
              UniqueIds(Join(room, pid, sid).room.players) && IsMember(Join(room, pid, sid).room.players, pid)
  {
    var out := Join(room, pid, sid);
    if out.Admitted? {
      var ps := out.room.players;
      assert ps[|ps| - 1].id == pid;
      forall i, j | 0 <= i < j < |ps| ensures ps[i].id != ps[j].id {
        if j == |ps| - 1 {
          assert ps[i] == room.players[i];
        }
      }
    } else if out.Rejoined? {
      assert out.room.players[IndexOf(room.players, pid)].id == pid;
    }
  }

  /** A second `joinRoom` with the same id is a rejoin: it never adds a second entry. */
  lemma JoinTwiceRejoins(room: Room, pid: string, sid1: string, sid2: string)
    requires !Join(room, pid, sid1).Full?
    ensures Join(Join(room, pid, sid1).room, pid, sid2).Rejoined?
    ensures |Join(Join(room, pid, sid1).room, pid, sid2).room.players| == |Join(room, pid, sid1).room.players|
  {
    var first := Join(room, pid, sid1).room;
    if Join(room, pid, sid1).Admitted? {
      assert first.players[|first.players| - 1].id == pid;
    } else {
      assert first.players[IndexOf(room.players, pid)].id == pid;
    }
    assert IsMember(first.players, pid);
  }

  /**
   * The capacity check applies to newcomers only: a room with two connected
   * players and one disconnected one ends up with three connected players when
   * the third rejoins through `joinRoom`.
   */
  lemma RejoinBypassesCapacity()
    ensures var room := Room("r", "lobby", "a", [Player("a", "s1", "Player a", true),
                                                 Player("b", "s2", "Player b", true),
                                                 Player("c", "s3", "Player c", false)], None);
            && ConnectedCount(room.players) == Capacity
            && Join(room, "c", "s4").Rejoined?
            && ConnectedCount(Join(room, "c", "s4").room.players) == Capacity + 1
  {
    var room := Room("r", "lobby", "a", [Player("a", "s1", "Player a", true),
                                         Player("b", "s2", "Player b", true),
                                         Player("c", "s3", "Player c", false)], None);
    assert room.players[2].id == "c";
    var after := Join(room, "c", "s4").room;
    assert after.players == [Player("a", "s1", "Player a", true),
                             Player("b", "s2", "Player b", true),
                             Player("c", "s4", "Player c", true)];
  }

  // ---------------------------------------------------------------------------
  // Removal after the grace period, and kicking

  /**
   * `handlePlayerRemoval` on one room: splice out position `idx`; if the owner
   * left and someone remains, the first remaining player becomes the owner; a
   * running game is abandoned once fewer than two connected players remain.
   * (When nobody remains the server deletes the room instead.)
   */
  function RemoveAt(room: Room, idx: nat): (r: Room)
    requires idx < |room.players|
    ensures r.players == room.players[..idx] + room.players[idx + 1..]
    ensures r.id == room.id && r.name == room.name
    ensures r.creator == (if room.creator == room.players[idx].id && |r.players| > 0 then r.players[0].id else room.creator)
    ensures r.gameState == (if room.gameState.Some? && ConnectedCount(r.players) < Capacity then None else room.gameState)
  {
    var ps := room.players[..idx] + room.players[idx + 1..];
    var creator := if room.creator == room.players[idx].id && |ps| > 0 then ps[0].id else room.creator;
    var game := if room.gameState.Some? && ConnectedCount(ps) < Capacity then None else room.gameState;
    room.(players := ps, creator := creator, gameState := game)
  }

  /** While anyone remains, the owner of a room is one of its players. */
  lemma RemovalKeepsOwnerPresent(room: Room, idx: nat)
    requires idx < |room.players|
    requires IsMember(room.players, room.creator)
    ensures |RemoveAt(room, idx).players| > 0 ==> IsMember(RemoveAt(room, idx).players, RemoveAt(room, idx).creator)
  {
    var r := RemoveAt(room, idx);
    if |r.players| > 0 {
      if room.creator == room.players[idx].id {
        assert r.players[0].id == r.creator;
      } else {
        var j :| 0 <= j < |room.players| && room.players[j].id == room.creator;
        if j < idx {
          assert r.players[j] == room.players[j];
        } else {
          assert r.players[j - 1] == room.players[j];
        }
      }
    }
  }

  /** Removal takes out exactly the player at `idx` and keeps one entry per id. */
  lemma RemovalMembers(room: Room, idx: nat, x: string)
    requires idx < |room.players|
    requires UniqueIds(room.players)
    ensures UniqueIds(RemoveAt(room, idx).players)
    ensures IsMember(RemoveAt(room, idx).players, x) <==> IsMember(room.players, x) && x != room.players[idx].id
  {
    var ps := room.players;
    var r := RemoveAt(room, idx).players;
    assert forall j :: 0 <= j < |r| ==> r[j] == (if j < idx then ps[j] else ps[j + 1]);
    if IsMember(room.players, x) && x != room.players[idx].id {
      var j :| 0 <= j < |ps| && ps[j].id == x;
      assert r[if j < idx then j else j - 1].id == x;
    }
  }

  /** `players.filter(p => p.id !== target)`. */
  function WithoutPlayer(ps: seq<Player>, target: string): (r: seq<Player>)
    ensures forall p :: p in r <==> p in ps && p.id != target
    ensures UniqueIds(ps) ==> UniqueIds(r)
    ensures r != [] ==> exists i :: 0 <= i < |ps| && ps[i] == r[0] && forall j :: 0 <= j < i ==> ps[j].id == target
  {
    if ps == [] then []
    else if ps[0].id == target then
      var r := WithoutPlayer(ps[1..], target);
      assert r != [] ==> exists i :: 0 <= i < |ps| && ps[i] == r[0] && forall j :: 0 <= j < i ==> ps[j].id == target by {
        if r != [] {
          var i :| 0 <= i < |ps[1..]| && ps[1..][i] == r[0] && forall j :: 0 <= j < i ==> ps[1..][j].id == target;
          assert ps[i + 1] == r[0];
          assert forall j :: 1 <= j < i + 1 ==> ps[j] == ps[1..][j - 1];
        }
      }
      r
    else
      var rest := WithoutPlayer(ps[1..], target);
      assert UniqueIds(ps) ==> UniqueIds(ps[1..]) && forall p :: p in ps[1..] ==> p.id != ps[0].id;
      assert ([ps[0]] + rest)[0] == ps[0];
      [ps[0]] + rest
  }

  /** `filter` keeps the order: filtering two lists one after the other is filtering their concatenation. */
  lemma {:induction false} WithoutPlayerSplits(a: seq<Player>, b: seq<Player>, target: string)
    ensures WithoutPlayer(a + b, target) == WithoutPlayer(a, target) + WithoutPlayer(b, target)
    decreases |a|
  {
    if a == [] {
      assert a + b == b;
    } else {
      assert (a + b)[0] == a[0] && (a + b)[1..] == a[1..] + b;
      WithoutPlayerSplits(a[1..], b, target);
      if a[0].id != target {
        AppendAssoc([a[0]], WithoutPlayer(a[1..], target), WithoutPlayer(b, target));
      }
    }
  }

  /** A single player is kept exactly when they are not the target. */
  lemma WithoutPlayerOne(p: Player, target: string)
    ensures WithoutPlayer([p], target) == if p.id != target then [p] else []
  {
    assert [p][1..] == [];
  }

  /** `kickPlayer` on one room: the target's entries go, a running game is reset, the owner stays. */
  function Kick(room: Room, target: string): (r: Room)
    ensures r.id == room.id && r.name == room.name && r.creator == room.creator
    ensures r.gameState.None?
    ensures forall p :: p in r.players <==> p in room.players && p.id != target
    ensures r.players == WithoutPlayer(room.players, target)
  {
    room.(players := WithoutPlayer(room.players, target), gameState := None)
  }

  /** Kicking removes the target and nobody else. */
  lemma KickRemovesOnlyTarget(room: Room, target: string, x: string)
    ensures IsMember(Kick(room, target).players, x) <==> IsMember(room.players, x) && x != target
  {
    var r := Kick(room, target).players;
    if IsMember(r, x) {
      var j :| 0 <= j < |r| && r[j].id == x;
      assert r[j] in room.players;
    }
    if IsMember(room.players, x) && x != target {
      var j :| 0 <= j < |room.players| && room.players[j].id == x;
      assert room.players[j] in r;
    }
  }

  /**
   * Ownership is never handed over on a kick, so an owner who kicks themself
   * leaves a room whose owner is no longer a member.
   */
  lemma SelfKickLeavesNoOwner(room: Room)
    ensures !IsMember(Kick(room, room.creator).players, Kick(room, room.creator).creator)
  {
    KickRemovesOnlyTarget(room, room.creator, room.creator);
  }

  // ---------------------------------------------------------------------------
  // End of a round

  datatype RoundEnd = Won(winner: string) | Drawn | Continues

  /**
   * How `makeGuess` ends, given the game with the new guess already recorded:
   * the guesser wins with the word itself; otherwise the round is drawn once
   * the guesser has used six guesses and either no other connected player
   * exists or the first one has used six too.
   */
  function RoundEndAfter(players: seq<Player>, played: GameState, pid: string, guess: string): (e: RoundEnd)
    ensures e.Won? <==> guess == played.word
    ensures e.Won? ==> e.winner == pid
    ensures e.Drawn? ==> GuessesBy(played.guesses, pid) >= MaxGuesses
    ensures e.Drawn? ==> forall q :: q in players && q.connected && q.id != pid && GuessesBy(played.guesses, q.id) < MaxGuesses
                                    ==> FirstOtherConnected(players, pid).Some? && FirstOtherConnected(players, pid).value != q
    ensures e.Continues? <==>
              (&& guess != played.word
               && (|| GuessesBy(played.guesses, pid) < MaxGuesses
                   || (&& FirstOtherConnected(players, pid).Some?
                       && GuessesBy(played.guesses, FirstOtherConnected(players, pid).value.id) < MaxGuesses)))
  {
    if guess == played.word then Won(pid)
    else if GuessesBy(played.guesses, pid) >= MaxGuesses then
      match FirstOtherConnected(players, pid)
      case None => Drawn
      case Some(other) => if GuessesBy(played.guesses, other.id) >= MaxGuesses then Drawn else Continues
    else Continues
  }

  /** The player who guesses the hidden word wins at once, whatever the guess counts. */
  lemma {:induction false} WordGuessedIsWon(players: seq<Player>, played: GameState, pid: string)
    ensures RoundEndAfter(players, played, pid, played.word) == Won(pid)
    ensures Score(played.word, played.word) == seq(Slots, _ => Correct) <== |played.word| == Slots
  {
    if |played.word| == Slots {
      AllCorrectIffWord(played.word, played.word);
    }
  }

  // ---------------------------------------------------------------------------
  // The disconnect timer

  /** What a disconnect timer's callback does with the room it finds. */
  datatype TimerAction = Skip | RemoveIndex(index: nat) | Crash

  /**
   * The callback as written: if the player is still disconnected it removes
   * position `captured`, the index the player had when the timer was armed;
   * an index past the end makes `splice` return nothing and the `.id` read throw.
   */
  function FireDecision(room: Room, pid: string, captured: nat): (d: TimerAction)
    ensures d.Skip? <==> !StillDisconnected(room.players, pid)
    ensures d.Crash? <==> StillDisconnected(room.players, pid) && captured >= |room.players|
    ensures d.RemoveIndex? ==> d.index == captured < |room.players|
  {
    if !StillDisconnected(room.players, pid) then Skip
    else if captured < |room.players| then RemoveIndex(captured)
    else Crash
  }

  /** The intended callback: remove the player it was armed for, wherever they now are. */
  function FireDecisionById(room: Room, pid: string): (d: TimerAction)
    ensures !d.Crash?
    ensures d.Skip? <==> !StillDisconnected(room.players, pid)
    ensures d.RemoveIndex? ==> d.index < |room.players| && room.players[d.index].id == pid
  {
    if !StillDisconnected(room.players, pid) then Skip
    else
      var i := IndexOf(room.players, pid);
      assert IsMember(room.players, pid);
      RemoveIndex(i)
  }

  /**
   * Both players of ["A", "B"] disconnect; A's timer fires first and removes
   * index 0.  B's timer still holds index 1 and crashes on the one-player room.
   */
  lemma StaleIndexCrashes()
    ensures var room := Room("r", "lobby", "B", [Player("B", "s2", "Player B", false)], None);
            FireDecision(room, "B", 1) == Crash && FireDecisionById(room, "B") == RemoveIndex(0)
  {
    var room := Room("r", "lobby", "B", [Player("B", "s2", "Player B", false)], None);
    assert room.players[0].id == "B" && !room.players[0].connected;
  }

  /**
   * After A at index 0 is kicked, B's pending timer still holds index 1, which
   * now belongs to C: the connected C is removed while B stays.
   */
  lemma StaleIndexRemovesWrongPlayer()
    ensures var room := Room("r", "lobby", "B", [Player("B", "s2", "Player B", false),
                                                 Player("C", "s3", "Player C", true)], None);
            && FireDecision(room, "B", 1) == RemoveIndex(1)
            && room.players[1].id != "B" && room.players[1].connected
            && FireDecisionById(room, "B") == RemoveIndex(0)
  {
    var room := Room("r", "lobby", "B", [Player("B", "s2", "Player B", false),
                                         Player("C", "s3", "Player C", true)], None);
    assert room.players[0].id == "B" && !room.players[0].connected;
  }
}
