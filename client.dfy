/**
 * The browser side's input state (`public/js/game.js`): the guess being
 * typed, the row it goes into, the room the client is in and whether this
 * player owns it.  Key presses edit the guess while a game is on and send it
 * when it is complete; the other operations reset or replace that state.
 *
 * Socket emits and DOM updates are returned as effects, in the order the
 * client performs them.
 */
module Client {
  import opened Wrappers

  /** A guess has this many letters; the client sends nothing shorter. */
  const GuessLength: nat := 5

  const KickRefusedText := "Only the room creator can kick players."

  /**
   * The client's copy of a room (`currentRoom`), reduced to what the input
   * logic reads: its id, its owner and whether `gameState` is set.
   */
  datatype RoomCopy = RoomCopy(id: string, creator: string, hasGame: bool)

  /** What the client sends to the server. */
  datatype Outgoing =
    | MakeGuess(roomId: string, guess: string, row: int)
    | UpdateCurrentGuess(roomId: string, currentGuess: string, row: int)
    | KickPlayer(roomId: string, playerId: string)

  datatype Effect =
    | Send(msg: Outgoing)
    /** `UI.updateCurrentGuess(playerId, guess, row)`. */
    | ShowCurrentGuess(playerId: string, guess: string, row: int)
    /** `UI.showGameRoom(room)`. */
    | ShowGameRoom(room: RoomCopy)
    | ShowModal(text: string)
    /** `localStorage.removeItem('currentRoomId')`. */
    | ForgetStoredRoom

  /** A key that `/[a-z]/i` accepts: an ASCII letter of either case. */
  predicate IsLetter(c: char)
  {
    'a' <= c <= 'z' || 'A' <= c <= 'Z'
  }

  /** `toUpperCase` on an ASCII letter. */
  function Upper(c: char): (u: char)
    requires IsLetter(c)
    ensures 'A' <= u <= 'Z'
    ensures 'A' <= c <= 'Z' ==> u == c
    ensures 'a' <= c <= 'z' ==> u as int - 'A' as int == c as int - 'a' as int
  {
    if 'a' <= c <= 'z' then (c as int - 32) as char else c
  }

  /** A guess under construction: at most five upper-case letters. */
  predicate Buffer(g: string)
  {
    |g| <= GuessLength && forall i :: 0 <= i < |g| ==> 'A' <= g[i] <= 'Z'
  }

  /** A key press completes a guess: Enter on a full buffer. */
  predicate Submits(g: string, key: string)
  {
    key == "Enter" && |g| == GuessLength
  }

  /** The guess after `key` is pressed during a game. */
  function Edited(g: string, key: string): (r: string)
    ensures Buffer(g) ==> Buffer(r)
    ensures key == "Enter" ==> r == (if Submits(g, key) then "" else g)
    ensures key == "Escape" ==> r == ""
    ensures key == "Backspace" ==> |r| == (if g == "" then 0 else |g| - 1) && r == g[..|r|]
  {
    if key == "Enter" then (if |g| == GuessLength then "" else g)
    else if key == "Backspace" then (if g == "" then g else g[..|g| - 1])
    else if key == "Escape" then ""
    else if |key| == 1 && IsLetter(key[0]) && |g| < GuessLength then g + [Upper(key[0])]
    else g
  }

  /** The row after `key` is pressed during a game: only a submitted guess moves on. */
  function RowAfter(g: string, row: int, key: string): (r: int)
    ensures Submits(g, key) ==> r == row + 1
    ensures !Submits(g, key) ==> r == row
  {
    if Submits(g, key) then row + 1 else row
  }

  /** What a key press during a game sends and shows, given the state before it. */
  function KeyEffects(playerId: string, room: RoomCopy, g: string, row: int, key: string): (r: seq<Effect>)
    ensures Submits(g, key) <==> |r| > 0 && r[0] == Send(MakeGuess(room.id, g, row))
    ensures ShowCurrentGuess(playerId, Edited(g, key), RowAfter(g, row, key)) in r
    ensures |r| == (if Submits(g, key) then 1 else 0) + 1 + (if room.id != "" then 1 else 0)
    ensures r[if Submits(g, key) then 1 else 0] == ShowCurrentGuess(playerId, Edited(g, key), RowAfter(g, row, key))
    ensures room.id != "" <==> r[|r| - 1] == Send(UpdateCurrentGuess(room.id, Edited(g, key), RowAfter(g, row, key)))
  {
    var g', row' := Edited(g, key), RowAfter(g, row, key);
    (if Submits(g, key) then [Send(MakeGuess(room.id, g, row))] else [])
    + [ShowCurrentGuess(playerId, g', row')]
    + (if room.id != "" then [Send(UpdateCurrentGuess(room.id, g', row'))] else [])
  }

  /** A letter key appends its upper case to a buffer with room for it, and is ignored on a full one. */
  lemma LetterAppends(g: string, c: char)
    requires IsLetter(c)
    ensures |g| < GuessLength ==> Edited(g, [c]) == g + [Upper(c)]
    ensures |g| >= GuessLength ==> Edited(g, [c]) == g
  {
  }

  /** Backspace takes back the letter just typed. */
  lemma BackspaceUndoesLetter(g: string, c: char)
    requires IsLetter(c) && |g| < GuessLength
    ensures Edited(Edited(g, [c]), "Backspace") == g
  {
    assert Edited(g, [c]) == g + [Upper(c)];
    assert (g + [Upper(c)])[..|g|] == g;
  }

  /** Keys other than Enter, Backspace, Escape and single letters leave the guess alone. */
  lemma OtherKeysIgnored(g: string, key: string)
    requires key != "Enter" && key != "Backspace" && key != "Escape"
    requires !(|key| == 1 && IsLetter(key[0]))
    ensures Edited(g, key) == g && RowAfter(g, 0, key) == 0
  {
  }

  /** The guess after a series of key presses. */
  function Typed(g: string, keys: seq<string>): string
    decreases |keys|
  {
    if keys == [] then g else Typed(Edited(g, keys[0]), keys[1..])
  }

  /** One key press per letter. */
  function Keys(w: string): (keys: seq<string>)
    ensures |keys| == |w|
    ensures forall i :: 0 <= i < |w| ==> keys[i] == [w[i]]
  {
    seq(|w|, i requires 0 <= i < |w| => [w[i]])
  }

  function UpperAll(w: string): (u: string)
    requires forall i :: 0 <= i < |w| ==> IsLetter(w[i])
    ensures |u| == |w| && forall i :: 0 <= i < |w| ==> u[i] == Upper(w[i])
  {
    seq(|w|, i requires 0 <= i < |w| => Upper(w[i]))
  }

  /** Letters typed into a full buffer are dropped. */
  lemma {:induction false} TypingIntoFullBuffer(g: string, w: string)
    requires |g| == GuessLength
    requires forall i :: 0 <= i < |w| ==> IsLetter(w[i])
    ensures Typed(g, Keys(w)) == g
    decreases |w|
  {
    if w != [] {
      KeysTail(w);
      LetterAppends(g, w[0]);
      TypingIntoFullBuffer(g, w[1..]);
    }
  }

  /** Typing a word that fits into a buffer appends it in upper case. */
  lemma {:induction false} TypingAppends(g: string, w: string)
    requires |g| + |w| <= GuessLength
    requires forall i :: 0 <= i < |w| ==> IsLetter(w[i])
    ensures Typed(g, Keys(w)) == g + UpperAll(w)
    decreases |w|
  {
    if w == [] {
      assert UpperAll(w) == [];
    } else {
      KeysTail(w);
      LetterAppends(g, w[0]);
      TypingAppends(g + [Upper(w[0])], w[1..]);
      UpperAllCons(w);
      AppendAssoc(g, [Upper(w[0])], UpperAll(w[1..]));
    }
  }

  lemma KeysTail(w: string)
    requires w != []
    ensures Keys(w)[0] == [w[0]] && Keys(w)[1..] == Keys(w[1..])
  {
  }

  lemma UpperAllCons(w: string)
    requires w != [] && forall i :: 0 <= i < |w| ==> IsLetter(w[i])
    ensures UpperAll(w) == [Upper(w[0])] + UpperAll(w[1..])
  {
  }

  /**
   * Typing a word into a buffer spells it in upper case as far as the buffer
   * has room; the letters after that are dropped.
   */
  lemma {:induction false} TypingFills(g: string, w: string)
    requires |g| <= GuessLength
    requires forall i :: 0 <= i < |w| ==> IsLetter(w[i])
    ensures var n := if |w| <= GuessLength - |g| then |w| else GuessLength - |g|;
            Typed(g, Keys(w)) == g + UpperAll(w[..n])
  {
    var n := if |w| <= GuessLength - |g| then |w| else GuessLength - |g|;
    var fits, dropped := w[..n], w[n..];
    assert Keys(w) == Keys(fits) + Keys(dropped) by {
      assert w == fits + dropped;
    }
    TypedSplits(g, Keys(fits), Keys(dropped));
    TypingAppends(g, fits);
    if n < |w| {
      TypingIntoFullBuffer(g + UpperAll(fits), dropped);
    } else {
      assert Keys(dropped) == [];
    }
  }

  /** Typing one series of keys and then another is typing both. */
  lemma {:induction false} TypedSplits(g: string, k1: seq<string>, k2: seq<string>)
    ensures Typed(g, k1 + k2) == Typed(Typed(g, k1), k2)
    decreases |k1|
  {
    if k1 != [] {
      assert (k1 + k2)[1..] == k1[1..] + k2;
      TypedSplits(Edited(g, k1[0]), k1[1..], k2);
    } else {
      assert k1 + k2 == k2;
    }
  }

  /** Five letters typed into an empty buffer make a complete guess, the word in upper case. */
  lemma {:induction false} FiveLettersMakeAGuess(w: string)
    requires |w| == GuessLength && forall i :: 0 <= i < |w| ==> IsLetter(w[i])
    ensures Typed("", Keys(w)) == UpperAll(w)
    ensures Submits(Typed("", Keys(w)), "Enter")
  {
    TypingFills("", w);
    assert w[..|w|] == w;
  }

  /** `kickPlayer` asks the server only as the owner of the room it names. */
  predicate MayKick(isCreator: bool, room: Option<RoomCopy>, roomId: string)
  {
    isCreator && room.Some? && room.value.id == roomId
  }

  /** The module state of game.js. */
  class Game {
    var playerId: string
    var currentRoom: Option<RoomCopy>
    var isCreator: bool
    var currentGuess: string
    var currentRow: int
    var currentRoomId: Option<string>

    /** The guess is a well-formed buffer and the row count is not negative. */
    ghost predicate Valid()
      reads this
    {
      Buffer(currentGuess) && currentRow >= 0
    }

    /** The state after `init`, with `pid` the id it read from storage or generated. */
    constructor (pid: string)
      ensures Valid()
      ensures playerId == pid && currentRoom == None && !isCreator
      ensures currentGuess == "" && currentRow == 0 && currentRoomId == None
    {
      playerId := pid;
      currentRoom := None;
      isCreator := false;
      currentGuess := "";
      currentRow := 0;
      currentRoomId := None;
    }

    /**
     * `handleKeyPress`: ignored outside a game; otherwise the guess is
     * edited (Enter submits a full guess and moves to the next row), shown,
     * and sent to the room as the current guess.
     */
    method HandleKeyPress(key: string) returns (effects: seq<Effect>)
      requires Valid()
      modifies this
      ensures Valid()
      ensures playerId == old(playerId) && currentRoom == old(currentRoom) && isCreator == old(isCreator)
      ensures currentRoomId == old(currentRoomId)
      ensures !(old(currentRoom).Some? && old(currentRoom).value.hasGame) ==>
                currentGuess == old(currentGuess) && currentRow == old(currentRow) && effects == []
      ensures old(currentRoom).Some? && old(currentRoom).value.hasGame ==>
                && currentGuess == Edited(old(currentGuess), key)
                && currentRow == RowAfter(old(currentGuess), old(currentRow), key)
                && effects == KeyEffects(playerId, currentRoom.value, old(currentGuess), old(currentRow), key)
    {
      if currentRoom.None? || !currentRoom.value.hasGame {
        return [];
      }
      var room := currentRoom.value;
      effects := [];
      if key == "Enter" {
        if |currentGuess| == GuessLength {
          effects := [Send(MakeGuess(room.id, currentGuess, currentRow))];
          currentGuess := "";
          currentRow := currentRow + 1;
        }
      } else if key == "Backspace" {
        if currentGuess != "" {
          currentGuess := currentGuess[..|currentGuess| - 1];
        }
      } else if key == "Escape" {
        currentGuess := "";
      } else if |key| == 1 && IsLetter(key[0]) && |currentGuess| < GuessLength {
        currentGuess := currentGuess + [Upper(key[0])];
      }
      effects := effects + [ShowCurrentGuess(playerId, currentGuess, currentRow)];
      if room.id != "" {
        effects := effects + [Send(UpdateCurrentGuess(room.id, currentGuess, currentRow))];
      }
    }

    /** `resetGuess`: the guess is cleared and shown; the row stays. */
    method ResetGuess() returns (effects: seq<Effect>)
      requires Valid()
      modifies this
      ensures Valid()
      ensures currentGuess == "" && currentRow == old(currentRow)
      ensures playerId == old(playerId) && currentRoom == old(currentRoom) && isCreator == old(isCreator)
      ensures currentRoomId == old(currentRoomId)
      ensures effects == [ShowCurrentGuess(playerId, "", currentRow)]
    {
      currentGuess := "";
      effects := [ShowCurrentGuess(playerId, currentGuess, currentRow)];
    }

    /** `resetGame`: in a room, the game is dropped and typing starts over on the first row. */
    method ResetGame() returns (effects: seq<Effect>)
      requires Valid()
      modifies this
      ensures Valid()
      ensures playerId == old(playerId) && isCreator == old(isCreator) && currentRoomId == old(currentRoomId)
      ensures old(currentRoom).None? ==>
                currentRoom == None && currentGuess == old(currentGuess) && currentRow == old(currentRow) && effects == []
      ensures old(currentRoom).Some? ==>
                && currentRoom == Some(old(currentRoom).value.(hasGame := false))
                && currentGuess == "" && currentRow == 0
                && effects == [ShowGameRoom(currentRoom.value)]
    {
      effects := [];
      if currentRoom.Some? {
        currentRoom := Some(currentRoom.value.(hasGame := false));
        currentGuess := "";
        currentRow := 0;
        effects := [ShowGameRoom(currentRoom.value)];
      }
    }

    /** `setCurrentRoomId`. */
    method SetCurrentRoomId(id: string)
      requires Valid()
      modifies this
      ensures Valid()
      ensures currentRoomId == Some(id)
      ensures playerId == old(playerId) && currentRoom == old(currentRoom) && isCreator == old(isCreator)
      ensures currentGuess == old(currentGuess) && currentRow == old(currentRow)
    {
      currentRoomId := Some(id);
    }

    /** `setCurrentRoom`: the room is replaced, and the owner flag recomputed for it. */
    method SetCurrentRoom(room: RoomCopy)
      requires Valid()
      modifies this
      ensures Valid()
      ensures currentRoom == Some(room)
      ensures isCreator <==> room.creator == playerId
      ensures playerId == old(playerId) && currentRoomId == old(currentRoomId)
      ensures currentGuess == old(currentGuess) && currentRow == old(currentRow)
    {
      currentRoom := Some(room);
      isCreator := room.creator == playerId;
    }

    /** `kickPlayer`: sent only by the owner of the room it names; anyone else is told off. */
    method KickPlayer(roomId: string, target: string) returns (effects: seq<Effect>)
      ensures MayKick(isCreator, currentRoom, roomId) ==> effects == [Send(Outgoing.KickPlayer(roomId, target))]
      ensures !MayKick(isCreator, currentRoom, roomId) ==> effects == [ShowModal(KickRefusedText)]
      ensures forall e :: e in effects && e.Send? ==> MayKick(isCreator, currentRoom, roomId)
    {
      if isCreator && currentRoom.Some? && currentRoom.value.id == roomId {
        effects := [Send(Outgoing.KickPlayer(roomId, target))];
      } else {
        effects := [ShowModal(KickRefusedText)];
      }
    }

    /** `leaveRoom`: every trace of the room is dropped, the stored room id included. */
    method LeaveRoom() returns (effects: seq<Effect>)
      requires Valid()
      modifies this
      ensures Valid()
      ensures currentRoom == None && currentRoomId == None && !isCreator
      ensures currentGuess == "" && currentRow == 0 && playerId == old(playerId)
      ensures effects == [ForgetStoredRoom]
    {
      currentRoom := None;
      currentRoomId := None;
      isCreator := false;
      currentGuess := "";
      currentRow := 0;
      effects := [ForgetStoredRoom];
    }
  }
}
