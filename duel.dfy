/** Duel rooms: creating and joining a room (app/multiplayer/page.tsx) and the
    host's "an opponent has joined" notification
    (components/DuelNotification.tsx). The `game_rooms` table is a map from
    room code to row; the database's failures, the random draws and the
    selected words are inputs. The room page that starts and plays the duel
    is not part of this model. */
module Duel {
  import opened Text
  import opened Catalog
  import opened PlayerSession

  const NameRequiredMessage := "נא להזין שם"
  const CodeRequiredMessage := "נא להזין קוד חדר"
  const RoomNotFoundMessage := "חדר לא נמצא"
  const GameStartedMessage := "המשחק כבר התחיל"
  const RoomFullMessage := "החדר מלא"
  const CreateFailedMessage := "שגיאה ביצירת החדר. נסה שוב."
  const JoinFailedMessage := "שגיאה בהצטרפות לחדר"

  const PlayerNameKey := "playerName"
  const PendingRoomCodeKey := "pendingRoomCode"
  const RoomPathPrefix := "/room/"

  datatype RoomStatus = Waiting | Playing | Finished

  /** A `game_rooms` row: the columns the create and join handlers and the
      notification touch. */
  datatype Room = Room(
    code: string,
    status: RoomStatus,
    player1Id: string,
    player1Name: string,
    player2Id: Option<string>,
    player2Name: Option<string>,
    wordsOrder: seq<string>)

  /** JavaScript truthiness of an optional string: present and not empty. */
  predicate Truthy(v: Option<string>) {
    v.Some? && v.value != ""
  }

  /** `localStorage.getItem(key)`. */
  function Stored(items: map<string, string>, key: string): (v: Option<string>)
    ensures Truthy(v) <==> HasValue(items, key)
    ensures v.Some? <==> key in items
    ensures v.Some? ==> v.value == items[key]
  {
    if key in items then Some(items[key]) else None
  }

  // -----------------------------------------------------------------------
  // Creating a room

  /** `words.map(w => w.word)`. */
  function WordsOrder(selected: seq<Word>): (order: seq<string>)
    ensures |order| == |selected|
    ensures forall i :: 0 <= i < |selected| ==> order[i] == selected[i].entry.word
  {
    seq(|selected|, i requires 0 <= i < |selected| => selected[i].entry.word)
  }

  datatype CreateResult = Created(rooms: map<string, Room>) | CreateRefused(message: string)

  /** The room a create inserts, and the insert: refused for a blank name;
      failed when the database reports an error or the code is already a
      room's. */
  function CreateRoom(rooms: map<string, Room>, playerName: string, playerId: string, code: string,
                      selected: seq<Word>, insertFailed: bool): CreateResult
  {
    if Trim(playerName) == [] then CreateRefused(NameRequiredMessage)
    else if insertFailed || code in rooms then CreateRefused(CreateFailedMessage)
    else Created(rooms[code := Room(code, Waiting, playerId, Trim(playerName), None, None, WordsOrder(selected))])
  }

  /** A create succeeds exactly when the name is not blank and the insert goes
      through; the new row is waiting, has the host as player 1 under the
      trimmed name, no player 2, and the selected words in order; no other
      row changes. */
  lemma CreateRoomOutcome(rooms: map<string, Room>, playerName: string, playerId: string, code: string,
                          selected: seq<Word>, insertFailed: bool)
    ensures var out := CreateRoom(rooms, playerName, playerId, code, selected, insertFailed);
      && (out.Created? <==> Trim(playerName) != [] && !insertFailed && code !in rooms)
      && (out.CreateRefused? ==>
            (out.message == NameRequiredMessage <==> Trim(playerName) == [])
            && (out.message == CreateFailedMessage <==> Trim(playerName) != []))
      && (out.Created? ==>
            && out.rooms.Keys == rooms.Keys + {code}
            && (forall c :: c in rooms ==> out.rooms[c] == rooms[c])
            && var r := out.rooms[code];
            && r.code == code && r.status == Waiting
            && r.player1Id == playerId && r.player1Name == Trim(playerName)
            && r.player2Id.None? && r.player2Name.None?
            && |r.wordsOrder| == |selected|
            && (forall i :: 0 <= i < |selected| ==> r.wordsOrder[i] == selected[i].entry.word))
  {
  }

  // -----------------------------------------------------------------------
  // Joining a room

  /** The code a guest's input looks up: trimmed and upper-cased. */
  function JoinCode(input: string): (code: string)
    ensures |code| == |Trim(input)|
    ensures forall i :: 0 <= i < |code| ==> code[i] == UpperChar(Trim(input)[i])
  {
    ToUpper(Trim(input))
  }

  datatype JoinResult = Joined(code: string, rooms: map<string, Room>) | JoinRefused(message: string)

  /** `handleJoinRoom`'s checks, in order, and its update. */
  function JoinRoom(rooms: map<string, Room>, playerName: string, codeInput: string, playerId: string,
                    fetchFailed: bool, updateFailed: bool): JoinResult
  {
    if Trim(playerName) == [] then JoinRefused(NameRequiredMessage)
    else if Trim(codeInput) == [] then JoinRefused(CodeRequiredMessage)
    else
      var code := JoinCode(codeInput);
      if fetchFailed || code !in rooms then JoinRefused(RoomNotFoundMessage)
      else
        var room := rooms[code];
        if room.status != Waiting then JoinRefused(GameStartedMessage)
        else if Truthy(room.player2Id) then JoinRefused(RoomFullMessage)
        else if updateFailed then JoinRefused(JoinFailedMessage)
        else Joined(code, rooms[code := room.(player2Id := Some(playerId), player2Name := Some(Trim(playerName)))])
  }

  /** Whether the guest may join: both fields filled in, the room found,
      still waiting, and without a second player. */
  predicate CanJoin(rooms: map<string, Room>, playerName: string, codeInput: string, fetchFailed: bool) {
    && Trim(playerName) != []
    && Trim(codeInput) != []
    && !fetchFailed
    && JoinCode(codeInput) in rooms
    && rooms[JoinCode(codeInput)].status == Waiting
    && !Truthy(rooms[JoinCode(codeInput)].player2Id)
  }

  /** A join succeeds exactly when it may and the update goes through; it
      then fills in player 2 with the guest's id and trimmed name and changes
      nothing else; each refusal names the first check that failed. */
  lemma JoinRoomOutcome(rooms: map<string, Room>, playerName: string, codeInput: string, playerId: string,
                        fetchFailed: bool, updateFailed: bool)
    ensures var out := JoinRoom(rooms, playerName, codeInput, playerId, fetchFailed, updateFailed);
      && (out.Joined? <==> CanJoin(rooms, playerName, codeInput, fetchFailed) && !updateFailed)
      && (out.Joined? ==>
            && out.code == JoinCode(codeInput)
            && out.rooms.Keys == rooms.Keys
            && (forall c :: c in rooms && c != out.code ==> out.rooms[c] == rooms[c])
            && out.rooms[out.code] == rooms[out.code].(player2Id := Some(playerId), player2Name := Some(Trim(playerName))))
      && (out.JoinRefused? && CanJoin(rooms, playerName, codeInput, fetchFailed) ==> out.message == JoinFailedMessage)
      && (out == JoinRefused(NameRequiredMessage) <==> Trim(playerName) == [])
      && (out == JoinRefused(CodeRequiredMessage) <==> Trim(playerName) != [] && Trim(codeInput) == [])
      && (out == JoinRefused(RoomNotFoundMessage) <==>
            Trim(playerName) != [] && Trim(codeInput) != [] && (fetchFailed || JoinCode(codeInput) !in rooms))
      && (out == JoinRefused(GameStartedMessage) <==>
            && Trim(playerName) != [] && Trim(codeInput) != [] && !fetchFailed && JoinCode(codeInput) in rooms
            && rooms[JoinCode(codeInput)].status != Waiting)
      && (out == JoinRefused(RoomFullMessage) <==>
            && Trim(playerName) != [] && Trim(codeInput) != [] && !fetchFailed && JoinCode(codeInput) in rooms
            && rooms[JoinCode(codeInput)].status == Waiting && Truthy(rooms[JoinCode(codeInput)].player2Id))
  {
  }

  /** A room takes one guest: once a join has gone through, every later join
      to that code is refused as full and changes nothing. */
  lemma SecondJoinRefused(rooms: map<string, Room>, guest: string, codeInput: string, guestId: string,
                          other: string, otherCode: string, otherId: string, updateFailed: bool)
    requires JoinRoom(rooms, guest, codeInput, guestId, false, false).Joined?
    requires guestId != ""
    requires Trim(other) != [] && JoinCode(otherCode) == JoinCode(codeInput)
    ensures var rooms1 := JoinRoom(rooms, guest, codeInput, guestId, false, false).rooms;
      JoinRoom(rooms1, other, otherCode, otherId, false, updateFailed) == JoinRefused(RoomFullMessage)
  {
    assert Trim(otherCode) != [] by {
      assert |JoinCode(otherCode)| == |JoinCode(codeInput)| == |Trim(codeInput)|;
    }
  }

  /** A room code, typed as shown or in lower case, looks up that very code. */
  lemma JoinCodeOfRoomCode(code: string)
    requires IsRoomCode(code)
    ensures JoinCode(code) == code
    ensures JoinCode(ToLower(code)) == code
  {
    AlphabetChars();
    var lower := ToLower(code);
    forall i | 0 <= i < |code|
      ensures !IsSpace(code[i]) && !IsSpace(lower[i])
      ensures UpperChar(code[i]) == code[i] && UpperChar(lower[i]) == code[i]
    {
      assert code[i] in CodeAlphabet;
      CodeCharCase(code[i]);
    }
    TrimNoSpace(code);
    TrimNoSpace(lower);
  }

  // -----------------------------------------------------------------------
  // The host's notification

  /** What the notification shows: the room's code and its guest. */
  datatype PendingRoom = PendingRoom(code: string, player2Name: string)

  /** One run of `checkPendingRoom`: skipped on a room page; hidden without a
      stored code; the stored code forgotten when its room is gone, is not the
      player's, or is no longer waiting; shown once a guest has joined;
      hidden otherwise. */
  datatype CheckOutcome = Skipped | Hidden | Forgotten | Shown(pending: PendingRoom)

  predicate OnRoomPage(pathname: Option<string>) {
    pathname.Some? && StartsWith(pathname.value, RoomPathPrefix)
  }

  /** The decision, from the path, the stored code, the row the lookup
      returned and the player's id. */
  function CheckPendingRoom(pathname: Option<string>, stored: Option<string>, room: Option<Room>,
                            playerId: string): CheckOutcome
  {
    if OnRoomPage(pathname) then Skipped
    else if !Truthy(stored) then Hidden
    else if room.None? then Forgotten
    else if room.value.player1Id != playerId then Forgotten
    else if room.value.status != Waiting then Forgotten
    else if Truthy(room.value.player2Id) && Truthy(room.value.player2Name) then
      Shown(PendingRoom(stored.value, room.value.player2Name.value))
    else Hidden
  }

  /** The notification shows exactly for the host of a waiting room that a
      guest with a name has joined, and carries that name; the stored code
      is dropped exactly when the room is gone, someone else's, or started. */
  lemma CheckPendingRoomOutcome(pathname: Option<string>, stored: Option<string>, room: Option<Room>,
                                playerId: string)
    ensures var out := CheckPendingRoom(pathname, stored, room, playerId);
      && (out.Skipped? <==> OnRoomPage(pathname))
      && (out.Shown? <==>
            && !OnRoomPage(pathname) && Truthy(stored) && room.Some?
            && room.value.player1Id == playerId && room.value.status == Waiting
            && Truthy(room.value.player2Id) && Truthy(room.value.player2Name))
      && (out.Shown? ==> out.pending == PendingRoom(stored.value, room.value.player2Name.value))
      && (out.Forgotten? <==>
            && !OnRoomPage(pathname) && Truthy(stored)
            && (room.None? || room.value.player1Id != playerId || room.value.status != Waiting))
  {
  }

  /** The row the notification's lookup returns (none when the query fails). */
  function RoomAt(rooms: map<string, Room>, code: string, fetchFailed: bool): (r: Option<Room>)
    ensures r.Some? <==> !fetchFailed && code in rooms
    ensures r.Some? ==> r.value == rooms[code]
  {
    if !fetchFailed && code in rooms then Some(rooms[code]) else None
  }

  /** The whole duel handshake: a host creates a room, the notification stays
      hidden while the room waits, a guest joins with the code, and the host's
      next check shows the guest's trimmed name. */
  lemma CreateJoinNotify(rooms: map<string, Room>, hostName: string, hostId: string, code: string,
                         selected: seq<Word>, guestName: string, guestId: string, pathname: Option<string>)
    requires CreateRoom(rooms, hostName, hostId, code, selected, false).Created?
    requires IsRoomCode(code)
    requires Trim(guestName) != [] && guestId != ""
    requires !OnRoomPage(pathname)
    ensures var rooms1 := CreateRoom(rooms, hostName, hostId, code, selected, false).rooms;
      && CheckPendingRoom(pathname, Some(code), RoomAt(rooms1, code, false), hostId) == Hidden
      && JoinRoom(rooms1, guestName, code, guestId, false, false).Joined?
      && var rooms2 := JoinRoom(rooms1, guestName, code, guestId, false, false).rooms;
      CheckPendingRoom(pathname, Some(code), RoomAt(rooms2, code, false), hostId)
        == Shown(PendingRoom(code, Trim(guestName)))
  {
    JoinCodeOfRoomCode(code);
    assert Trim(code) != [] by {
      assert |Trim(code)| == |JoinCode(code)| == 5;
    }
  }

  // -----------------------------------------------------------------------
  // The stateful parts: the table, the page and the notification

  /** The `game_rooms` table. */
  class RoomTable {
    var rooms: map<string, Room>

    constructor(rooms: map<string, Room>)
      ensures this.rooms == rooms
    {
      this.rooms := rooms;
    }
  }

  /** The multiplayer page's error line. */
  class MultiplayerPage {
    var error: string

    constructor()
      ensures error == ""
    {
      error := "";
    }

    /** `handleCreateRoom`: with a name, take the player id, draw a code,
        insert the room and, once inserted, remember the name and the pending
        code and go to the room's page. `selected` is what
        `selectWordsForGame(30)` returned. */
    method HandleCreateRoom(store: LocalStore, table: RoomTable, playerName: string, suffix: string,
                            draws: seq<real>, selected: seq<Word>, insertFailed: bool)
      returns (navigateTo: Option<string>)
      requires |draws| == CodeLength && forall i :: 0 <= i < |draws| ==> IsDraw(draws[i])
      modifies this, store, table
      ensures Trim(playerName) == [] ==>
        && error == NameRequiredMessage && navigateTo.None?
        && store.items == old(store.items) && table.rooms == old(table.rooms)
      ensures Trim(playerName) != [] ==>
        var (id, items1) := PlayerId(store.inBrowser, old(store.items), suffix);
        var code := RoomCodeFrom(draws);
        var out := CreateRoom(old(table.rooms), playerName, id, code, selected, insertFailed);
        && (out.Created? ==>
              && table.rooms == out.rooms && error == ""
              && store.items == items1[PlayerNameKey := Trim(playerName)][PendingRoomCodeKey := code]
              && navigateTo == Some(RoomPathPrefix + code))
        && (out.CreateRefused? ==>
              && table.rooms == old(table.rooms) && error == CreateFailedMessage
              && store.items == items1 && navigateTo.None?)
    {
      if Trim(playerName) == [] {
        error := NameRequiredMessage;
        return None;
      }
      error := "";
      var playerId := store.GetPlayerId(suffix);
      var roomCode := GenerateRoomCode(draws);
      var out := CreateRoom(table.rooms, playerName, playerId, roomCode, selected, insertFailed);
      if out.Created? {
        table.rooms := out.rooms;
        store.items := store.items[PlayerNameKey := Trim(playerName)][PendingRoomCodeKey := roomCode];
        navigateTo := Some(RoomPathPrefix + roomCode);
      } else {
        error := CreateFailedMessage;
        navigateTo := None;
      }
    }

    /** `handleJoinRoom`: with a name and a code, take the player id, run the
        join and, once joined, remember the name and go to the room's page. */
    method HandleJoinRoom(store: LocalStore, table: RoomTable, playerName: string, joinCode: string,
                          suffix: string, fetchFailed: bool, updateFailed: bool)
      returns (navigateTo: Option<string>)
      modifies this, store, table
      ensures Trim(playerName) == [] || Trim(joinCode) == [] ==>
        && error == (if Trim(playerName) == [] then NameRequiredMessage else CodeRequiredMessage)
        && navigateTo.None? && store.items == old(store.items) && table.rooms == old(table.rooms)
      ensures Trim(playerName) != [] && Trim(joinCode) != [] ==>
        var (id, items1) := PlayerId(store.inBrowser, old(store.items), suffix);
        var out := JoinRoom(old(table.rooms), playerName, joinCode, id, fetchFailed, updateFailed);
        && (out.Joined? ==>
              && table.rooms == out.rooms && error == ""
              && store.items == items1[PlayerNameKey := Trim(playerName)]
              && navigateTo == Some(RoomPathPrefix + out.code))
        && (out.JoinRefused? ==>
              && table.rooms == old(table.rooms) && error == out.message
              && store.items == items1 && navigateTo.None?)
    {
      if Trim(playerName) == [] {
        error := NameRequiredMessage;
        return None;
      }
      if Trim(joinCode) == [] {
        error := CodeRequiredMessage;
        return None;
      }
      error := "";
      var playerId := store.GetPlayerId(suffix);
      var out := JoinRoom(table.rooms, playerName, joinCode, playerId, fetchFailed, updateFailed);
      if out.Joined? {
        table.rooms := out.rooms;
        store.items := store.items[PlayerNameKey := Trim(playerName)];
        navigateTo := Some(RoomPathPrefix + out.code);
      } else {
        error := out.message;
        navigateTo := None;
      }
    }
  }

  /** The notification's state. */
  class DuelNotification {
    var pendingRoom: Option<PendingRoom>
    var isVisible: bool

    constructor()
      ensures pendingRoom.None? && !isVisible
    {
      pendingRoom, isVisible := None, false;
    }

    /** The component renders only when visible and holding a room. */
    predicate Rendered()
      reads this
    {
      isVisible && pendingRoom.Some?
    }

    /** One run of `checkPendingRoom` (on mount, on a path change and every
        three seconds). The player id is taken only once a code is stored. */
    method Check(store: LocalStore, table: RoomTable, pathname: Option<string>, fetchFailed: bool,
                 suffix: string)
      modifies this, store
      ensures OnRoomPage(pathname) || !HasValue(old(store.items), PendingRoomCodeKey) ==>
        !isVisible && pendingRoom == old(pendingRoom) && store.items == old(store.items)
      ensures !OnRoomPage(pathname) && HasValue(old(store.items), PendingRoomCodeKey) ==>
        var code := old(store.items)[PendingRoomCodeKey];
        var (id, items1) := PlayerId(store.inBrowser, old(store.items), suffix);
        var out := CheckPendingRoom(pathname, Some(code), RoomAt(table.rooms, code, fetchFailed), id);
        && (out.Forgotten? ==>
              store.items == items1 - {PendingRoomCodeKey} && !isVisible && pendingRoom == old(pendingRoom))
        && (out.Shown? ==> store.items == items1 && isVisible && pendingRoom == Some(out.pending))
        && (out.Hidden? ==> store.items == items1 && !isVisible && pendingRoom == old(pendingRoom))
    {
      if OnRoomPage(pathname) {
        isVisible := false;
        return;
      }
      var stored := Stored(store.items, PendingRoomCodeKey);
      if !Truthy(stored) {
        isVisible := false;
        return;
      }
      var playerId := store.GetPlayerId(suffix);
      var out := CheckPendingRoom(pathname, stored, RoomAt(table.rooms, stored.value, fetchFailed), playerId);
      if out.Forgotten? {
        store.items := store.items - {PendingRoomCodeKey};
        isVisible := false;
      } else if out.Shown? {
        pendingRoom := Some(out.pending);
        isVisible := true;
      } else {
        isVisible := false;
      }
    }

    /** `handleStartDuel`: with a room, forget the stored code and go to the
        room's page. */
    method StartDuel(store: LocalStore) returns (navigateTo: Option<string>)
      modifies store
      ensures pendingRoom.None? ==> navigateTo.None? && store.items == old(store.items)
      ensures pendingRoom.Some? ==>
        navigateTo == Some(RoomPathPrefix + pendingRoom.value.code)
        && store.items == old(store.items) - {PendingRoomCodeKey}
    {
      if pendingRoom.Some? {
        store.items := store.items - {PendingRoomCodeKey};
        navigateTo := Some(RoomPathPrefix + pendingRoom.value.code);
      } else {
        navigateTo := None;
      }
    }

    /** `handleDismiss`: forget the stored code and hide. */
    method Dismiss(store: LocalStore)
      modifies this, store
      ensures !isVisible && !Rendered() && pendingRoom == old(pendingRoom)
      ensures store.items == old(store.items) - {PendingRoomCodeKey}
    {
      store.items := store.items - {PendingRoomCodeKey};
      isVisible := false;
    }
  }
}
