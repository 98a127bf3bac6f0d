/** Voice rooms: one per board, kept while somebody participates, pointing to the channel it was made on. */
module VoiceRooms {
  import opened Prelude

  // ----- blank space around identifiers

  /** White space as strings.TrimSpace sees it. */
  predicate IsSpace(c: char) {
    || '\t' <= c <= '\r' || c == ' ' || c == '\U{0085}' || c == '\U{00A0}' || c == '\U{1680}'
    || '\U{2000}' <= c <= '\U{200A}' || c in {'\U{2028}', '\U{2029}', '\U{202F}', '\U{205F}', '\U{3000}'}
  }

  /** By their numbers in Unicode. */
  lemma SpacesAre(c: char)
    ensures var n := c as int;
            (IsSpace(c) <==> 9 <= n <= 13 || 8192 <= n <= 8202 || n in {32, 133, 160, 5760, 8232, 8233, 8239, 8287, 12288})
  {
  }

  function TrimLeft(s: string): string {
    if s != "" && IsSpace(s[0]) then TrimLeft(s[1..]) else s
  }

  function TrimRight(s: string): string {
    if s != "" && IsSpace(s[|s| - 1]) then TrimRight(s[..|s| - 1]) else s
  }

  function Trim(s: string): string {
    TrimRight(TrimLeft(s))
  }

  lemma {:induction false} TrimLeftStops(s: string)
    ensures TrimLeft(s) == "" || !IsSpace(TrimLeft(s)[0])
  {
    if s != "" && IsSpace(s[0]) {
      TrimLeftStops(s[1..]);
    }
  }

  lemma {:induction false} TrimRightStops(s: string)
    ensures TrimRight(s) <= s
    ensures TrimRight(s) == "" || !IsSpace(TrimRight(s)[|TrimRight(s)| - 1])
  {
    if s != "" && IsSpace(s[|s| - 1]) {
      TrimRightStops(s[..|s| - 1]);
    }
  }

  /** Trimming a trimmed identifier changes nothing, so boards may be compared trimmed or not. */
  lemma TrimTwice(s: string)
    ensures Trim(Trim(s)) == Trim(s)
  {
    TrimLeftStops(s);
    TrimRightStops(TrimLeft(s));
    assert Trim(s) != "" ==> Trim(s)[0] == TrimLeft(s)[0];
  }

  ghost predicate Blank(s: string) {
    forall i :: 0 <= i < |s| ==> IsSpace(s[i])
  }

  lemma {:induction false} TrimLeftExact(s: string) returns (lead: string)
    ensures s == lead + TrimLeft(s) && Blank(lead)
  {
    if s != "" && IsSpace(s[0]) {
      var rest := TrimLeftExact(s[1..]);
      lead := [s[0]] + rest;
      assert s == [s[0]] + s[1..];
    } else {
      lead := "";
    }
  }

  lemma {:induction false} TrimRightExact(s: string) returns (tail: string)
    ensures s == TrimRight(s) + tail && Blank(tail)
    decreases |s|
  {
    if s != "" && IsSpace(s[|s| - 1]) {
      var rest := TrimRightExact(s[..|s| - 1]);
      tail := rest + [s[|s| - 1]];
      assert s == s[..|s| - 1] + [s[|s| - 1]];
    } else {
      tail := "";
    }
  }

  /** Trimming takes blank space off both ends, all of it and nothing else. */
  lemma TrimExact(s: string) returns (lead: string, tail: string)
    ensures s == lead + Trim(s) + tail && Blank(lead) && Blank(tail)
    ensures Trim(s) == "" || (!IsSpace(Trim(s)[0]) && !IsSpace(Trim(s)[|Trim(s)| - 1]))
  {
    lead := TrimLeftExact(s);
    tail := TrimRightExact(TrimLeft(s));
    TrimLeftStops(s);
    TrimRightStops(TrimLeft(s));
    var mid := TrimLeft(s);
    assert mid == Trim(s) + tail;
    if Trim(s) != "" {
      assert Trim(s)[0] == mid[0];
    }
  }

  // ----- identities and rooms

  /** Who a client proved to be: raw identifiers, and the permission to join voice. */
  datatype Identity = Identity(user: string, board: string, joinVoice: bool)

  datatype Room = Room(board: string, channel: int, participants: set<string>)

  type Rooms = map<string, Room>

  datatype JoinError = Denied | MissingBoard | MissingUser

  predicate SameBoard(id: Option<Identity>, room: Option<Room>) {
    id.Some? && room.Some? && Trim(id.value.board) != "" && Trim(id.value.board) == Trim(room.value.board)
  }

  /** Joining makes the board's room on the given channel, or enters the one there is, wherever that is. */
  function Join(rooms: Rooms, id: Identity, channel: int): Rooms {
    var b, u := Trim(id.board), Trim(id.user);
    if b in rooms then rooms[b := rooms[b].(participants := rooms[b].participants + {u})]
    else rooms[b := Room(b, channel, {u})]
  }

  function JoinRefused(id: Identity): Option<JoinError> {
    if !id.joinVoice then Some(Denied)
    else if Trim(id.board) == "" then Some(MissingBoard)
    else if Trim(id.user) == "" then Some(MissingUser)
    else None
  }

  /** Leaving gives up the user's place; the room goes with its last participant. */
  function Leave(rooms: Rooms, board: string, user: string): Rooms {
    var b, u := Trim(board), Trim(user);
    if b == "" || u == "" || b !in rooms then rooms
    else
      var rest := rooms[b].participants - {u};
      if rest == {} then rooms - {b} else rooms[b := rooms[b].(participants := rest)]
  }

  /** Rooms are filed under their own, trimmed board, never without participants. */
  predicate Filed(rooms: Rooms) {
    forall b :: b in rooms ==>
      rooms[b].board == b && b != "" && Trim(b) == b && rooms[b].participants != {}
  }

  /** Some room is on the channel. */
  ghost predicate OnChannel(rooms: Rooms, channel: int, room: Room) {
    exists b :: b in rooms && rooms[b] == room && room.channel == channel
  }

  /** Joining keeps rooms filed; the board's room has the user too, on its channel or else on the one given. */
  lemma JoinFiled(rooms: Rooms, id: Identity, channel: int)
    requires Filed(rooms) && JoinRefused(id).None?
    ensures var after, b, u := Join(rooms, id, channel), Trim(id.board), Trim(id.user);
            && Filed(after) && after.Keys == rooms.Keys + {b}
            && after[b] == (if b in rooms then rooms[b].(participants := rooms[b].participants + {u})
                            else Room(b, channel, {u}))
            && (forall x :: x in rooms && x != b ==> after[x] == rooms[x])
  {
    TrimTwice(id.board);
  }

  /** Leaving keeps rooms filed; the board's room is without the user, or gone if nobody else was in it. */
  lemma LeaveFiled(rooms: Rooms, board: string, user: string)
    requires Filed(rooms)
    ensures var after, b, u := Leave(rooms, board, user), Trim(board), Trim(user);
            && Filed(after)
            && (forall x :: x in rooms && (x != b || u == "") ==> x in after && after[x] == rooms[x])
            && (forall x :: x in after ==> x in rooms)
            && (b in rooms && u != "" ==>
                  && (b in after <==> exists x :: x in rooms[b].participants && x != u)
                  && (b in after ==> after[b] == rooms[b].(participants := rooms[b].participants - {u})))
  {
    var b, u := Trim(board), Trim(user);
    if b in rooms && u != "" {
      var rest := rooms[b].participants - {u};
      assert rest != {} <==> exists x :: x in rest;
      assert forall x :: x in rest <==> x in rooms[b].participants && x != u;
    }
  }

  /** Leaving undoes the joining of a user who was not in the board's room, if there was one. */
  lemma JoinThenLeave(rooms: Rooms, id: Identity, channel: int)
    requires Filed(rooms) && JoinRefused(id).None?
    requires Trim(id.board) in rooms ==> Trim(id.user) !in rooms[Trim(id.board)].participants
    ensures Leave(Join(rooms, id, channel), id.board, id.user) == rooms
  {
    var b, u := Trim(id.board), Trim(id.user);
    if b in rooms {
      var was := rooms[b];
      assert was.participants + {u} - {u} == was.participants;
      assert rooms[b := was.(participants := was.participants + {u})][b := was] == rooms;
    } else {
      assert {u} - {u} == {};
      assert rooms[b := Room(b, channel, {u})] - {b} == rooms;
    }
  }

  class VoiceRoomManager {
    var roomsByBoard: Rooms

    ghost predicate Valid()
      reads this
    {
      Filed(roomsByBoard)
    }

    constructor ()
      ensures Valid() && roomsByBoard == map[]
    {
      roomsByBoard := map[];
    }

    /** The one room of a board, however the board is spelt, if any room is of it. */
    method Find(boardID: string) returns (room: Option<Room>)
      requires Valid()
      ensures room.Some? ==> room.value in roomsByBoard.Values && Trim(room.value.board) == Trim(boardID)
      ensures forall r :: r in roomsByBoard.Values && Trim(r.board) == Trim(boardID) ==> room == Some(r)
    {
      var b := Trim(boardID);
      room := if b in roomsByBoard then Some(roomsByBoard[b]) else None;
    }

    /** Goes through the rooms for one on the channel; finds one exactly when there is one. */
    method FindByChannelID(channel: int) returns (room: Option<Room>)
      ensures room.Some? ==> OnChannel(roomsByBoard, channel, room.value)
      ensures room.None? ==> forall b :: b in roomsByBoard ==> roomsByBoard[b].channel != channel
    {
      var todo := roomsByBoard.Keys;
      while todo != {}
        invariant todo <= roomsByBoard.Keys
        invariant forall b :: b in roomsByBoard && b !in todo ==> roomsByBoard[b].channel != channel
        decreases todo
      {
        var b :| b in todo;
        if roomsByBoard[b].channel == channel {
          return Some(roomsByBoard[b]);
        }
        todo := todo - {b};
      }
      return None;
    }

    method JoinRoom(id: Identity, channel: int) returns (room: Option<Room>, created: bool, err: Option<JoinError>)
      requires Valid()
      modifies this
      ensures Valid()
      ensures err == Some(Denied) <==> !id.joinVoice
      ensures err == Some(MissingBoard) <==> id.joinVoice && Trim(id.board) == ""
      ensures err == Some(MissingUser) <==> id.joinVoice && Trim(id.board) != "" && Trim(id.user) == ""
      ensures err.Some? ==> roomsByBoard == old(roomsByBoard) && room.None? && !created
      ensures err.None? ==>
                && roomsByBoard == Join(old(roomsByBoard), id, channel)
                && created == (Trim(id.board) !in old(roomsByBoard)) && room == Some(roomsByBoard[Trim(id.board)])
    {
      room, created, err := None, false, None;
      if !id.joinVoice {
        err := Some(Denied);
        return;
      }
      var b, u := Trim(id.board), Trim(id.user);
      if b == "" {
        err := Some(MissingBoard);
        return;
      }
      if u == "" {
        err := Some(MissingUser);
        return;
      }
      JoinFiled(roomsByBoard, id, channel);
      created := b !in roomsByBoard;
      var found := if created then Room(b, channel, {}) else roomsByBoard[b];
      found := found.(participants := found.participants + {u});
      assert {} + {u} == {u};
      roomsByBoard := roomsByBoard[b := found];
      room := Some(found);
    }

    method LeaveRoom(boardID: string, userID: string) returns (room: Option<Room>, destroyed: bool)
      requires Valid()
      modifies this
      ensures Valid() && roomsByBoard == Leave(old(roomsByBoard), boardID, userID)
      ensures destroyed == (Trim(boardID) in old(roomsByBoard) && Trim(boardID) !in roomsByBoard)
      ensures room.Some? <==> Trim(boardID) in old(roomsByBoard) && Trim(userID) != ""
      ensures room.Some? ==>
                var was := old(roomsByBoard)[Trim(boardID)];
                room.value == was.(participants := was.participants - {Trim(userID)})
    {
      room, destroyed := None, false;
      var b, u := Trim(boardID), Trim(userID);
      LeaveFiled(roomsByBoard, boardID, userID);
      if b == "" || u == "" || b !in roomsByBoard {
        return;
      }
      var rest := roomsByBoard[b].(participants := roomsByBoard[b].participants - {u});
      room := Some(rest);
      destroyed := rest.participants == {};
      if destroyed {
        roomsByBoard := roomsByBoard - {b};
      } else {
        roomsByBoard := roomsByBoard[b := rest];
      }
    }
  }
}
