/**
 * The Socket.IO event handlers of the chat server (app.py): `create`, `join`, `leave`,
 * `temp_leave`, `switch`, `delete` and `message`, each run for an authenticated caller
 * (`username`, the JWT identity) on its connection (`sid`, the `request.sid`), against the
 * room store and the registry of socket groups. What a handler emits is returned as a
 * list of notices, each with the Socket.IO event it is emitted under and its recipients.
 */
module Handlers {
  import opened Base
  import opened RoomStore
  import opened Sockets
  import Text

  /** The Socket.IO event a notice is emitted under; `Ack` is the handler's return value. */
  datatype Event =
    | CreateResponse | JoinResponse | LeaveResponse | TempLeaveResponse
    | SwitchRoomResponse | DeleteResponse | Message | Ack

  /**
   * Who a notice goes to: the calling connection only (`to=request.sid`, and the
   * acknowledgement), every connected client (no `to=`), or a room-name group (`to=room`).
   */
  datatype Target = Caller | Everyone | Group(name: string)

  /** The exceptions a handler catches: a missing payload key, a string that is not an
      ObjectId, and subscripting the None that `get_room` returns for an unknown id. */
  datatype Failure = MissingField(field: string) | InvalidId | NoSuchRoom

  /** What a notice says, with the names and ids its message embeds. */
  datatype Notice =
    | AlreadyExists(room: string)
    | Created(room: string)
    | Joined(user: Username, roomId: RoomId, roomName: string)
    | DoesNotExist
    | Left(user: Username, roomName: string)
    | LeftTemporarily(user: Username, roomName: string)
    | Switched(user: Username, leftName: string, joinedName: string)
    | Forbidden
    | Deleted(roomName: string, owner: Username)
    | Chat(message: string, sender: Username, room: string)
    | Error(failure: Failure)

  datatype Emit = Emit(event: Event, notice: Notice, to: Target)

  /** A room-id field of the payload: absent, not an ObjectId string, or an ObjectId. */
  datatype IdArg = Missing | NotObjectId | ObjectId(id: RoomId)

  /** The error a handler returns to its caller after catching `f`. */
  function Failed(f: Failure): seq<Emit>
  {
    [Emit(Ack, Error(f), Caller)]
  }

  /** The failure reading the id field `field` raises when it does not hold an ObjectId. */
  function IdFailure(arg: IdArg, field: string): Failure
    requires !arg.ObjectId?
  {
    if arg.Missing? then MissingField(field) else InvalidId
  }

  /**
   * `create`: a taken name is refused to the caller with nothing changed; otherwise the
   * room is inserted with the caller as creator and only member, the connection enters
   * the room's group, and a create notice and a join notice go to the caller.
   */
  method OnCreate(db: Store, reg: Registry, username: Username, sid: ConnId, room: Option<string>)
    returns (out: seq<Emit>)
    requires db.Valid()
    modifies db, reg
    ensures db.Valid()
    ensures room.None? ==> out == Failed(MissingField("room")) && unchanged(db, reg)
    ensures room.Some? && old(db.NameTaken(room.value)) ==>
      && out == [Emit(CreateResponse, AlreadyExists(room.value), Caller)]
      && unchanged(db, reg)
    ensures room.Some? && !old(db.NameTaken(room.value)) ==>
      && |out| == 2 && out[1].notice.Joined?
      && var id := out[1].notice.roomId;
      && id !in old(db.rooms)
      && old(db.nextId) <= id < db.nextId
      && db.rooms == old(db.rooms)[id := Room(id, room.value, username, [username])]
      && db.order == old(db.order) + [id]
      && db.users == old(db.users)
      && reg.groups == old(reg.groups)[sid := GroupsIn(old(reg.groups), sid) + {room.value}]
      && out == [Emit(CreateResponse, Created(room.value), Caller),
                 Emit(JoinResponse, Joined(username, id, room.value), Caller)]
  {
    if room.None? {
      return Failed(MissingField("room"));
    }
    var name := room.value;
    var inserted := db.InsertRoom(name, username);
    if inserted.None? {
      return [Emit(CreateResponse, AlreadyExists(name), Caller)];
    }
    reg.Subscribe(sid, name);
    out := [Emit(CreateResponse, Created(name), Caller),
            Emit(JoinResponse, Joined(username, inserted.value, name), Caller)];
  }

  /**
   * `join`: an unknown id is reported to the caller with nothing changed; otherwise the
   * caller is added to the room's users with set semantics and the connection enters the
   * room's group.
   */
  method OnJoin(db: Store, reg: Registry, username: Username, sid: ConnId, roomId: IdArg)
    returns (out: seq<Emit>)
    requires db.Valid()
    modifies db, reg
    ensures db.Valid()
    ensures !roomId.ObjectId? ==> out == Failed(IdFailure(roomId, "roomId")) && unchanged(db, reg)
    ensures roomId.ObjectId? && roomId.id !in old(db.rooms) ==>
      out == [Emit(JoinResponse, DoesNotExist, Caller)] && unchanged(db, reg)
    ensures roomId.ObjectId? && roomId.id in old(db.rooms) ==>
      && var id := roomId.id;
      && var room := old(db.rooms)[id];
      && db.rooms == old(db.rooms)[id := room.(users := AddToSet(room.users, username))]
      && db.order == old(db.order) && db.nextId == old(db.nextId) && db.users == old(db.users)
      && reg.groups == old(reg.groups)[sid := GroupsIn(old(reg.groups), sid) + {room.name}]
      && out == [Emit(JoinResponse, Joined(username, id, room.name), Caller)]
  {
    if !roomId.ObjectId? {
      return Failed(IdFailure(roomId, "roomId"));
    }
    var info := db.GetRoom(roomId.id, None);
    if info.None? {
      return [Emit(JoinResponse, DoesNotExist, Caller)];
    }
    var name := info.value.name;
    db.InsertUserInRoom(roomId.id, username);
    reg.Subscribe(sid, name);
    out := [Emit(JoinResponse, Joined(username, roomId.id, name), Caller)];
  }

  /**
   * `leave`: an unknown id is reported to the caller with nothing changed; otherwise the
   * caller is pulled from the room's users and the connection leaves the room's group.
   */
  method OnLeave(db: Store, reg: Registry, username: Username, sid: ConnId, roomId: IdArg)
    returns (out: seq<Emit>)
    requires db.Valid()
    modifies db, reg
    ensures db.Valid()
    ensures !roomId.ObjectId? ==> out == Failed(IdFailure(roomId, "roomId")) && unchanged(db, reg)
    ensures roomId.ObjectId? && roomId.id !in old(db.rooms) ==>
      out == [Emit(LeaveResponse, DoesNotExist, Caller)] && unchanged(db, reg)
    ensures roomId.ObjectId? && roomId.id in old(db.rooms) ==>
      && var id := roomId.id;
      && var room := old(db.rooms)[id];
      && db.rooms == old(db.rooms)[id := room.(users := Pull(room.users, username))]
      && db.order == old(db.order) && db.nextId == old(db.nextId) && db.users == old(db.users)
      && reg.groups == old(reg.groups)[sid := GroupsIn(old(reg.groups), sid) - {room.name}]
      && out == [Emit(LeaveResponse, Left(username, room.name), Caller)]
  {
    if !roomId.ObjectId? {
      return Failed(IdFailure(roomId, "roomId"));
    }
    var info := db.GetRoom(roomId.id, None);
    if info.None? {
      return [Emit(LeaveResponse, DoesNotExist, Caller)];
    }
    var name := info.value.name;
    db.RemoveUserFromRoom(roomId.id, username);
    reg.Unsubscribe(sid, name);
    out := [Emit(LeaveResponse, Left(username, name), Caller)];
  }

  /**
   * `temp_leave`: the connection leaves the room's group while the store, and so the
   * caller's membership, is left as it was. An unknown id is a caught exception.
   */
  method OnTempLeave(db: Store, reg: Registry, username: Username, sid: ConnId, roomId: IdArg)
    returns (out: seq<Emit>)
    modifies reg
    ensures !roomId.ObjectId? ==> out == Failed(IdFailure(roomId, "roomId")) && unchanged(reg)
    ensures roomId.ObjectId? && roomId.id !in db.rooms ==> out == Failed(NoSuchRoom) && unchanged(reg)
    ensures roomId.ObjectId? && roomId.id in db.rooms ==>
      && var name := db.rooms[roomId.id].name;
      && reg.groups == old(reg.groups)[sid := GroupsIn(old(reg.groups), sid) - {name}]
      && out == [Emit(TempLeaveResponse, LeftTemporarily(username, name), Caller)]
  {
    if !roomId.ObjectId? {
      return Failed(IdFailure(roomId, "roomId"));
    }
    var info := db.GetRoom(roomId.id, None);
    if info.None? {
      return Failed(NoSuchRoom);
    }
    var name := info.value.name;
    reg.Unsubscribe(sid, name);
    out := [Emit(TempLeaveResponse, LeftTemporarily(username, name), Caller)];
  }

  /** The failure `switch` raises before touching any group, if any. */
  function SwitchFailure(db: Store, leaveRoom: IdArg, joinRoom: IdArg): (f: Option<Failure>)
    reads db
    ensures f.None? <==>
      leaveRoom.ObjectId? && leaveRoom.id in db.rooms && joinRoom.ObjectId? && joinRoom.id in db.rooms
    ensures leaveRoom.Missing? ==> f == Some(MissingField("leaveRoom"))
    ensures !leaveRoom.Missing? && joinRoom.Missing? ==> f == Some(MissingField("joinRoom"))
    ensures !joinRoom.Missing? && leaveRoom.NotObjectId? ==> f == Some(InvalidId)
    ensures !joinRoom.Missing? && leaveRoom.ObjectId? && leaveRoom.id !in db.rooms ==> f == Some(NoSuchRoom)
    ensures leaveRoom.ObjectId? && leaveRoom.id in db.rooms && joinRoom.NotObjectId? ==> f == Some(InvalidId)
    ensures leaveRoom.ObjectId? && leaveRoom.id in db.rooms && joinRoom.ObjectId? && joinRoom.id !in db.rooms ==>
      f == Some(NoSuchRoom)
  {
    if leaveRoom.Missing? then Some(MissingField("leaveRoom"))
    else if joinRoom.Missing? then Some(MissingField("joinRoom"))
    else if leaveRoom.NotObjectId? then Some(InvalidId)
    else if leaveRoom.id !in db.rooms then Some(NoSuchRoom)
    else if joinRoom.NotObjectId? then Some(InvalidId)
    else if joinRoom.id !in db.rooms then Some(NoSuchRoom)
    else None
  }

  /**
   * `switch`: both rooms are looked up before any group is touched; then the connection
   * leaves the first room's group and enters the second's. The store is never changed,
   * so entering the second room's group grants no membership in it.
   */
  method OnSwitch(db: Store, reg: Registry, username: Username, sid: ConnId, leaveRoom: IdArg, joinRoom: IdArg)
    returns (out: seq<Emit>)
    modifies reg
    ensures SwitchFailure(db, leaveRoom, joinRoom).Some? ==>
      out == Failed(SwitchFailure(db, leaveRoom, joinRoom).value) && unchanged(reg)
    ensures SwitchFailure(db, leaveRoom, joinRoom).None? ==>
      && var leaving := db.rooms[leaveRoom.id].name;
      && var joining := db.rooms[joinRoom.id].name;
      && reg.groups == old(reg.groups)[sid := (GroupsIn(old(reg.groups), sid) - {leaving}) + {joining}]
      && out == [Emit(SwitchRoomResponse, Switched(username, leaving, joining), Caller),
                 Emit(JoinResponse, Joined(username, joinRoom.id, joining), Caller)]
  {
    var failure := SwitchFailure(db, leaveRoom, joinRoom);
    if failure.Some? {
      return Failed(failure.value);
    }
    var leaving := db.GetRoom(leaveRoom.id, None).value.name;
    var joining := db.GetRoom(joinRoom.id, None).value.name;
    reg.Unsubscribe(sid, leaving);
    reg.Subscribe(sid, joining);
    out := [Emit(SwitchRoomResponse, Switched(username, leaving, joining), Caller),
            Emit(JoinResponse, Joined(username, joinRoom.id, joining), Caller)];
  }

  /**
   * `delete`: only the creator may delete; anyone else, and any unknown id, gets FORBIDDEN
   * and the room survives. The creator's delete removes the room and tells every connected
   * client. No connection is taken out of the room's group.
   */
  method OnDelete(db: Store, username: Username, sid: ConnId, roomId: IdArg)
    returns (out: seq<Emit>)
    requires db.Valid()
    modifies db
    ensures db.Valid()
    ensures !roomId.ObjectId? ==> out == Failed(IdFailure(roomId, "roomId")) && unchanged(db)
    ensures roomId.ObjectId? && (roomId.id !in old(db.rooms) || old(db.rooms)[roomId.id].creator != username) ==>
      out == [Emit(DeleteResponse, Forbidden, Caller)] && unchanged(db)
    ensures roomId.ObjectId? && roomId.id in old(db.rooms) && old(db.rooms)[roomId.id].creator == username ==>
      && db.rooms == old(db.rooms) - {roomId.id}
      && db.order == Pull(old(db.order), roomId.id)
      && db.nextId == old(db.nextId) && db.users == old(db.users)
      && out == [Emit(DeleteResponse, Deleted(old(db.rooms)[roomId.id].name, username), Everyone)]
  {
    if !roomId.ObjectId? {
      return Failed(IdFailure(roomId, "roomId"));
    }
    var info := db.GetRoom(roomId.id, Some(username));
    if info.None? {
      return [Emit(DeleteResponse, Forbidden, Caller)];
    }
    db.DeleteRoom(roomId.id);
    out := [Emit(DeleteResponse, Deleted(info.value.name, username), Everyone)];
  }

  /**
   * `message`: the stripped text, the caller as sender and the room name go to the group
   * named by the payload's `room`, that is to exactly the connections in that group,
   * whether or not the caller belongs to the room.
   */
  method OnMessage(reg: Registry, username: Username, sid: ConnId, message: Option<string>, room: Option<string>)
    returns (out: seq<Emit>, recipients: set<ConnId>)
    ensures message.None? ==> out == Failed(MissingField("message")) && recipients == {sid}
    ensures message.Some? && room.None? ==> out == Failed(MissingField("room")) && recipients == {sid}
    ensures message.Some? && room.Some? ==>
      && out == [Emit(Message, Chat(Text.Strip(message.value), username, room.value), Group(room.value))]
      && forall c :: c in recipients <==> room.value in GroupsIn(reg.groups, c)
  {
    if message.None? {
      return Failed(MissingField("message")), {sid};
    }
    var text := Text.Strip(message.value);
    if room.None? {
      return Failed(MissingField("room")), {sid};
    }
    out := [Emit(Message, Chat(text, username, room.value), Group(room.value))];
    recipients := reg.MembersOf(room.value);
  }

  /** One entry of the `/rooms` answer: a room's id and name. */
  datatype RoomInfo = RoomInfo(id: RoomId, name: string)

  function Info(room: Room): RoomInfo
  {
    RoomInfo(room.id, room.name)
  }

  function Infos(rooms: seq<Room>): (r: seq<RoomInfo>)
    ensures |r| == |rooms|
    ensures forall i :: 0 <= i < |rooms| ==> r[i] == Info(rooms[i])
  {
    seq(|rooms|, i requires 0 <= i < |rooms| => Info(rooms[i]))
  }

  /** The rooms of `rooms` that `u` created, in order. */
  function Own(rooms: seq<Room>, u: Username): seq<Room>
  {
    if rooms == [] then []
    else (if rooms[0].creator == u then [rooms[0]] else []) + Own(rooms[1..], u)
  }

  /** The rooms of `rooms` that someone other than `u` created, in order. */
  function Others(rooms: seq<Room>, u: Username): seq<Room>
  {
    if rooms == [] then []
    else (if rooms[0].creator != u then [rooms[0]] else []) + Others(rooms[1..], u)
  }

  lemma {:induction false} OwnOthersSnoc(rooms: seq<Room>, room: Room, u: Username)
    ensures Own(rooms + [room], u) == Own(rooms, u) + (if room.creator == u then [room] else [])
    ensures Others(rooms + [room], u) == Others(rooms, u) + (if room.creator != u then [room] else [])
  {
    if rooms == [] {
      assert rooms + [room] == [room];
    } else {
      assert (rooms + [room])[1..] == rooms[1..] + [room];
      OwnOthersSnoc(rooms[1..], room, u);
    }
  }

  /** A room is in `own` exactly when `u` created it, and in `others` exactly when not. */
  lemma {:induction false} OwnOthersMembers(rooms: seq<Room>, u: Username)
    ensures forall room :: room in Own(rooms, u) <==> room in rooms && room.creator == u
    ensures forall room :: room in Others(rooms, u) <==> room in rooms && room.creator != u
  {
    if rooms != [] {
      OwnOthersMembers(rooms[1..], u);
      assert forall room :: room in rooms <==> room == rooms[0] || room in rooms[1..];
    }
  }

  /** Together `own` and `others` hold every room of `rooms` exactly once. */
  lemma {:induction false} OwnOthersCover(rooms: seq<Room>, u: Username)
    ensures multiset(Own(rooms, u)) + multiset(Others(rooms, u)) == multiset(rooms)
  {
    if rooms != [] {
      OwnOthersCover(rooms[1..], u);
      assert rooms == [rooms[0]] + rooms[1..];
    }
  }

  /** Each of `own` and `others` keeps the order the rooms came in. */
  lemma {:induction false} OwnOthersKeepOrder(rooms: seq<Room>, u: Username)
    ensures Subseq(Own(rooms, u), rooms) && Subseq(Others(rooms, u), rooms)
  {
    if rooms != [] {
      OwnOthersKeepOrder(rooms[1..], u);
      if rooms[0].creator == u {
        assert Own(rooms, u)[1..] == Own(rooms[1..], u);
        assert Others(rooms, u) == Others(rooms[1..], u);
      } else {
        assert Others(rooms, u)[1..] == Others(rooms[1..], u);
        assert Own(rooms, u) == Own(rooms[1..], u);
      }
    }
  }

  /**
   * `get_all_users_rooms`: walks the cursor of `get_user_rooms` and appends each room's id
   * and name to `own` when `u` created it and to `others` otherwise.
   */
  method AllUsersRooms(db: Store, u: Username) returns (own: seq<RoomInfo>, others: seq<RoomInfo>)
    requires db.Valid()
    ensures own == Infos(Own(db.GetUserRooms(u), u))
    ensures others == Infos(Others(db.GetUserRooms(u), u))
  {
    var rooms := db.GetUserRooms(u);
    own, others := [], [];
    for i := 0 to |rooms|
      invariant own == Infos(Own(rooms[..i], u))
      invariant others == Infos(Others(rooms[..i], u))
    {
      assert rooms[..i + 1] == rooms[..i] + [rooms[i]];
      OwnOthersSnoc(rooms[..i], rooms[i], u);
      if rooms[i].creator == u {
        own := own + [Info(rooms[i])];
      } else {
        others := others + [Info(rooms[i])];
      }
    }
    assert rooms[..|rooms|] == rooms;
  }

  /**
   * Every room `u` created is listed under `own`, even after `u` left it; every other
   * room `u` is a member of is listed under `others`.
   */
  lemma RoomsAreListed(db: Store, u: Username)
    requires db.Valid()
    ensures forall id :: id in db.rooms && db.rooms[id].creator == u ==>
      Info(db.rooms[id]) in Infos(Own(db.GetUserRooms(u), u))
    ensures forall id :: id in db.rooms && db.rooms[id].creator != u && u in db.rooms[id].users ==>
      Info(db.rooms[id]) in Infos(Others(db.GetUserRooms(u), u))
  {
    var rooms := db.GetUserRooms(u);
    OwnOthersMembers(rooms, u);
    forall id | id in db.rooms && Involves(db.rooms[id], u)
      ensures db.rooms[id].creator == u ==> Info(db.rooms[id]) in Infos(Own(rooms, u))
      ensures db.rooms[id].creator != u ==> Info(db.rooms[id]) in Infos(Others(rooms, u))
    {
      var room := db.rooms[id];
      assert room in db.rooms.Values;
      if room.creator == u {
        var own := Own(rooms, u);
        var k :| 0 <= k < |own| && own[k] == room;
        assert Infos(own)[k] == Info(room);
      } else {
        var others := Others(rooms, u);
        var k :| 0 <= k < |others| && others[k] == room;
        assert Infos(others)[k] == Info(room);
      }
    }
  }
}
