/**
 * Sequences of handler calls, proved from the handlers' contracts alone: the round trips
 * the membership protocol promises, and a session of two users.
 */
module Scenarios {
  import opened Base
  import opened RoomStore
  import opened Sockets
  import opened Handlers

  /** Entering a group and leaving it again restores the connection's groups. */
  lemma SubscribeThenUnsubscribe(groups: map<ConnId, set<string>>, sid: ConnId, name: string)
    requires name !in GroupsIn(groups, sid)
    ensures var entered := groups[sid := GroupsIn(groups, sid) + {name}];
      entered[sid := GroupsIn(entered, sid) - {name}] == groups[sid := GroupsIn(groups, sid)]
  {
  }

  /**
   * `join` followed by `leave` gives back the room's members and the connection's groups
   * as they were, for a caller who was neither a member nor subscribed.
   */
  method JoinThenLeave(db: Store, reg: Registry, username: Username, sid: ConnId, id: RoomId)
    requires db.Valid() && id in db.rooms
    requires username !in db.rooms[id].users && db.rooms[id].name !in GroupsIn(reg.groups, sid)
    modifies db, reg
    ensures db.Valid()
    ensures db.rooms == old(db.rooms) && db.users == old(db.users)
    ensures reg.groups == old(reg.groups)[sid := GroupsIn(old(reg.groups), sid)]
  {
    ghost var room := db.rooms[id];
    SubscribeThenUnsubscribe(reg.groups, sid, room.name);
    LeaveUndoesJoin(room.users, username);
    var joined := OnJoin(db, reg, username, sid, ObjectId(id));
    var left := OnLeave(db, reg, username, sid, ObjectId(id));
  }

  /**
   * `temp_leave` keeps the membership, and a later `join` puts the connection back in the
   * group without adding the caller to the room's users a second time.
   */
  method TempLeaveThenRejoin(db: Store, reg: Registry, username: Username, sid: ConnId, id: RoomId)
    requires db.Valid() && id in db.rooms && username in db.rooms[id].users
    modifies db, reg
    ensures db.Valid()
    ensures db.rooms == old(db.rooms) && db.users == old(db.users)
    ensures db.rooms[id].name in GroupsIn(reg.groups, sid)
  {
    var left := OnTempLeave(db, reg, username, sid, ObjectId(id));
    assert db.rooms[id].users == old(db.rooms)[id].users;
    var joined := OnJoin(db, reg, username, sid, ObjectId(id));
    assert db.rooms[id] == old(db.rooms)[id];
  }

  /**
   * Two callers joining the same room one after the other both end up among its users:
   * the second `$addToSet` does not lose the first.
   */
  method JoinBoth(db: Store, reg: Registry, first: Username, second: Username, sidFirst: ConnId, sidSecond: ConnId, id: RoomId)
    requires db.Valid() && id in db.rooms
    modifies db, reg
    ensures db.Valid() && id in db.rooms
    ensures first in db.rooms[id].users && second in db.rooms[id].users
    ensures forall u :: u in old(db.rooms)[id].users ==> u in db.rooms[id].users
  {
    var out := OnJoin(db, reg, first, sidFirst, ObjectId(id));
    out := OnJoin(db, reg, second, sidSecond, ObjectId(id));
  }

  /**
   * A deleted room's id is never handed out again: a room created after the delete gets
   * another id, so a client still holding the old id is told that the room does not exist.
   */
  method NoIdReuse(db: Store, reg: Registry, username: Username, sid: ConnId, id: RoomId, name: string)
    returns (created: seq<Emit>, rejoined: seq<Emit>)
    requires db.Valid() && id in db.rooms && db.rooms[id].creator == username
    modifies db, reg
    ensures db.Valid() && id !in db.rooms
    ensures |created| == 2 && created[1].notice.Joined? ==> created[1].notice.roomId != id
    ensures rejoined == [Emit(JoinResponse, DoesNotExist, Caller)]
  {
    var deleted := OnDelete(db, username, sid, ObjectId(id));
    created := OnCreate(db, reg, username, sid, Some(name));
    rejoined := OnJoin(db, reg, username, sid, ObjectId(id));
  }

  /** The state after alice has created "general" from connection "a1". */
  ghost predicate GeneralOpened(db: Store, reg: Registry, general: RoomId)
    reads db, reg
  {
    && db.Valid()
    && db.rooms == map[general := Room(general, "general", "alice", ["alice"])]
    && reg.groups == map["a1" := {"general"}]
  }

  /** The state after bob has joined "general" from connection "b1". */
  ghost predicate BobJoined(db: Store, reg: Registry, general: RoomId)
    reads db, reg
  {
    && db.Valid()
    && db.rooms == map[general := Room(general, "general", "alice", ["alice", "bob"])]
    && reg.groups == map["a1" := {"general"}, "b1" := {"general"}]
  }

  /** alice creates "general" in an empty store; bob's attempt to create it again is refused. */
  method OpenGeneral() returns (db: Store, reg: Registry, general: RoomId)
    ensures fresh(db) && fresh(reg)
    ensures GeneralOpened(db, reg, general)
  {
    db := new Store();
    reg := new Registry();
    assert !db.NameTaken("general");
    var out := OnCreate(db, reg, "alice", "a1", Some("general"));
    general := out[1].notice.roomId;
    assert GroupsIn(map[], "a1") + {"general"} == {"general"};
    assert db.rooms == map[general := Room(general, "general", "alice", ["alice"])];
    out := OnCreate(db, reg, "bob", "b1", Some("general"));
    assert out == [Emit(CreateResponse, AlreadyExists("general"), Caller)];
  }

  /** bob joins "general": he becomes a member and his connection enters its group. */
  method BobJoins(db: Store, reg: Registry, general: RoomId)
    requires GeneralOpened(db, reg, general)
    modifies db, reg
    ensures BobJoined(db, reg, general)
  {
    assert AddToSet(["alice"], "bob") == ["alice", "bob"];
    assert GroupsIn(reg.groups, "b1") + {"general"} == {"general"};
    var out := OnJoin(db, reg, "bob", "b1", ObjectId(general));
  }

  /** The text bob sends below, once stripped. */
  lemma PaddedHiStrips()
    ensures Text.Strip(" hi ") == "hi"
  {
  }

  /** bob says " hi ": the stripped text goes to the group, which both connections are in. */
  method BobSpeaks(db: Store, reg: Registry, general: RoomId)
    requires BobJoined(db, reg, general)
  {
    PaddedHiStrips();
    var out, recipients := OnMessage(reg, "bob", "b1", Some(" hi "), Some("general"));
    assert out == [Emit(Message, Chat("hi", "bob", "general"), Group("general"))];
    assert recipients == {"a1", "b1"};
  }

  /** bob is a member of "general" but not its creator, so he cannot delete it. */
  method BobCannotDelete(db: Store, reg: Registry, general: RoomId)
    requires BobJoined(db, reg, general)
    modifies db
    ensures BobJoined(db, reg, general)
  {
    var out := OnDelete(db, "bob", "b1", ObjectId(general));
    assert out == [Emit(DeleteResponse, Forbidden, Caller)];
  }

  /**
   * alice opens "random"; bob switches from "general" to it, which moves his connection
   * without making him a member. After he rejoins "general", alice deletes it: everyone is
   * told, and bob's connection stays in the group of the deleted room.
   */
  method SwitchAndDelete(db: Store, reg: Registry, general: RoomId)
    requires BobJoined(db, reg, general)
    modifies db, reg
    ensures general !in db.rooms
    ensures "b1" in reg.MembersOf("general")
  {
    var out := OnCreate(db, reg, "alice", "a1", Some("random"));
    var random := out[1].notice.roomId;
    out := OnSwitch(db, reg, "bob", "b1", ObjectId(general), ObjectId(random));
    assert "random" in GroupsIn(reg.groups, "b1") && "general" !in GroupsIn(reg.groups, "b1");
    assert db.rooms[random].users == ["alice"];
    out := OnJoin(db, reg, "bob", "b1", ObjectId(general));
    out := OnDelete(db, "alice", "a1", ObjectId(general));
    assert out[0].to == Everyone;
  }

  /** The whole session of alice and bob. */
  method TwoUsers()
  {
    var db, reg, general := OpenGeneral();
    BobJoins(db, reg, general);
    BobSpeaks(db, reg, general);
    BobCannotDelete(db, reg, general);
    SwitchAndDelete(db, reg, general);
  }
}
