/**
 * The MongoDB side of the chat server (db_operations.py): a `rooms` collection with a
 * unique index on `room_name` and a `users` collection with a unique index on `username`,
 * kept here in memory.
 */
module RoomStore {
  import opened Base

  /** A room's `_id`. ObjectIds are opaque here; the store hands out fresh ones. */
  type RoomId = nat
  type Username = string
  /** The bcrypt digest stored as a user's `password`; never looked inside. */
  type Hash = seq<bv8>

  /** A document of the `rooms` collection. */
  datatype Room = Room(id: RoomId, name: string, creator: Username, users: seq<Username>)

  /** A document of the `users` collection. */
  datatype User = User(username: Username, password: Hash)

  /** The `$addToSet` update operator on an array: append `x` unless it is already there. */
  function AddToSet<T(==,!new)>(s: seq<T>, x: T): (r: seq<T>)
    ensures x in r
    ensures forall y :: y in r <==> y in s || y == x
    ensures x in s ==> r == s
    ensures |s| <= |r| <= |s| + 1 && r[..|s|] == s
    ensures NoDup(s) ==> NoDup(r)
  {
    if x in s then s else s + [x]
  }

  /** The `$pull` update operator on an array: drop every occurrence of `x`. */
  function Pull<T(==,!new)>(s: seq<T>, x: T): (r: seq<T>)
    ensures forall y :: y in r <==> y in s && y != x
    ensures Subseq(r, s)
    ensures x !in s ==> r == s
    ensures multiset(r) == multiset(s)[x := 0]
  {
    if s == [] then []
    else
      assert s == [s[0]] + s[1..];
      if s[0] == x then Pull(s[1..], x)
      else [s[0]] + Pull(s[1..], x)
  }

  lemma {:induction false} PullKeepsNoDup<T(!new)>(s: seq<T>, x: T)
    requires NoDup(s)
    ensures NoDup(Pull(s, x))
  {
    if s != [] {
      PullKeepsNoDup(s[1..], x);
      if s[0] != x {
        var r := Pull(s, x);
        assert r == [s[0]] + Pull(s[1..], x);
        assert s[0] !in s[1..];
        assert s[0] !in Pull(s[1..], x);
      }
    }
  }

  lemma {:induction false} PullDistributes<T(!new)>(a: seq<T>, b: seq<T>, x: T)
    ensures Pull(a + b, x) == Pull(a, x) + Pull(b, x)
  {
    if a != [] {
      assert (a + b)[1..] == a[1..] + b;
      PullDistributes(a[1..], b, x);
    } else {
      assert a + b == b;
    }
  }

  /** A join followed by a leave gives back the member list the room had before the join. */
  lemma LeaveUndoesJoin<T(!new)>(s: seq<T>, x: T)
    requires x !in s
    ensures Pull(AddToSet(s, x), x) == s
  {
    PullDistributes(s, [x], x);
    assert Pull([x], x) == Pull([x][1..], x);
  }

  /** The rooms `find({"$or": [{"creator": u}, {"users": u}]})` matches. */
  predicate Involves(room: Room, u: Username)
  {
    room.creator == u || u in room.users
  }

  /** The cursor of that query over the documents `docs`, in their order. */
  function UserRooms(docs: seq<Room>, u: Username): (r: seq<Room>)
    ensures forall room :: room in r <==> room in docs && Involves(room, u)
    ensures Subseq(r, docs)
  {
    if docs == [] then []
    else if Involves(docs[0], u) then [docs[0]] + UserRooms(docs[1..], u)
    else UserRooms(docs[1..], u)
  }

  class Store {
    /** The `rooms` collection, by `_id`. */
    var rooms: map<RoomId, Room>
    /** The collection's natural order: the ids in insertion order. */
    var order: seq<RoomId>
    /** Where the next ObjectId is drawn from; larger than every id ever handed out. */
    var nextId: RoomId
    /** The `users` collection, by its unique `username`. */
    var users: map<Username, User>

    ghost predicate Valid()
      reads this
    {
      && (forall id :: id in rooms ==> rooms[id].id == id && id < nextId && NoDup(rooms[id].users))
      && (forall a, b :: a in rooms && b in rooms && rooms[a].name == rooms[b].name ==> a == b)
      && NoDup(order)
      && (forall i :: 0 <= i < |order| ==> order[i] in rooms)
      && (forall id :: id in rooms ==> id in order)
      && (forall u :: u in users ==> users[u].username == u)
    }

    constructor ()
      ensures Valid()
      ensures rooms == map[] && order == [] && users == map[]
    {
      rooms, order, nextId, users := map[], [], 0, map[];
    }

    /** The room documents in the collection's natural order. */
    function Documents(): (docs: seq<Room>)
      reads this
      requires Valid()
      ensures |docs| == |order|
      ensures forall i :: 0 <= i < |order| ==> docs[i] == rooms[order[i]]
    {
      var ids, m := order, rooms;
      seq(|ids|, i requires 0 <= i < |ids| && ids[i] in m => m[ids[i]])
    }

    lemma DocumentsAreRooms()
      requires Valid()
      ensures forall room :: room in Documents() <==> room in rooms.Values
    {
    }

    /** Whether the unique index on `room_name` already holds `name`. */
    predicate NameTaken(name: string)
      reads this
    {
      exists id :: id in rooms && rooms[id].name == name
    }

    /**
     * `insert_room`: a new room with `users = [username]` and `creator = username`,
     * or None when the unique index refuses the name.
     */
    method InsertRoom(name: string, username: Username) returns (inserted: Option<RoomId>)
      requires Valid()
      modifies this
      ensures Valid()
      ensures inserted.None? <==> old(NameTaken(name))
      ensures inserted.None? ==> unchanged(this)
      ensures old(nextId) <= nextId
      ensures inserted.Some? ==>
        && old(nextId) <= inserted.value < nextId
        && inserted.value !in old(rooms)
        && rooms == old(rooms)[inserted.value := Room(inserted.value, name, username, [username])]
        && order == old(order) + [inserted.value]
        && users == old(users)
    {
      if NameTaken(name) {
        return None;
      }
      var id := nextId;
      rooms := rooms[id := Room(id, name, username, [username])];
      order := order + [id];
      nextId := nextId + 1;
      inserted := Some(id);
    }

    /** `get_room`: by id alone, or by id and creator when an owner is given. */
    function GetRoom(id: RoomId, owner: Option<Username>): (r: Option<Room>)
      reads this
      ensures r.Some? <==> id in rooms && (owner.Some? ==> rooms[id].creator == owner.value)
      ensures r.Some? ==> r.value == rooms[id]
    {
      if id in rooms && (owner.None? || rooms[id].creator == owner.value) then Some(rooms[id]) else None
    }

    /** `insert_user_in_room`: `$addToSet` on the users of the room with that id, if any. */
    method InsertUserInRoom(id: RoomId, username: Username)
      requires Valid()
      modifies this
      ensures Valid()
      ensures id in old(rooms) ==>
        rooms == old(rooms)[id := old(rooms)[id].(users := AddToSet(old(rooms)[id].users, username))]
      ensures id !in old(rooms) ==> rooms == old(rooms)
      ensures order == old(order) && nextId == old(nextId) && users == old(users)
    {
      if id in rooms {
        rooms := rooms[id := rooms[id].(users := AddToSet(rooms[id].users, username))];
      }
    }

    /** `remove_user_from_room`: `$pull` on the users of the room with that id, if any. */
    method RemoveUserFromRoom(id: RoomId, username: Username)
      requires Valid()
      modifies this
      ensures Valid()
      ensures id in old(rooms) ==>
        rooms == old(rooms)[id := old(rooms)[id].(users := Pull(old(rooms)[id].users, username))]
      ensures id !in old(rooms) ==> rooms == old(rooms)
      ensures order == old(order) && nextId == old(nextId) && users == old(users)
    {
      if id in rooms {
        PullKeepsNoDup(rooms[id].users, username);
        rooms := rooms[id := rooms[id].(users := Pull(rooms[id].users, username))];
      }
    }

    /** `delete_room`: `delete_one` by id; nothing happens when no room has that id. */
    method DeleteRoom(id: RoomId)
      requires Valid()
      modifies this
      ensures Valid()
      ensures rooms == old(rooms) - {id}
      ensures order == Pull(old(order), id)
      ensures nextId == old(nextId) && users == old(users)
    {
      PullKeepsNoDup(order, id);
      var kept := Pull(order, id);
      forall i | 0 <= i < |kept|
        ensures kept[i] in rooms - {id}
      {
        assert kept[i] in kept;
      }
      rooms := rooms - {id};
      order := kept;
    }

    /** `get_user_rooms`: the rooms the user created or is a member of, in natural order. */
    function GetUserRooms(u: Username): (r: seq<Room>)
      reads this
      requires Valid()
      ensures forall room :: room in r <==> room in rooms.Values && Involves(room, u)
      ensures Subseq(r, Documents())
    {
      DocumentsAreRooms();
      UserRooms(Documents(), u)
    }

    /** `insert_user`: the unique index on `username` refuses a second user of that name. */
    method InsertUser(username: Username, password: Hash)
      requires Valid()
      modifies this
      ensures Valid()
      ensures username in old(users) ==> users == old(users)
      ensures username !in old(users) ==> users == old(users)[username := User(username, password)]
      ensures rooms == old(rooms) && order == old(order) && nextId == old(nextId)
    {
      if username !in users {
        users := users[username := User(username, password)];
      }
    }

    /** `get_user`: the user with that name, or None. */
    function GetUser(username: Username): (r: Option<User>)
      reads this
      requires Valid()
      ensures r.Some? <==> username in users
      ensures r.Some? ==> r.value == users[username] && r.value.username == username
    {
      if username in users then Some(users[username]) else None
    }
  }
}
