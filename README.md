# chatty-server: room membership, modelled in Dafny

This project models the room-membership core of chatty-server, a Flask-SocketIO chat
backend. Two pieces of state are kept consistent by the server's event handlers:

- the **room store**, MongoDB's `rooms` and `users` collections (`db_operations.py`).
  A room has an id, a globally unique `room_name`, a `creator` and a duplicate-free
  `users` list. A user is keyed by a unique `username` and stores a bcrypt digest;
- the **socket groups**: for each connection (`request.sid`), the set of room names it
  has entered with `join_room` and not yet left with `leave_room`.

The modules are:

- `RoomStore` (store.dfy) holds the `Store` class. It keeps the two collections as maps,
  plus the collection's natural order. The `$addToSet` and `$pull` update operators are
  pure functions, `AddToSet` and `Pull`. The unique indexes on `room_name` and `username`
  are part of the store's `Valid()` invariant.
- `Sockets` (registry.dfy) holds the `Registry` class. Its `groups` map stands for
  Flask-SocketIO's rooms.
- `Text` (text.dfy) holds Python's `str.strip()`, with the exact `str.isspace()` set.
- `Handlers` (handlers.dfy) holds the socket handlers `create`, `join`, `leave`,
  `temp_leave`, `switch`, `delete` and `message`, and `get_all_users_rooms`.
  - Each handler is a method. It takes the caller's JWT identity and connection id.
  - It changes the store and the registry in place.
  - It returns the notices it emits: the Socket.IO event, what the notice says, and who
    receives it (the caller, every client, or a group).
  - An exception the handler catches becomes an `Ack` notice to the caller. That notice
    carries the failure: a missing payload key, an id that is not an ObjectId, or an id
    `get_room` does not find.
- `Accounts` (accounts.dfy) holds `validate_input`, the field checks of `/register`, and
  the registration itself.
- `Scenarios` (scenarios.dfy) holds handler sequences proved from the handlers' contracts
  alone. They cover join then leave, temporary leave then rejoin, two users joining one
  room, no reuse of a deleted room's id, and a session of alice and bob.

Three behaviours of the code shape the model:

- Room members are an ordered list kept duplicate-free by `$addToSet`.
- `switch` and `temp_leave` on an unknown id subscript the `None` that `get_room`
  returns. This raises, and the caller gets an error acknowledgement, not a "room
  doesn't exist" notice.
- No handler takes a lock. The model is sequential.

## Model

| member | source | states |
|---|---|---|
| RoomStore.AddToSet | db_operations.py:100-102 | `$addToSet`: the element is present afterwards; membership is the old membership plus the element; re-adding an existing member changes nothing; the old list is a prefix; no duplicates are introduced |
| RoomStore.Pull | db_operations.py:113-115 | `$pull`: every occurrence of the element is dropped and every other element keeps its number of occurrences and its order; pulling an absent element changes nothing |
| RoomStore.PullKeepsNoDup | db_operations.py:113-115 | `$pull` on a duplicate-free list leaves it duplicate-free |
| RoomStore.PullDistributes | db_operations.py:113-115 | `$pull` on a concatenation is the concatenation of the pulls |
| RoomStore.LeaveUndoesJoin | db_operations.py:100-115 | for a non-member, `$addToSet` followed by `$pull` gives back the original member list |
| RoomStore.UserRooms | db_operations.py:38 | the `$or` query yields exactly the documents whose creator is the user or whose `users` holds the user, in collection order |
| RoomStore.Store.Documents | db_operations.py:38 | the cursor walks the rooms in the collection's natural order, one document per id |
| RoomStore.Store.DocumentsAreRooms | db_operations.py:38 | the cursor holds exactly the stored rooms |
| RoomStore.Store.InsertRoom | db_operations.py:84-89 | a taken name yields None and changes nothing (unique index); otherwise exactly one room is added, with the caller as creator and only member, at the end of the natural order; its id has never been handed out before, since ids are drawn from a counter that only grows and stays above every id issued |
| RoomStore.Store.GetRoom | db_operations.py:49-53 | with an owner, the room is found only if it exists and the owner is its creator; without one, by id alone; the document returned is the stored one |
| RoomStore.Store.InsertUserInRoom | db_operations.py:100-102 | only the room with that id changes, its users by `$addToSet`; an unknown id changes nothing |
| RoomStore.Store.RemoveUserFromRoom | db_operations.py:113-115 | only the room with that id changes, its users by `$pull`; an unknown id changes nothing |
| RoomStore.Store.DeleteRoom | db_operations.py:63 | exactly the room with that id is removed, and its id leaves the natural order |
| RoomStore.Store.GetUserRooms | db_operations.py:38 | the rooms created by the user or listing the user, and only those, in natural order; a creator who has left still matches |
| RoomStore.Store.InsertUser | db_operations.py:20-28 | a duplicate username changes nothing (unique index); otherwise exactly that user is added; the usernames stay unique |
| RoomStore.Store.GetUser | db_operations.py:73 | the user with that name, or None exactly when there is none |
| Sockets.Registry.MembersOf | app.py:330-332 | an emit `to=room` reaches exactly the connections in that group |
| Sockets.Registry.Subscribe | app.py:170 | `join_room` adds the name to the caller's groups and touches no other connection |
| Sockets.Registry.Unsubscribe | app.py:239 | `leave_room` removes the name from the caller's groups and touches no other connection |
| Text.Strip | app.py:327 | `str.strip()`: the result is the infix of the input between two all-whitespace ends, neither starts nor ends with whitespace, and is empty exactly when the input is all whitespace |
| Text.StripOfPadded | app.py:327 | conversely, non-blank text padded with whitespace strips back to exactly that text |
| Text.StripIsIdempotent | app.py:327 | stripping a stripped text changes nothing |
| Handlers.OnCreate | app.py:158-184 | a missing `room` is an error to the caller; a taken name yields "already exists" to the caller only, with no change to store or groups; otherwise the room is inserted under an id never issued before, the caller's connection enters its group, and a create and a join notice go to the caller |
| Handlers.OnJoin | app.py:259-281 | an unknown id yields "doesn't exist" to the caller and changes nothing; otherwise the caller is added to the room's users with set semantics (a re-join leaves them as they were), the connection enters the group, and a join notice goes to the caller |
| Handlers.OnLeave | app.py:295-313 | an unknown id yields "doesn't exist" and changes nothing; otherwise the caller is pulled from the room's users, the connection leaves the group, and a leave notice goes to the caller |
| Handlers.OnTempLeave | app.py:235-246 | only the connection's groups change (the store is outside its frame); an unknown id is an error to the caller with no group change |
| Handlers.SwitchFailure | app.py:197-202 | `switch` fails before touching any group exactly when either id is missing, malformed or unknown; the failure is the first one in the source's order: a missing `leaveRoom`, a missing `joinRoom`, then the leave room's id, then the join room's id |
| Handlers.OnSwitch | app.py:197-222 | on failure, groups are unchanged and the error goes to the caller; otherwise the connection leaves the first room's group and enters the second's; the store is outside its frame, so membership of the joined room is not granted |
| Handlers.OnDelete | app.py:125-145 | an unknown id, or a caller who is not the creator, gets FORBIDDEN and the room survives; the creator's delete removes exactly that room, leaves the id counter as it was, and is broadcast to every client; the registry is outside its frame, so no subscriber is evicted |
| Handlers.OnMessage | app.py:326-334 | the stripped text, the caller as sender and the room go to exactly the connections in the group named `room`, whether or not the caller is a member; a missing field is an error to the caller only |
| Handlers.Infos | app.py:377 | each listed entry is the id and name of the corresponding room |
| Handlers.AllUsersRooms | app.py:375-382 | the loop's `own` and `others` lists are the creator/non-creator split of the user's rooms, in store order |
| Handlers.OwnOthersSnoc | app.py:376-381 | one loop step appends the room to `own` when the user created it and to `others` otherwise |
| Handlers.OwnOthersMembers | app.py:378-381 | a room is in `own` exactly when the user created it, and in `others` exactly when not |
| Handlers.OwnOthersCover | app.py:376-381 | `own` and `others` together hold every room of the cursor exactly once |
| Handlers.OwnOthersKeepOrder | app.py:376-381 | each list keeps the store's order |
| Handlers.RoomsAreListed | app.py:375-382 | every room the user created is under `own`, even after the user left it; every other room listing the user is under `others` |
| Accounts.ValidateInput | app.py:360-365 | the form passes exactly when every field is present and non-empty; otherwise the abort names the first bad field, as missing or as empty |
| Accounts.FieldError | app.py:29-43 | the checks apply in order: username length 4 to 10, then matching passwords, then a password of at least 8 characters (8 is accepted) |
| Accounts.Register | app.py:23-61 | a bad form, a failed field check or a taken username leaves the store unchanged; only when all checks pass is exactly that user inserted, with the given digest |
| Scenarios.SubscribeThenUnsubscribe | app.py:270-306 | entering a group the connection was not in and then leaving it restores the connection's groups |
| Scenarios.JoinThenLeave | app.py:259-313 | `join` then `leave` by a non-member restores the room store and the connection's groups |
| Scenarios.TempLeaveThenRejoin | app.py:235-281 | `temp_leave` then `join` by a member leaves the store as it was and the connection back in the group |
| Scenarios.JoinBoth | app.py:259-281 | two joins of the same room in a row both leave their user a member, and no earlier member is lost |
| Scenarios.PaddedHiStrips | app.py:327 | " hi " is relayed as "hi" |
| Scenarios.NoIdReuse | app.py:125-281 | after the creator deletes a room, a newly created room gets a different id, and a `join` with the old id is told the room does not exist |
| Scenarios.OpenGeneral | app.py:158-184 | alice creates "general" in an empty store as its only member, and a second create of "general" is refused |
| Scenarios.BobJoins | app.py:259-281 | bob's join makes the members alice and bob and puts both connections in the group |
| Scenarios.BobSpeaks | app.py:326-332 | bob's message reaches both connections, stripped |
| Scenarios.BobCannotDelete | app.py:125-134 | bob, not the creator, is refused the delete and nothing changes |
| Scenarios.SwitchAndDelete | app.py:125-222 | after a switch and a rejoin, alice's delete removes "general" while bob's connection stays in its group |

## Left out

- env_setup.py is not part of this model. It sets up Flask, CORS, JWT, bcrypt, Socket.IO and the MongoDB connection.
- JWT: the caller's identity is a parameter of every handler. `jwt_required` refusing a request and `create_access_token` are not modelled.
- bcrypt: `Accounts.Register` takes the password digest as a parameter and never hashes or checks a password. `/login` is outside the modelled core.
- ObjectId parsing: a room-id field is `Missing`, `NotObjectId` or an opaque id. The 24-hex-digit format is not modelled.
- Payload types: fields are strings or absent. A non-string `message` (which would make `.strip()` raise) is not modelled.
- HTTP plumbing is not modelled: `/ping`, the `/rooms` route wrapper, `jsonify`, `abort` and the 405 branch.
- The 401 status of handler acknowledgements, and the exception text, are not modelled. An acknowledgement carries the failure kind only.
- Message wording: notices carry their kind and the names and ids embedded in them, not the formatted text.
- Delivery is not modelled: a notice to `Everyone` does not compute the set of clients. The connect and disconnect handlers only print. Flask-SocketIO's per-connection default room, and its cleanup on disconnect, are not modelled.
- Store failures are not modelled: an unreachable database, a timeout, or an exception from `insert_one` other than the duplicate key.
- `Accounts.Register`: the `except Exception` around `insert_user` and token creation never fires, because the modelled store does not fail.
- Concurrency is not modelled, including races between two inserts of one name. Handlers run one at a time.
- The natural order of the `rooms` collection is modelled as insertion order. MongoDB does not promise this order.
- `RoomStore.Store.InsertUser` has no result. The source returns None both on success and on a duplicate key.
- The "Password length must be greater than 8." message does not match the check, which accepts a password of exactly 8 characters. The model follows the check (`Accounts.FieldError`).
