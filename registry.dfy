/**
 * The live side of the chat server: Flask-SocketIO's rooms, i.e. for each connection
 * (`request.sid`) the set of room-name groups it has entered with `join_room` and not
 * yet left with `leave_room`. Emitting `to=<name>` reaches exactly the members of a group.
 */
module Sockets {

  /** A Socket.IO session id (`request.sid`). */
  type ConnId = string

  /** The groups connection `sid` is in, according to `groups`. */
  function GroupsIn(groups: map<ConnId, set<string>>, sid: ConnId): set<string>
  {
    if sid in groups then groups[sid] else {}
  }

  class Registry {
    /** The groups each connection is in; a connection without an entry is in none. */
    var groups: map<ConnId, set<string>>

    constructor ()
      ensures groups == map[]
    {
      groups := map[];
    }

    /** The connections an emit `to=name` is delivered to. */
    function MembersOf(name: string): (r: set<ConnId>)
      reads this
      ensures forall sid :: sid in r <==> name in GroupsIn(groups, sid)
    {
      set sid | sid in groups && name in groups[sid]
    }

    /** `join_room(name)` on behalf of connection `sid`; no other connection is touched. */
    method Subscribe(sid: ConnId, name: string)
      modifies this
      ensures groups == old(groups)[sid := GroupsIn(old(groups), sid) + {name}]
    {
      groups := groups[sid := GroupsIn(groups, sid) + {name}];
    }

    /** `leave_room(name)` on behalf of connection `sid`; a no-op when it is not in that group. */
    method Unsubscribe(sid: ConnId, name: string)
      modifies this
      ensures groups == old(groups)[sid := GroupsIn(old(groups), sid) - {name}]
    {
      groups := groups[sid := GroupsIn(groups, sid) - {name}];
    }
  }
}
