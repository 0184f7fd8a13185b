/** The `ConnectionManager` of backend/app/api/endpoints/websocket.py: the
    registry of open WebSocket connections, as one list of all of them and
    one list per user. A connection is identified by a number; accepting the
    handshake and sending JSON are I/O and are not modelled, so `Broadcast`
    and `SendPersonalMessage` return the connections they would send to. */
module ConnectionRegistry {
  import opened Collections

  /** A WebSocket connection, by identity. */
  type Socket = nat

  /** The position of the first occurrence of `x`: Python's `s.index(x)`. */
  function FirstIndex(s: seq<Socket>, x: Socket): (i: nat)
    requires x in s
    ensures i < |s| && s[i] == x && x !in s[..i]
  {
    if s[0] == x then 0
    else
      var i := FirstIndex(s[1..], x);
      assert s[..i + 1] == [s[0]] + s[1..][..i];
      i + 1
  }

  /** `s.remove(x)` on a list that holds `x`: drops its first occurrence and
      keeps everything else in order. */
  function RemoveFirst(s: seq<Socket>, x: Socket): (r: seq<Socket>)
    requires x in s
    ensures exists i :: 0 <= i < |s| && s[i] == x && x !in s[..i] && r == s[..i] + s[i + 1..]
    ensures multiset(r) == multiset(s) - multiset{x}
    ensures |r| == |s| - 1
  {
    var i := FirstIndex(s, x);
    assert s == s[..i] + [x] + s[i + 1..];
    s[..i] + s[i + 1..]
  }

  /** Removing what was just appended gives the list back. */
  lemma RemoveFirstAppended(s: seq<Socket>, x: Socket)
    requires x !in s
    ensures RemoveFirst(s + [x], x) == s
  {
    assert (s + [x])[..|s|] == s;
  }

  /** Why `disconnect` ended: it completed, or `list.remove` raised
      `ValueError` on the list of all connections or on the user's list
      (in the latter case the first removal has already happened). */
  datatype DisconnectOutcome = Disconnected | NotActive | NotInUserList

  class ConnectionManager {
    /** `active_connections` */
    var activeConnections: seq<Socket>
    /** `user_connections`: user id -> that user's connections */
    var userConnections: map<int, seq<Socket>>

    /** Every connection is listed once for all and once for its user: the
        list of all connections holds exactly the connections of the user
        lists, with multiplicity. */
    ghost predicate Consistent()
      reads this
    {
      multiset(activeConnections) == Bag(userConnections)
    }

    constructor()
      ensures activeConnections == [] && userConnections == map[]
      ensures Consistent()
    {
      activeConnections := [];
      userConnections := map[];
    }

    /** `connect` once the handshake is accepted. */
    method Connect(websocket: Socket, userId: int)
      modifies this
      ensures activeConnections == old(activeConnections) + [websocket]
      ensures userConnections == old(userConnections)[userId := Lookup(old(userConnections), userId) + [websocket]]
      ensures old(Consistent()) ==> Consistent()
    {
      ghost var active, users := activeConnections, userConnections;
      activeConnections := activeConnections + [websocket];
      if userId !in userConnections {
        userConnections := userConnections[userId := []];
      }
      userConnections := userConnections[userId := userConnections[userId] + [websocket]];
      assert userConnections == users[userId := Lookup(users, userId) + [websocket]];
      ConnectKeepsConsistent(active, users, websocket, userId);
    }

    /** `disconnect`, with `ValueError` as an outcome. A connection that is
        listed under `userId` is removed from both lists and the registry
        stays consistent; a user's key is kept even when its list becomes
        empty. */
    method Disconnect(websocket: Socket, userId: int) returns (outcome: DisconnectOutcome)
      modifies this
      ensures websocket !in old(activeConnections) ==>
                outcome == NotActive
                && activeConnections == old(activeConnections) && userConnections == old(userConnections)
      ensures websocket in old(activeConnections) ==>
                activeConnections == RemoveFirst(old(activeConnections), websocket)
      ensures websocket in old(activeConnections) && userId !in old(userConnections) ==>
                outcome == Disconnected && userConnections == old(userConnections)
      ensures websocket in old(activeConnections) && userId in old(userConnections)
              && websocket !in old(userConnections)[userId] ==>
                outcome == NotInUserList && userConnections == old(userConnections)
      ensures websocket in old(activeConnections) && userId in old(userConnections)
              && websocket in old(userConnections)[userId] ==>
                outcome == Disconnected
                && userConnections == old(userConnections)[userId := RemoveFirst(old(userConnections)[userId], websocket)]
      ensures old(Consistent()) && websocket in Lookup(old(userConnections), userId) ==>
                outcome == Disconnected && Consistent()
    {
      if websocket in Lookup(userConnections, userId) && Consistent() {
        DisconnectKeepsConsistent(activeConnections, userConnections, websocket, userId);
      }
      if websocket !in activeConnections {
        return NotActive;
      }
      activeConnections := RemoveFirst(activeConnections, websocket);
      if userId in userConnections {
        if websocket !in userConnections[userId] {
          return NotInUserList;
        }
        userConnections := userConnections[userId := RemoveFirst(userConnections[userId], websocket)];
      }
      return Disconnected;
    }

    /** `broadcast`: the connections a message is sent to, in order. */
    method Broadcast() returns (recipients: seq<Socket>)
      ensures recipients == activeConnections
    {
      recipients := [];
      for i := 0 to |activeConnections|
        invariant recipients == activeConnections[..i]
      {
        recipients := recipients + [activeConnections[i]];
      }
    }

    /** `send_personal_message`: the user's connections, or none for an
        unknown user. */
    method SendPersonalMessage(userId: int) returns (recipients: seq<Socket>)
      ensures recipients == Lookup(userConnections, userId)
    {
      recipients := [];
      if userId in userConnections {
        var connections := userConnections[userId];
        for i := 0 to |connections|
          invariant recipients == connections[..i]
        {
          recipients := recipients + [connections[i]];
        }
      }
    }
  }

  /** Adding a connection to both lists keeps them consistent. */
  lemma ConnectKeepsConsistent(active: seq<Socket>, users: map<int, seq<Socket>>, websocket: Socket, userId: int)
    ensures multiset(active) == Bag(users) ==>
              multiset(active + [websocket]) == Bag(users[userId := Lookup(users, userId) + [websocket]])
  {
    BagUpdate(users, userId, Lookup(users, userId) + [websocket]);
  }

  /** Removing a connection of `userId` from both lists keeps them
      consistent; in a consistent registry it is always among the active
      ones, so the first `remove` cannot fail. */
  lemma DisconnectKeepsConsistent(active: seq<Socket>, users: map<int, seq<Socket>>, websocket: Socket, userId: int)
    requires multiset(active) == Bag(users)
    requires websocket in Lookup(users, userId)
    ensures websocket in active
    ensures multiset(RemoveFirst(active, websocket))
         == Bag(users[userId := RemoveFirst(users[userId], websocket)])
  {
    BagUpdate(users, userId, RemoveFirst(users[userId], websocket));
    assert websocket in multiset(active);
  }

  /** Connecting a new connection and disconnecting it again leaves the list
      of all connections as it was, and every user with the connections they
      had (the user's key may remain, with an empty list). */
  lemma ConnectThenDisconnect(active: seq<Socket>, users: map<int, seq<Socket>>, websocket: Socket, userId: int)
    requires websocket !in active && websocket !in Lookup(users, userId)
    ensures var connected := users[userId := Lookup(users, userId) + [websocket]];
            && RemoveFirst(active + [websocket], websocket) == active
            && forall u :: Lookup(connected[userId := RemoveFirst(connected[userId], websocket)], u) == Lookup(users, u)
  {
    RemoveFirstAppended(active, websocket);
    RemoveFirstAppended(Lookup(users, userId), websocket);
  }

  /** In a consistent registry every connection of every user is active, so
      a broadcast reaches everyone a personal message can reach. */
  lemma PersonalWithinBroadcast(active: seq<Socket>, users: map<int, seq<Socket>>, userId: int)
    requires multiset(active) == Bag(users)
    ensures forall c :: c in Lookup(users, userId) ==> c in active
  {
    BagUpdate(users, userId, Lookup(users, userId));
    forall c | c in Lookup(users, userId) ensures c in active {
      assert c in multiset(Lookup(users, userId));
      assert c in multiset(active);
    }
  }
}
