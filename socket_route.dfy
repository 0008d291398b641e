/**
 * The Socket.IO server started from the Next.js route
 * (src/app/api/socket/route.ts).
 *
 * This server keeps `roomUsers`, a Map from room id to an array of users.
 * Unlike the standalone server it has no host id and no video-state cache.
 * A user's host status is only the `isHost` flag the client sent.  Play,
 * pause and seek are relayed unchecked as `video-action` events, and chat
 * messages are stamped and fanned out to the room.
 *
 * As in the standalone server, `RouteHub` is the state as a value, the
 * `After` functions give what each handler leaves, and `Route` is the
 * mutable object whose methods are proved to produce those states.
 */
module SocketRoute {
  import opened Wrappers
  import opened Presence
  import opened Strings

  /** The `user` part of a chat message. */
  datatype ChatUser = ChatUser(id: string, name: string, photoURL: Option<string>)

  datatype ChatMessage = ChatMessage(id: string, user: ChatUser, text: string, timestamp: nat)

  datatype Payload =
    | UsersUpdate(users: seq<Participant>)                  // 'users-update'
    | HostUpdate                                            // 'host-update' with { isHost: true }
    | VideoAction(action: string, value: Option<real>)      // 'video-action' with { type, value }
    | Chat(message: ChatMessage)                            // 'chat-message'

  datatype Emission = Emission(target: Target, payload: Payload)

  /** `roomUsers` with its insertion order, and everything emitted so far. */
  datatype RouteHub = RouteHub(rooms: map<string, seq<Participant>>, order: seq<string>, outbox: seq<Emission>)

  /**
   * Every tracked room has at least one user and no user id twice.  Nothing
   * is promised about how many users are flagged host.
   */
  ghost predicate RouteOk(h: RouteHub) {
    && NoDuplicates(h.order)
    && (forall id :: id in h.rooms <==> id in h.order)
    && (forall id :: id in h.rooms ==> |h.rooms[id]| > 0 && DistinctIds(h.rooms[id]))
  }

  function RoomView(h: RouteHub, roomId: string): Option<seq<Participant>> {
    if roomId in h.rooms then Some(h.rooms[roomId]) else None
  }

  // ---------------------------------------------------------------------------
  // join-room
  // ---------------------------------------------------------------------------

  /**
   * join-room.  The room's array is created if it is missing.  The user is
   * replaced in place (found by id) or appended.  The whole array goes to
   * the room.
   */
  function AfterJoin(h: RouteHub, socketId: string, roomId: string, userId: string,
                     userName: string, photoURL: Option<string>, isHost: bool): RouteHub
  {
    var before := if roomId in h.rooms then h.rooms[roomId] else [];
    var users := Upsert(before, Participant(userId, userName, photoURL, socketId, isHost));
    RouteHub(h.rooms[roomId := users],
             if roomId in h.rooms then h.order else h.order + [roomId],
             h.outbox + [Emission(ToRoom(roomId), UsersUpdate(users))])
  }

  /**
   * After a join the room holds exactly one entry for the user.  The entry
   * has the new socket id and the isHost flag exactly as the client sent
   * it.  The room's array is the old one with that entry upserted (kept at
   * its index on a rejoin, appended otherwise), no other room changes, and
   * a new room goes to the end of the order.  The array goes to the room as
   * the only emission.
   */
  lemma JoinStoresUser(h: RouteHub, socketId: string, roomId: string, userId: string,
                       userName: string, photoURL: Option<string>, isHost: bool)
    requires RouteOk(h)
    ensures var h' := AfterJoin(h, socketId, roomId, userId, userName, photoURL, isHost);
      var before := if roomId in h.rooms then h.rooms[roomId] else [];
      var users := h'.rooms[roomId];
      && h'.rooms == h.rooms[roomId := Upsert(before, Participant(userId, userName, photoURL, socketId, isHost))]
      && h'.order == (if roomId in h.rooms then h.order else h.order + [roomId])
      && DistinctIds(users)
      && IndexOfId(users, userId).Some?
      && users[IndexOfId(users, userId).value] == Participant(userId, userName, photoURL, socketId, isHost)
      && h'.outbox == h.outbox + [Emission(ToRoom(roomId), UsersUpdate(users))]
  {
    var before := if roomId in h.rooms then h.rooms[roomId] else [];
    var u := Participant(userId, userName, photoURL, socketId, isHost);
    var users := Upsert(before, u);
    var i := if userId in Ids(before) then IndexOfId(before, userId).value else |before|;
    assert users[i] == u;
  }

  lemma JoinKeepsInvariant(h: RouteHub, socketId: string, roomId: string, userId: string,
                           userName: string, photoURL: Option<string>, isHost: bool)
    requires RouteOk(h)
    ensures RouteOk(AfterJoin(h, socketId, roomId, userId, userName, photoURL, isHost))
  {
    if roomId !in h.rooms {
      assert roomId !in h.order;
      assert DistinctIds([]);
    }
  }

  /**
   * The join does no host arbitration.  Two different users who both ask
   * to be host are both flagged in the same room.
   */
  lemma JoinAllowsTwoHosts()
    ensures var h1 := AfterJoin(RouteHub(map[], [], []), "s1", "r", "alice", "Alice", None, true);
      var h2 := AfterJoin(h1, "s2", "r", "bob", "Bob", None, true);
      && |h2.rooms["r"]| == 2
      && h2.rooms["r"][0].isHost && h2.rooms["r"][1].isHost
  {
    var h1 := AfterJoin(RouteHub(map[], [], []), "s1", "r", "alice", "Alice", None, true);
    var alice := Participant("alice", "Alice", None, "s1", true);
    assert h1.rooms["r"] == [alice] by {
      assert Ids([]) == [];
    }
    assert Ids([alice]) == ["alice"];
    assert "bob" !in Ids([alice]);
  }

  // ---------------------------------------------------------------------------
  // leave-room
  // ---------------------------------------------------------------------------

  /**
   * leave-room on a tracked room.  Filter the user out.  An empty result
   * deletes the room.  Otherwise, if nobody left is flagged host, the first
   * user is flagged and told so.  Either way the new array goes to the room.
   * An untracked room is left alone and nothing is emitted.
   */
  function AfterLeave(h: RouteHub, roomId: string, userId: string): RouteHub {
    if roomId !in h.rooms then h
    else
      var rest := WithoutId(h.rooms[roomId], userId);
      if |rest| == 0 then
        h.(rooms := h.rooms - {roomId}, order := RemoveKey(h.order, roomId))
      else if !AnyHost(rest) then
        var promoted := PromoteFirst(rest);
        h.(rooms := h.rooms[roomId := promoted],
           outbox := h.outbox + [Emission(ToSocket(rest[0].socketId), HostUpdate),
                                 Emission(ToRoom(roomId), UsersUpdate(promoted))])
      else
        h.(rooms := h.rooms[roomId := rest],
           outbox := h.outbox + [Emission(ToRoom(roomId), UsersUpdate(rest))])
  }

  /**
   * Leaving, case by case.  An untracked room is a no-op with no emission.
   * On distinct ids, the leaver's entry is removed and the others keep their
   * order (the filter removes every entry with that id in any case).  An
   * emptied room is deleted, with nothing sent.  A surviving room always
   * has a flagged host: when nobody left was flagged, the first remaining
   * user is flagged and alone receives a host-update.  The new array then
   * goes to the room.  No other room changes.
   */
  lemma LeaveKeepsAHost(h: RouteHub, roomId: string, userId: string)
    ensures roomId !in h.rooms ==> AfterLeave(h, roomId, userId) == h
    ensures roomId in h.rooms ==>
      var users := h.rooms[roomId];
      var rest := WithoutId(users, userId);
      var h' := AfterLeave(h, roomId, userId);
      && (userId in Ids(users) && DistinctIds(users) ==>
            var k := IndexOfId(users, userId).value;
            rest == users[..k] + users[k + 1..])
      && (userId !in Ids(users) ==> rest == users)
      && (|rest| == 0 ==>
            && h'.rooms == h.rooms - {roomId}
            && h'.order == RemoveKey(h.order, roomId)
            && h'.outbox == h.outbox)
      && (|rest| > 0 ==> h'.order == h.order && AnyHost(h'.rooms[roomId]))
      && (|rest| > 0 && AnyHost(rest) ==>
            && h'.rooms == h.rooms[roomId := rest]
            && h'.outbox == h.outbox + [Emission(ToRoom(roomId), UsersUpdate(rest))])
      && (|rest| > 0 && !AnyHost(rest) ==>
            && h'.rooms == h.rooms[roomId := PromoteFirst(rest)]
            && h'.outbox == h.outbox + [Emission(ToSocket(rest[0].socketId), HostUpdate),
                                        Emission(ToRoom(roomId), UsersUpdate(PromoteFirst(rest)))])
  {
    if roomId in h.rooms {
      var users := h.rooms[roomId];
      var rest := WithoutId(users, userId);
      if userId in Ids(users) && DistinctIds(users) {
        WithoutPresentId(users, userId, IndexOfId(users, userId).value);
      } else if userId !in Ids(users) {
        WithoutAbsentId(users, userId);
      }
      var h' := AfterLeave(h, roomId, userId);
      if |rest| > 0 && AnyHost(rest) {
        assert h'.rooms == h.rooms[roomId := rest];
      } else if |rest| > 0 {
        assert h'.rooms == h.rooms[roomId := PromoteFirst(rest)];
      }
    }
  }

  lemma LeaveKeepsInvariant(h: RouteHub, roomId: string, userId: string)
    requires RouteOk(h)
    ensures RouteOk(AfterLeave(h, roomId, userId))
  {
    if roomId in h.rooms {
      var rest := WithoutId(h.rooms[roomId], userId);
      WithoutIdKeepsDistinct(h.rooms[roomId], userId);
      if |rest| > 0 && !AnyHost(rest) {
        assert Ids(PromoteFirst(rest)) == Ids(rest);
      }
    }
  }

  // ---------------------------------------------------------------------------
  // video-action and chat-message
  // ---------------------------------------------------------------------------

  /**
   * video-action is relayed to everyone else in the room.  There is no
   * check on the sender, and the room need not even be tracked.
   */
  function AfterVideoAction(h: RouteHub, socketId: string, roomId: string, action: string,
                            value: Option<real>): RouteHub
  {
    h.(outbox := h.outbox + [Emission(ToRoomExcept(roomId, socketId), VideoAction(action, value))])
  }

  /**
   * Any sender, with or without the host flag, in a tracked room or not,
   * gets its action relayed unchanged.  Nothing but the outbox changes.
   */
  lemma VideoActionIsUnchecked(h: RouteHub, socketId: string, roomId: string, action: string,
                               value: Option<real>)
    ensures var h' := AfterVideoAction(h, socketId, roomId, action, value);
      && h'.rooms == h.rooms && h'.order == h.order
      && |h'.outbox| == |h.outbox| + 1
      && h'.outbox[..|h.outbox|] == h.outbox
      && h'.outbox[|h.outbox|].payload == VideoAction(action, value)
      && h'.outbox[|h.outbox|].target == ToRoomExcept(roomId, socketId)
  {
  }

  /** `${Date.now()}-${userId}` */
  function ChatId(now: nat, userId: string): (id: string)
    ensures |id| > |userId| + 1
  {
    NatToString(now) + "-" + userId
  }

  /**
   * Chat ids never collide across different (clock reading, user) pairs:
   * the decimal clock value, the dash and the user id can be read back.
   */
  lemma ChatIdInjective(a: nat, u: string, b: nat, v: string)
    requires ChatId(a, u) == ChatId(b, v)
    ensures a == b && u == v
  {
    assert ChatId(a, u) == NatToString(a) + ['-'] + u;
    assert ChatId(b, v) == NatToString(b) + ['-'] + v;
    DigitPrefixUnique(NatToString(a), NatToString(b), '-', u, v);
    NatToStringInjective(a, b);
  }

  /**
   * chat-message.  The message goes to the whole room, sender included.
   * The id and the timestamp come from two separate clock readings.
   */
  function AfterChat(h: RouteHub, roomId: string, userId: string, userName: string,
                     photoURL: Option<string>, text: string, idClock: nat, timestampClock: nat): RouteHub
  {
    var message := ChatMessage(ChatId(idClock, userId), ChatUser(userId, userName, photoURL), text, timestampClock);
    h.(outbox := h.outbox + [Emission(ToRoom(roomId), Chat(message))])
  }

  /**
   * A chat message leaves every room alone and appends one message to the
   * outbox.  The message is addressed to the whole room and carries the
   * sender's id, name and photo and the text unchanged.  Its id is the
   * first clock reading, a dash and the user id, which ChatIdInjective
   * shows to be unique per (reading, user) pair.
   */
  lemma ChatIsRelayed(h: RouteHub, roomId: string, userId: string, userName: string,
                      photoURL: Option<string>, text: string, idClock: nat, timestampClock: nat)
    ensures var h' := AfterChat(h, roomId, userId, userName, photoURL, text, idClock, timestampClock);
      && h'.rooms == h.rooms && h'.order == h.order
      && |h'.outbox| == |h.outbox| + 1
      && h'.outbox[..|h.outbox|] == h.outbox
      && var e := h'.outbox[|h.outbox|];
         && e.target == ToRoom(roomId) && e.payload.Chat?
         && e.payload.message.user == ChatUser(userId, userName, photoURL)
         && e.payload.message.text == text
         && e.payload.message.timestamp == timestampClock
         && e.payload.message.id == ChatId(idClock, userId)
  {
  }

  // ---------------------------------------------------------------------------
  // disconnect
  // ---------------------------------------------------------------------------

  /**
   * One forEach step.  The first user on this socket is spliced out.  An
   * emptied room is deleted.  Otherwise, if the removed user was flagged
   * host, the first remaining user is flagged and told so, and the array
   * goes to the room.
   */
  function DisconnectInRoom(h: RouteHub, roomId: string, socketId: string): RouteHub {
    if roomId !in h.rooms then h
    else
      var users := h.rooms[roomId];
      match IndexOfSocket(users, socketId)
      case None => h
      case Some(k) =>
        var wasHost := users[k].isHost;
        var rest := RemoveAt(users, k);
        if |rest| == 0 then
          h.(rooms := h.rooms - {roomId}, order := RemoveKey(h.order, roomId))
        else if wasHost then
          var promoted := PromoteFirst(rest);
          h.(rooms := h.rooms[roomId := promoted],
             outbox := h.outbox + [Emission(ToSocket(rest[0].socketId), HostUpdate),
                                   Emission(ToRoom(roomId), UsersUpdate(promoted))])
        else
          h.(rooms := h.rooms[roomId := rest],
             outbox := h.outbox + [Emission(ToRoom(roomId), UsersUpdate(rest))])
  }

  function DisconnectFrom(h: RouteHub, ids: seq<string>, socketId: string): RouteHub
    decreases |ids|
  {
    if ids == [] then h else DisconnectFrom(DisconnectInRoom(h, ids[0], socketId), ids[1..], socketId)
  }

  /** disconnect: every room, in the Map's insertion order. */
  function AfterDisconnect(h: RouteHub, socketId: string): RouteHub {
    DisconnectFrom(h, h.order, socketId)
  }

  /**
   * In one room, disconnecting removes exactly the first user on the socket,
   * and the others keep their order.  An emptied room is deleted, with
   * nothing sent.  When the removed user was flagged host, the first
   * remaining user is flagged and alone receives a host-update; when it was
   * not, the others are left exactly as they were and nobody is told.  The
   * new array then goes to the room.  No other room changes.
   */
  lemma DisconnectInRoomPromotesIffWasHost(h: RouteHub, roomId: string, socketId: string)
    requires roomId in h.rooms && IndexOfSocket(h.rooms[roomId], socketId).Some?
    ensures var users := h.rooms[roomId];
      var k := IndexOfSocket(users, socketId).value;
      var rest := users[..k] + users[k + 1..];
      var h' := DisconnectInRoom(h, roomId, socketId);
      && (|rest| == 0 ==>
            && h'.rooms == h.rooms - {roomId}
            && h'.order == RemoveKey(h.order, roomId)
            && h'.outbox == h.outbox)
      && (|rest| > 0 ==>
            var after := if users[k].isHost then PromoteFirst(rest) else rest;
            && h'.rooms == h.rooms[roomId := after]
            && h'.order == h.order
            && h'.outbox == h.outbox
                 + (if users[k].isHost then [Emission(ToSocket(rest[0].socketId), HostUpdate)] else [])
                 + [Emission(ToRoom(roomId), UsersUpdate(after))])
  {
    var users := h.rooms[roomId];
    var k := IndexOfSocket(users, socketId).value;
    assert RemoveAt(users, k) == users[..k] + users[k + 1..];
  }

  /**
   * Unlike leave-room, disconnect promotes only when the removed user was
   * flagged.  So a room that had nobody flagged survives a disconnect with
   * nobody flagged.
   */
  lemma DisconnectCanLeaveNoHost()
    ensures var u1 := Participant("a", "A", None, "s1", false);
      var u2 := Participant("b", "B", None, "s2", false);
      var h := RouteHub(map["r" := [u1, u2]], ["r"], []);
      var h' := DisconnectInRoom(h, "r", "s1");
      && "r" in h'.rooms && h'.rooms["r"] == [u2] && !AnyHost(h'.rooms["r"])
  {
    var u1 := Participant("a", "A", None, "s1", false);
    var u2 := Participant("b", "B", None, "s2", false);
    assert IndexOfSocket([u1, u2], "s1") == Some(0);
    assert RemoveAt([u1, u2], 0) == [u2];
  }

  lemma DisconnectInRoomKeepsInvariant(h: RouteHub, roomId: string, socketId: string)
    requires RouteOk(h)
    ensures RouteOk(DisconnectInRoom(h, roomId, socketId))
  {
    if roomId in h.rooms && IndexOfSocket(h.rooms[roomId], socketId).Some? {
      var users := h.rooms[roomId];
      var rest := RemoveAt(users, IndexOfSocket(users, socketId).value);
      if |rest| > 0 && users[IndexOfSocket(users, socketId).value].isHost {
        assert Ids(PromoteFirst(rest)) == Ids(rest);
        assert DistinctIds(PromoteFirst(rest)) by {
          forall i, j | 0 <= i < j < |rest| ensures PromoteFirst(rest)[i].id != PromoteFirst(rest)[j].id {
            assert Ids(PromoteFirst(rest))[i] == Ids(rest)[i];
            assert Ids(PromoteFirst(rest))[j] == Ids(rest)[j];
          }
        }
      }
    }
  }

  lemma {:induction false} DisconnectFromKeepsInvariant(h: RouteHub, ids: seq<string>, socketId: string)
    requires RouteOk(h)
    ensures RouteOk(DisconnectFrom(h, ids, socketId))
    decreases |ids|
  {
    if ids != [] {
      DisconnectInRoomKeepsInvariant(h, ids[0], socketId);
      DisconnectFromKeepsInvariant(DisconnectInRoom(h, ids[0], socketId), ids[1..], socketId);
    }
  }

  /** What disconnecting does to one room, seen in isolation. */
  function RoomAfterDisconnect(h: RouteHub, roomId: string, socketId: string): Option<seq<Participant>> {
    RoomView(DisconnectInRoom(h, roomId, socketId), roomId)
  }

  lemma {:induction false} DisconnectFromRoomwise(h: RouteHub, ids: seq<string>, socketId: string, x: string)
    requires NoDuplicates(ids)
    ensures x !in ids ==> RoomView(DisconnectFrom(h, ids, socketId), x) == RoomView(h, x)
    ensures x in ids ==> RoomView(DisconnectFrom(h, ids, socketId), x) == RoomAfterDisconnect(h, x, socketId)
    decreases |ids|
  {
    if ids != [] {
      var h1 := DisconnectInRoom(h, ids[0], socketId);
      assert NoDuplicates(ids[1..]);
      DisconnectFromRoomwise(h1, ids[1..], socketId, x);
      if x == ids[0] {
        assert x !in ids[1..];
      } else {
        assert RoomView(h1, x) == RoomView(h, x);
        assert RoomAfterDisconnect(h1, x, socketId) == RoomAfterDisconnect(h, x, socketId);
      }
    }
  }

  /**
   * Disconnect, room by room: each room ends as the one-room step leaves it,
   * whatever happened to the rooms visited before it.
   */
  lemma DisconnectRoomwise(h: RouteHub, socketId: string, roomId: string)
    requires RouteOk(h)
    ensures RoomView(AfterDisconnect(h, socketId), roomId) == RoomAfterDisconnect(h, roomId, socketId)
  {
    DisconnectFromRoomwise(h, h.order, socketId, roomId);
  }

  // ---------------------------------------------------------------------------
  // The route's Socket.IO server, as a mutable object
  // ---------------------------------------------------------------------------

  class Route {
    var rooms: map<string, seq<Participant>>
    var order: seq<string>
    var outbox: seq<Emission>

    function State(): RouteHub
      reads this
    {
      RouteHub(rooms, order, outbox)
    }

    ghost predicate Valid()
      reads this
    {
      RouteOk(State())
    }

    constructor ()
      ensures Valid() && State() == RouteHub(map[], [], [])
    {
      rooms, order, outbox := map[], [], [];
    }

    method JoinRoom(socketId: string, roomId: string, userId: string, userName: string,
                    photoURL: Option<string>, isHost: bool)
      requires Valid()
      modifies this
      ensures Valid()
      ensures State() == AfterJoin(old(State()), socketId, roomId, userId, userName, photoURL, isHost)
    {
      ghost var h0 := State();
      JoinKeepsInvariant(h0, socketId, roomId, userId, userName, photoURL, isHost);
      // roomUsers.set(roomId, []) followed later by roomUsers.set(roomId, list)
      // leaves the same map as the single update below.
      var list := if roomId in rooms then rooms[roomId] else [];
      if roomId !in rooms {
        order := order + [roomId];
      }
      var userInfo := Participant(userId, userName, photoURL, socketId, isHost);
      UpsertCases(list, userInfo);
      var existingUserIndex := IndexOfId(list, userId);
      if existingUserIndex.Some? {
        list := list[existingUserIndex.value := userInfo];
      } else {
        list := list + [userInfo];
      }
      rooms := rooms[roomId := list];
      outbox := outbox + [Emission(ToRoom(roomId), UsersUpdate(list))];
    }

    method LeaveRoom(roomId: string, userId: string)
      requires Valid()
      modifies this
      ensures Valid()
      ensures State() == AfterLeave(old(State()), roomId, userId)
    {
      LeaveKeepsInvariant(State(), roomId, userId);
      if roomId in rooms {
        var updated := WithoutId(rooms[roomId], userId);
        if |updated| == 0 {
          rooms := rooms - {roomId};
          order := RemoveKey(order, roomId);
        } else {
          if !AnyHost(updated) {
            var first := updated[0];
            updated := PromoteFirst(updated);
            outbox := outbox + [Emission(ToSocket(first.socketId), HostUpdate)];
          }
          rooms := rooms[roomId := updated];
          outbox := outbox + [Emission(ToRoom(roomId), UsersUpdate(updated))];
        }
      }
    }

    method RelayVideoAction(socketId: string, roomId: string, action: string, value: Option<real>)
      requires Valid()
      modifies this
      ensures Valid()
      ensures State() == AfterVideoAction(old(State()), socketId, roomId, action, value)
    {
      outbox := outbox + [Emission(ToRoomExcept(roomId, socketId), VideoAction(action, value))];
    }

    method SendChatMessage(roomId: string, userId: string, userName: string, photoURL: Option<string>,
                           text: string, idClock: nat, timestampClock: nat)
      requires Valid()
      modifies this
      ensures Valid()
      ensures State() == AfterChat(old(State()), roomId, userId, userName, photoURL, text, idClock, timestampClock)
    {
      var message := ChatMessage(ChatId(idClock, userId), ChatUser(userId, userName, photoURL), text, timestampClock);
      outbox := outbox + [Emission(ToRoom(roomId), Chat(message))];
    }

    /** The forEach callback for one room. */
    method DisconnectRoom(roomId: string, socketId: string)
      requires Valid()
      modifies this
      ensures Valid()
      ensures State() == DisconnectInRoom(old(State()), roomId, socketId)
    {
      DisconnectInRoomKeepsInvariant(State(), roomId, socketId);
      if roomId !in rooms {
        return;
      }
      var users := rooms[roomId];
      var userIndex := IndexOfSocket(users, socketId);
      if userIndex.Some? {
        var wasHost := users[userIndex.value].isHost;
        users := RemoveAt(users, userIndex.value);
        if |users| == 0 {
          rooms := rooms - {roomId};
          order := RemoveKey(order, roomId);
        } else {
          if wasHost {
            var first := users[0];
            users := PromoteFirst(users);
            outbox := outbox + [Emission(ToSocket(first.socketId), HostUpdate)];
          }
          rooms := rooms[roomId := users];
          outbox := outbox + [Emission(ToRoom(roomId), UsersUpdate(users))];
        }
      }
    }

    method Disconnect(socketId: string)
      requires Valid()
      modifies this
      ensures Valid()
      ensures State() == AfterDisconnect(old(State()), socketId)
    {
      var ids := order;
      var i := 0;
      while i < |ids|
        invariant 0 <= i <= |ids|
        invariant Valid()
        invariant DisconnectFrom(State(), ids[i..], socketId) == AfterDisconnect(old(State()), socketId)
      {
        assert ids[i..][0] == ids[i] && ids[i..][1..] == ids[i + 1..];
        DisconnectRoom(ids[i], socketId);
        i := i + 1;
      }
    }
  }
}
