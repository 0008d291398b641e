/**
 * The standalone Socket.IO process (src/server/socketServer.js).
 *
 * The process keeps one `rooms` Map.  Each room has a `hostId` (or none), a
 * Map of users keyed by user id, and a cached video state.  The handlers
 * (join-room, video-play-pause, video-seek, video-progress, leave-room,
 * disconnect) run one at a time on the event loop.
 *
 * The state is modelled twice.  `Hub` is a value, and the `AfterX` functions
 * give the state that each handler leaves; the lemmas state what those
 * transitions promise.  `Server` is a class whose methods change their fields
 * step by step, in the order the handlers do, and each method is proved to
 * produce exactly the matching `AfterX` state.
 *
 * Emitted events are not delivered.  They are appended to an outbox as
 * (target, payload) records.
 */
module SocketServer {
  import opened Wrappers
  import opened Presence

  /** Progress broadcasts are throttled to one per this many milliseconds. */
  const ProgressThrottleMs: int := 5000

  /** The cached playback state; `currentTime` is only ever copied. */
  datatype VideoState = VideoState(isPlaying: bool, currentTime: real, lastUpdate: int)

  datatype Room = Room(hostId: Option<string>, users: seq<Participant>, videoState: VideoState)

  /** Payloads of the events this server emits, one variant per event name. */
  datatype Payload =
    | UsersUpdate(users: seq<Participant>)                 // 'users-update'
    | VideoStateSync(state: VideoState)                    // 'video-state'
    | PlayPauseUpdate(isPlaying: bool)                     // 'video-play-pause-update'
    | SeekUpdate(currentTime: real)                        // 'video-seek-update'
    | ProgressUpdate(currentTime: real, isPlaying: bool)   // 'video-progress-update'
    | HostUpdate                                           // 'host-update' with { isHost: true }

  datatype Emission = Emission(target: Target, payload: Payload)

  /**
   * The whole process state.  `order` lists the room ids in the `rooms`
   * Map's insertion order, and `outbox` holds everything emitted so far.
   */
  datatype Hub = Hub(rooms: map<string, Room>, order: seq<string>, outbox: seq<Emission>)

  // ---------------------------------------------------------------------------
  // Invariant
  // ---------------------------------------------------------------------------

  /**
   * A live room has at least one user, at most one entry per user id, and a
   * host id that is either absent or the id of a current user.
   */
  ghost predicate RoomOk(r: Room) {
    && |r.users| > 0
    && DistinctIds(r.users)
    && (r.hostId.Some? ==> r.hostId.value in Ids(r.users))
  }

  ghost predicate HubOk(h: Hub) {
    && NoDuplicates(h.order)
    && (forall id :: id in h.rooms <==> id in h.order)
    && (forall id :: id in h.rooms ==> RoomOk(h.rooms[id]))
  }

  /** The room as seen from outside: absent, or present with this value. */
  function RoomView(h: Hub, roomId: string): Option<Room> {
    if roomId in h.rooms then Some(h.rooms[roomId]) else None
  }

  // ---------------------------------------------------------------------------
  // join-room
  // ---------------------------------------------------------------------------

  /** `!room.hostId`: null and the empty string are both falsy. */
  predicate IsFalsy(hostId: Option<string>) {
    hostId.None? || hostId.value == ""
  }

  /** The record a join stores for the user. */
  function JoiningUser(socketId: string, userId: string, userName: string,
                       photoURL: Option<string>, isHost: bool): Participant
  {
    Participant(userId, userName, photoURL, socketId, isHost)
  }

  /** The room that a join to an unknown room id creates. */
  function NewRoom(userId: string, isHost: bool, now: int): Room {
    Room(if isHost then Some(userId) else None, [], VideoState(false, 0.0, now))
  }

  /**
   * join-room.  The room is created if it is missing.  The host id is taken
   * only when it is vacant.  The user's record is set by user id.  Then the
   * user list goes to the whole room, and the cached video state goes to the
   * joining socket.
   */
  function AfterJoin(h: Hub, socketId: string, roomId: string, userId: string,
                     userName: string, photoURL: Option<string>, isHost: bool, now: int): Hub
  {
    var created := roomId !in h.rooms;
    var room0 := if created then NewRoom(userId, isHost, now) else h.rooms[roomId];
    var hostId := if isHost && IsFalsy(room0.hostId) then Some(userId) else room0.hostId;
    var users := Upsert(room0.users, JoiningUser(socketId, userId, userName, photoURL, isHost));
    var room := room0.(hostId := hostId, users := users);
    Hub(h.rooms[roomId := room],
        if created then h.order + [roomId] else h.order,
        h.outbox + [Emission(ToRoom(roomId), UsersUpdate(users)),
                    Emission(ToSocket(socketId), VideoStateSync(room.videoState))])
  }

  /**
   * A join to an unknown room creates it at the end of the room order.  The
   * new room is not playing, is at position 0, and was last updated now.  Its
   * host is the joining user if that user asked to be host, and nobody
   * otherwise.  Its only user is the joining user.
   */
  lemma JoinCreatesRoom(h: Hub, socketId: string, roomId: string, userId: string,
                        userName: string, photoURL: Option<string>, isHost: bool, now: int)
    requires roomId !in h.rooms
    ensures var h' := AfterJoin(h, socketId, roomId, userId, userName, photoURL, isHost, now);
      && roomId in h'.rooms
      && h'.order == h.order + [roomId]
      && h'.rooms[roomId].hostId == (if isHost then Some(userId) else None)
      && h'.rooms[roomId].videoState == VideoState(false, 0.0, now)
      && h'.rooms[roomId].users == [JoiningUser(socketId, userId, userName, photoURL, isHost)]
  {
    assert Ids([])  == [];
  }

  /**
   * Host arbitration on join.  A host id that is already set, and is not the
   * empty string, is never overwritten.  A vacant slot goes to a user who
   * asked to be host.  A user who did not ask leaves the host id as it was.
   */
  lemma JoinHostArbitration(h: Hub, socketId: string, roomId: string, userId: string,
                            userName: string, photoURL: Option<string>, isHost: bool, now: int)
    requires roomId in h.rooms
    ensures var before := h.rooms[roomId].hostId;
      var after := AfterJoin(h, socketId, roomId, userId, userName, photoURL, isHost, now).rooms[roomId].hostId;
      && (!IsFalsy(before) ==> after == before)
      && (isHost && IsFalsy(before) ==> after == Some(userId))
      && (!isHost ==> after == before)
  {
  }

  /**
   * A rejoin with a user id already in the room overwrites that entry in
   * place.  The entry keeps its position and becomes the new record (name,
   * photo, socket id and isHost flag), and no second entry appears.  A new
   * user id is appended.
   */
  lemma JoinUpsertsUser(h: Hub, socketId: string, roomId: string, userId: string,
                        userName: string, photoURL: Option<string>, isHost: bool, now: int)
    requires HubOk(h) && roomId in h.rooms
    ensures var before := h.rooms[roomId].users;
      var after := AfterJoin(h, socketId, roomId, userId, userName, photoURL, isHost, now).rooms[roomId].users;
      && DistinctIds(after)
      && (userId in Ids(before) ==>
            var k := IndexOfId(before, userId).value;
            && |after| == |before|
            && after[k] == JoiningUser(socketId, userId, userName, photoURL, isHost)
            && forall j :: 0 <= j < |before| && j != k ==> after[j] == before[j])
      && (userId !in Ids(before) ==>
            after == before + [JoiningUser(socketId, userId, userName, photoURL, isHost)])
  {
  }

  /**
   * What a join sends and what it leaves alone.  The room's whole user list
   * goes to everyone in the room, then the cached video state goes to the
   * joining socket.  A room that already existed keeps its video state and
   * its place in the room order, and every other room is untouched.
   */
  lemma JoinEmits(h: Hub, socketId: string, roomId: string, userId: string,
                  userName: string, photoURL: Option<string>, isHost: bool, now: int)
    ensures var h' := AfterJoin(h, socketId, roomId, userId, userName, photoURL, isHost, now);
      && roomId in h'.rooms
      && h'.outbox == h.outbox + [Emission(ToRoom(roomId), UsersUpdate(h'.rooms[roomId].users)),
                                  Emission(ToSocket(socketId), VideoStateSync(h'.rooms[roomId].videoState))]
      && (roomId in h.rooms ==> h'.rooms[roomId].videoState == h.rooms[roomId].videoState && h'.order == h.order)
      && (forall other :: other != roomId ==> RoomView(h', other) == RoomView(h, other))
  {
  }

  /** join-room keeps the invariant. */
  lemma JoinKeepsInvariant(h: Hub, socketId: string, roomId: string, userId: string,
                           userName: string, photoURL: Option<string>, isHost: bool, now: int)
    requires HubOk(h)
    ensures HubOk(AfterJoin(h, socketId, roomId, userId, userName, photoURL, isHost, now))
  {
    var h' := AfterJoin(h, socketId, roomId, userId, userName, photoURL, isHost, now);
    var me := JoiningUser(socketId, userId, userName, photoURL, isHost);
    var room0 := if roomId !in h.rooms then NewRoom(userId, isHost, now) else h.rooms[roomId];
    var room := h'.rooms[roomId];
    assert room.users == Upsert(room0.users, me);
    UpsertKeepsIds(room0.users, me);
    assert RoomOk(room);
    if roomId !in h.rooms {
      assert roomId !in h.order;
    }
  }

  /** Every id already in a roster is still there after an upsert. */
  lemma UpsertKeepsIds(us: seq<Participant>, u: Participant)
    ensures forall x :: x in Ids(us) ==> x in Ids(Upsert(us, u))
  {
    var r := Upsert(us, u);
    forall x | x in Ids(us) ensures x in Ids(r) {
      var k :| 0 <= k < |us| && Ids(us)[k] == x;
      if u.id in Ids(us) {
        var i := IndexOfId(us, u.id).value;
        if k == i {
          assert r[i].id == u.id == us[i].id;
        }
        assert Ids(r)[k] == x;
      } else {
        assert Ids(r)[k] == x;
      }
    }
  }

  // ---------------------------------------------------------------------------
  // video-play-pause, video-seek, video-progress
  // ---------------------------------------------------------------------------

  /**
   * `user?.isHost || userId === room.hostId`: the sender's own entry carries
   * the isHost flag, or the sender is the room's host id.
   */
  predicate IsController(r: Room, userId: string) {
    (match IndexOfId(r.users, userId)
     case Some(k) => r.users[k].isHost
     case None => false)
    || r.hostId == Some(userId)
  }

  /** Replace a room's video state and append emissions. */
  function WithVideoState(h: Hub, roomId: string, vs: VideoState, emitted: seq<Emission>): Hub
    requires roomId in h.rooms
  {
    h.(rooms := h.rooms[roomId := h.rooms[roomId].(videoState := vs)], outbox := h.outbox + emitted)
  }

  /** video-play-pause: a controller sets isPlaying and the time stamp, and tells the others. */
  function AfterPlayPause(h: Hub, socketId: string, roomId: string, isPlaying: bool,
                          userId: string, now: int): Hub
  {
    if roomId !in h.rooms || !IsController(h.rooms[roomId], userId) then h
    else
      var vs := h.rooms[roomId].videoState.(isPlaying := isPlaying, lastUpdate := now);
      WithVideoState(h, roomId, vs, [Emission(ToRoomExcept(roomId, socketId), PlayPauseUpdate(isPlaying))])
  }

  /** video-seek: a controller sets currentTime and the time stamp, and tells the others. */
  function AfterSeek(h: Hub, socketId: string, roomId: string, currentTime: real,
                     userId: string, now: int): Hub
  {
    if roomId !in h.rooms || !IsController(h.rooms[roomId], userId) then h
    else
      var vs := h.rooms[roomId].videoState.(currentTime := currentTime, lastUpdate := now);
      WithVideoState(h, roomId, vs, [Emission(ToRoomExcept(roomId, socketId), SeekUpdate(currentTime))])
  }

  /**
   * video-progress: a controller always updates currentTime and isPlaying.
   * The others hear of it only when more than ProgressThrottleMs have passed
   * since the last time stamp, and only then is the time stamp moved.  The
   * handler reads the clock twice: `now` is compared with the stamp, and
   * `later`, the second reading, is what gets stored.
   */
  function AfterProgress(h: Hub, socketId: string, roomId: string, playedSeconds: real,
                         playing: bool, userId: string, now: int, later: int): Hub
  {
    if roomId !in h.rooms || !IsController(h.rooms[roomId], userId) then h
    else
      var vs := h.rooms[roomId].videoState.(currentTime := playedSeconds, isPlaying := playing);
      if now - vs.lastUpdate > ProgressThrottleMs then
        WithVideoState(h, roomId, vs.(lastUpdate := later),
                       [Emission(ToRoomExcept(roomId, socketId), ProgressUpdate(playedSeconds, playing))])
      else
        WithVideoState(h, roomId, vs, [])
  }

  /**
   * The host gate.  A play/pause, seek or progress event changes nothing
   * and emits nothing when the room is unknown, or when the sender is
   * neither flagged isHost nor the room's host id.
   */
  lemma NonControllerIsIgnored(h: Hub, socketId: string, roomId: string, userId: string,
                               isPlaying: bool, t: real, now: int, later: int)
    requires roomId !in h.rooms || !IsController(h.rooms[roomId], userId)
    ensures AfterPlayPause(h, socketId, roomId, isPlaying, userId, now) == h
    ensures AfterSeek(h, socketId, roomId, t, userId, now) == h
    ensures AfterProgress(h, socketId, roomId, t, isPlaying, userId, now, later) == h
  {
  }

  /**
   * An accepted play/pause or seek from a controller changes only the field
   * it carries and the time stamp of that room's video state.  The users,
   * the host id, the other field, every other room and the room order stay.
   * It sends exactly one event, to everyone in the room except the sender.
   */
  lemma ControllerIsRelayed(h: Hub, socketId: string, roomId: string, userId: string,
                            isPlaying: bool, t: real, now: int)
    requires roomId in h.rooms && IsController(h.rooms[roomId], userId)
    ensures var r := h.rooms[roomId];
      var h' := AfterPlayPause(h, socketId, roomId, isPlaying, userId, now);
      && h'.rooms == h.rooms[roomId := r.(videoState := VideoState(isPlaying, r.videoState.currentTime, now))]
      && h'.order == h.order
      && h'.outbox == h.outbox + [Emission(ToRoomExcept(roomId, socketId), PlayPauseUpdate(isPlaying))]
    ensures var r := h.rooms[roomId];
      var h' := AfterSeek(h, socketId, roomId, t, userId, now);
      && h'.rooms == h.rooms[roomId := r.(videoState := VideoState(r.videoState.isPlaying, t, now))]
      && h'.order == h.order
      && h'.outbox == h.outbox + [Emission(ToRoomExcept(roomId, socketId), SeekUpdate(t))]
  {
  }

  /**
   * The progress throttle.  A controller's progress always sets the time and
   * the playing flag and nothing else beside the stamp.  When more than
   * ProgressThrottleMs have passed, the second clock reading becomes the
   * stamp and one update goes to the room except the sender; otherwise the
   * stamp stays and nothing is sent.
   */
  lemma ProgressThrottle(h: Hub, socketId: string, roomId: string, played: real,
                         playing: bool, userId: string, now: int, later: int)
    requires roomId in h.rooms && IsController(h.rooms[roomId], userId)
    ensures var r := h.rooms[roomId];
      var h' := AfterProgress(h, socketId, roomId, played, playing, userId, now, later);
      var due := now - r.videoState.lastUpdate > ProgressThrottleMs;
      && h'.order == h.order
      && h'.rooms == h.rooms[roomId := r.(videoState :=
           VideoState(playing, played, if due then later else r.videoState.lastUpdate))]
      && (due ==> h'.outbox == h.outbox + [Emission(ToRoomExcept(roomId, socketId), ProgressUpdate(played, playing))])
      && (!due ==> h'.outbox == h.outbox)
  {
  }

  /** Replacing a video state keeps the invariant: rosters and host ids are untouched. */
  lemma VideoStateKeepsInvariant(h: Hub, roomId: string, vs: VideoState, emitted: seq<Emission>)
    requires HubOk(h) && roomId in h.rooms
    ensures HubOk(WithVideoState(h, roomId, vs, emitted))
  {
    var h' := WithVideoState(h, roomId, vs, emitted);
    assert h'.rooms.Keys == h.rooms.Keys;
    assert RoomOk(h'.rooms[roomId]);
  }

  /** The three playback handlers keep the invariant. */
  lemma PlaybackKeepsInvariant(h: Hub, socketId: string, roomId: string, userId: string,
                               isPlaying: bool, t: real, now: int, later: int)
    requires HubOk(h)
    ensures HubOk(AfterPlayPause(h, socketId, roomId, isPlaying, userId, now))
    ensures HubOk(AfterSeek(h, socketId, roomId, t, userId, now))
    ensures HubOk(AfterProgress(h, socketId, roomId, t, isPlaying, userId, now, later))
  {
    if roomId in h.rooms && IsController(h.rooms[roomId], userId) {
      var vs := h.rooms[roomId].videoState;
      VideoStateKeepsInvariant(h, roomId, vs.(isPlaying := isPlaying, lastUpdate := now),
                               [Emission(ToRoomExcept(roomId, socketId), PlayPauseUpdate(isPlaying))]);
      VideoStateKeepsInvariant(h, roomId, vs.(currentTime := t, lastUpdate := now),
                               [Emission(ToRoomExcept(roomId, socketId), SeekUpdate(t))]);
      VideoStateKeepsInvariant(h, roomId, vs.(currentTime := t, isPlaying := isPlaying, lastUpdate := later),
                               [Emission(ToRoomExcept(roomId, socketId), ProgressUpdate(t, isPlaying))]);
      VideoStateKeepsInvariant(h, roomId, vs.(currentTime := t, isPlaying := isPlaying), []);
    }
  }

  // ---------------------------------------------------------------------------
  // leave-room and handleUserDisconnect
  // ---------------------------------------------------------------------------

  /**
   * The room after `room.users.delete(userId)` and host migration: none if
   * it became empty; otherwise, if the leaver was the host id, the first
   * remaining user in insertion order becomes host id and gets the flag.
   */
  function RoomAfterLeave(r: Room, userId: string): Option<Room> {
    var users := WithoutId(r.users, userId);
    if |users| == 0 then None
    else if r.hostId == Some(userId) then
      Some(r.(hostId := Some(users[0].id), users := PromoteFirst(users)))
    else
      Some(r.(users := users))
  }

  /** handleUserDisconnect(roomId, userId), used by leave-room and disconnect. */
  function AfterUserLeft(h: Hub, roomId: string, userId: string): Hub {
    if roomId !in h.rooms then h
    else
      var r := h.rooms[roomId];
      match RoomAfterLeave(r, userId)
      case None =>
        h.(rooms := h.rooms - {roomId}, order := RemoveKey(h.order, roomId))
      case Some(r') =>
        var notice := if r.hostId == Some(userId)
                      then [Emission(ToSocket(r'.users[0].socketId), HostUpdate)] else [];
        h.(rooms := h.rooms[roomId := r'],
           outbox := h.outbox + notice + [Emission(ToRoom(roomId), UsersUpdate(r'.users))])
  }

  /** Every id other than the removed one survives the filter. */
  lemma WithoutIdKeepsOtherIds(us: seq<Participant>, id: string, x: string)
    requires x in Ids(us) && x != id
    ensures x in Ids(WithoutId(us, id))
  {
    var k :| 0 <= k < |us| && Ids(us)[k] == x;
    assert us[k] in us;
    var r := WithoutId(us, id);
    assert us[k] in r;
    var j :| 0 <= j < |r| && r[j] == us[k];
    assert Ids(r)[j] == x;
  }

  /**
   * Leaving, case by case.  An unknown room is a no-op.  The leaver's entry
   * is removed and the others keep their order.  A room that becomes empty
   * is deleted, with nothing sent.  When the host id leaves and users
   * remain, the first remaining user becomes host id and is flagged, that
   * user alone receives a host-update, and then the room gets the new list.
   * Otherwise only the list changes and is sent to the room.  No other room
   * changes, and a surviving room keeps its place in the order.
   */
  lemma LeaveMigratesHost(h: Hub, roomId: string, userId: string)
    requires HubOk(h)
    ensures roomId !in h.rooms ==> AfterUserLeft(h, roomId, userId) == h
    ensures roomId in h.rooms ==>
      var r := h.rooms[roomId];
      var rest := WithoutId(r.users, userId);
      var h' := AfterUserLeft(h, roomId, userId);
      && (userId in Ids(r.users) ==>
            var k := IndexOfId(r.users, userId).value;
            rest == r.users[..k] + r.users[k + 1..])
      && (userId !in Ids(r.users) ==> rest == r.users)
      && (|rest| == 0 ==>
            && h'.rooms == h.rooms - {roomId}
            && h'.order == RemoveKey(h.order, roomId)
            && h'.outbox == h.outbox)
      && (|rest| > 0 && r.hostId == Some(userId) ==>
            && h'.rooms == h.rooms[roomId := r.(hostId := Some(rest[0].id), users := PromoteFirst(rest))]
            && h'.order == h.order
            && h'.outbox == h.outbox + [Emission(ToSocket(rest[0].socketId), HostUpdate),
                                        Emission(ToRoom(roomId), UsersUpdate(PromoteFirst(rest)))])
      && (|rest| > 0 && r.hostId != Some(userId) ==>
            && h'.rooms == h.rooms[roomId := r.(users := rest)]
            && h'.order == h.order
            && h'.outbox == h.outbox + [Emission(ToRoom(roomId), UsersUpdate(rest))])
  {
    if roomId in h.rooms {
      var r := h.rooms[roomId];
      if userId in Ids(r.users) {
        WithoutPresentId(r.users, userId, IndexOfId(r.users, userId).value);
      } else {
        WithoutAbsentId(r.users, userId);
      }
      var rest := WithoutId(r.users, userId);
      var h' := AfterUserLeft(h, roomId, userId);
      if |rest| == 0 {
        assert RoomAfterLeave(r, userId).None?;
        assert h' == h.(rooms := h.rooms - {roomId}, order := RemoveKey(h.order, roomId));
      } else if r.hostId == Some(userId) {
        var r' := r.(hostId := Some(rest[0].id), users := PromoteFirst(rest));
        assert RoomAfterLeave(r, userId) == Some(r');
        assert h' == h.(rooms := h.rooms[roomId := r'],
                        outbox := h.outbox + [Emission(ToSocket(rest[0].socketId), HostUpdate)]
                                  + [Emission(ToRoom(roomId), UsersUpdate(r'.users))]);
      } else {
        assert RoomAfterLeave(r, userId) == Some(r.(users := rest));
        assert h' == h.(rooms := h.rooms[roomId := r.(users := rest)],
                        outbox := h.outbox + [] + [Emission(ToRoom(roomId), UsersUpdate(rest))]);
      }
    }
  }

  /** handleUserDisconnect keeps the invariant. */
  lemma {:induction false} UserLeftKeepsInvariant(h: Hub, roomId: string, userId: string)
    requires HubOk(h)
    ensures HubOk(AfterUserLeft(h, roomId, userId))
  {
    if roomId in h.rooms {
      var r := h.rooms[roomId];
      var rest := WithoutId(r.users, userId);
      WithoutIdKeepsDistinct(r.users, userId);
      if |rest| > 0 {
        var r' := RoomAfterLeave(r, userId).value;
        if r.hostId == Some(userId) {
          assert Ids(r'.users)[0] == rest[0].id;
        } else if r.hostId.Some? {
          WithoutIdKeepsOtherIds(r.users, userId, r.hostId.value);
        }
        assert RoomOk(r');
      }
    }
  }

  // ---------------------------------------------------------------------------
  // disconnect
  // ---------------------------------------------------------------------------

  /**
   * One step of the disconnect scan: in this room, the first user (in
   * insertion order) whose socket id matches leaves; the scan of the room
   * stops there.
   */
  function DisconnectInRoom(h: Hub, roomId: string, socketId: string): Hub {
    if roomId !in h.rooms then h
    else match IndexOfSocket(h.rooms[roomId].users, socketId)
      case None => h
      case Some(k) => AfterUserLeft(h, roomId, h.rooms[roomId].users[k].id)
  }

  /** Scan the given room ids in order. */
  function DisconnectFrom(h: Hub, ids: seq<string>, socketId: string): Hub
    decreases |ids|
  {
    if ids == [] then h else DisconnectFrom(DisconnectInRoom(h, ids[0], socketId), ids[1..], socketId)
  }

  /**
   * disconnect: every room, in the Map's insertion order.  Handling one room
   * can delete only that room, so scanning the ids present at the start
   * visits exactly what the live Map iterator visits.
   */
  function AfterDisconnect(h: Hub, socketId: string): Hub {
    DisconnectFrom(h, h.order, socketId)
  }

  /** What disconnecting does to one room, seen in isolation. */
  function RoomAfterDisconnect(h: Hub, roomId: string, socketId: string): Option<Room> {
    if roomId !in h.rooms then None
    else
      var r := h.rooms[roomId];
      match IndexOfSocket(r.users, socketId)
      case None => Some(r)
      case Some(k) => RoomAfterLeave(r, r.users[k].id)
  }

  lemma {:induction false} DisconnectFromKeepsInvariant(h: Hub, ids: seq<string>, socketId: string)
    requires HubOk(h)
    ensures HubOk(DisconnectFrom(h, ids, socketId))
    decreases |ids|
  {
    if ids != [] {
      var h1 := DisconnectInRoom(h, ids[0], socketId);
      if ids[0] in h.rooms && IndexOfSocket(h.rooms[ids[0]].users, socketId).Some? {
        UserLeftKeepsInvariant(h, ids[0], h.rooms[ids[0]].users[IndexOfSocket(h.rooms[ids[0]].users, socketId).value].id);
      }
      DisconnectFromKeepsInvariant(h1, ids[1..], socketId);
    }
  }

  /** disconnect keeps the invariant. */
  lemma DisconnectKeepsInvariant(h: Hub, socketId: string)
    requires HubOk(h)
    ensures HubOk(AfterDisconnect(h, socketId))
  {
    DisconnectFromKeepsInvariant(h, h.order, socketId);
  }

  /** Leaving one room touches no other room. */
  lemma UserLeftIsLocal(h: Hub, roomId: string, userId: string, other: string)
    requires other != roomId
    ensures RoomView(AfterUserLeft(h, roomId, userId), other) == RoomView(h, other)
  {
  }

  lemma {:induction false} DisconnectFromRoomwise(h: Hub, ids: seq<string>, socketId: string, x: string)
    requires NoDuplicates(ids)
    ensures x !in ids ==> RoomView(DisconnectFrom(h, ids, socketId), x) == RoomView(h, x)
    ensures x in ids ==> RoomView(DisconnectFrom(h, ids, socketId), x) == RoomAfterDisconnect(h, x, socketId)
    decreases |ids|
  {
    if ids != [] {
      var h1 := DisconnectInRoom(h, ids[0], socketId);
      assert NoDuplicates(ids[1..]);
      DisconnectFromRoomwise(h1, ids[1..], socketId, x);
      if x == ids[0] {
        assert x !in ids[1..];
      } else {
        if ids[0] in h.rooms && IndexOfSocket(h.rooms[ids[0]].users, socketId).Some? {
          UserLeftIsLocal(h, ids[0], h.rooms[ids[0]].users[IndexOfSocket(h.rooms[ids[0]].users, socketId).value].id, x);
        }
        assert RoomView(h1, x) == RoomView(h, x);
        assert RoomAfterDisconnect(h1, x, socketId) == RoomAfterDisconnect(h, x, socketId);
      }
    }
  }

  /**
   * Disconnect, room by room: every room that holds a user with this socket
   * id ends as if that one user (the first such in insertion order) had left
   * through handleUserDisconnect; every other room is untouched; no room
   * appears.
   */
  lemma DisconnectRoomwise(h: Hub, socketId: string, roomId: string)
    requires HubOk(h)
    ensures RoomView(AfterDisconnect(h, socketId), roomId) == RoomAfterDisconnect(h, roomId, socketId)
  {
    DisconnectFromRoomwise(h, h.order, socketId, roomId);
  }

  // ---------------------------------------------------------------------------
  // The process, as a mutable object
  // ---------------------------------------------------------------------------

  class Server {
    var rooms: map<string, Room>
    var order: seq<string>
    var outbox: seq<Emission>

    function State(): Hub
      reads this
    {
      Hub(rooms, order, outbox)
    }

    ghost predicate Valid()
      reads this
    {
      HubOk(State())
    }

    constructor ()
      ensures Valid() && State() == Hub(map[], [], [])
    {
      rooms, order, outbox := map[], [], [];
    }

    method JoinRoom(socketId: string, roomId: string, userId: string, userName: string,
                    photoURL: Option<string>, isHost: bool, now: int)
      requires Valid()
      modifies this
      ensures Valid()
      ensures State() == AfterJoin(old(State()), socketId, roomId, userId, userName, photoURL, isHost, now)
    {
      JoinKeepsInvariant(State(), socketId, roomId, userId, userName, photoURL, isHost, now);
      // rooms.set(roomId, newRoom) here and the later writes through `room`
      // leave the same map as the single update below.
      var room := if roomId in rooms then rooms[roomId] else NewRoom(userId, isHost, now);
      if roomId !in rooms {
        order := order + [roomId];
      }
      if isHost && IsFalsy(room.hostId) {
        room := room.(hostId := Some(userId));
      }
      room := room.(users := Upsert(room.users, JoiningUser(socketId, userId, userName, photoURL, isHost)));
      rooms := rooms[roomId := room];
      outbox := outbox + [Emission(ToRoom(roomId), UsersUpdate(room.users))];
      outbox := outbox + [Emission(ToSocket(socketId), VideoStateSync(room.videoState))];
    }

    method VideoPlayPause(socketId: string, roomId: string, isPlaying: bool, userId: string, now: int)
      requires Valid()
      modifies this
      ensures Valid()
      ensures State() == AfterPlayPause(old(State()), socketId, roomId, isPlaying, userId, now)
    {
      PlaybackKeepsInvariant(State(), socketId, roomId, userId, isPlaying, 0.0, now, now);
      if roomId !in rooms {
        return;
      }
      var room := rooms[roomId];
      if IsController(room, userId) {
        room := room.(videoState := room.videoState.(isPlaying := isPlaying));
        room := room.(videoState := room.videoState.(lastUpdate := now));
        rooms := rooms[roomId := room];
        outbox := outbox + [Emission(ToRoomExcept(roomId, socketId), PlayPauseUpdate(isPlaying))];
      }
    }

    method VideoSeek(socketId: string, roomId: string, currentTime: real, userId: string, now: int)
      requires Valid()
      modifies this
      ensures Valid()
      ensures State() == AfterSeek(old(State()), socketId, roomId, currentTime, userId, now)
    {
      PlaybackKeepsInvariant(State(), socketId, roomId, userId, false, currentTime, now, now);
      if roomId !in rooms {
        return;
      }
      var room := rooms[roomId];
      if IsController(room, userId) {
        room := room.(videoState := room.videoState.(currentTime := currentTime));
        room := room.(videoState := room.videoState.(lastUpdate := now));
        rooms := rooms[roomId := room];
        outbox := outbox + [Emission(ToRoomExcept(roomId, socketId), SeekUpdate(currentTime))];
      }
    }

    method VideoProgress(socketId: string, roomId: string, playedSeconds: real, playing: bool,
                         userId: string, now: int, later: int)
      requires Valid()
      modifies this
      ensures Valid()
      ensures State() == AfterProgress(old(State()), socketId, roomId, playedSeconds, playing, userId, now, later)
    {
      PlaybackKeepsInvariant(State(), socketId, roomId, userId, playing, playedSeconds, now, later);
      if roomId !in rooms {
        return;
      }
      var room := rooms[roomId];
      if IsController(room, userId) {
        var vs := room.videoState.(currentTime := playedSeconds);
        vs := vs.(isPlaying := playing);
        if now - vs.lastUpdate > ProgressThrottleMs {
          vs := vs.(lastUpdate := later);
          outbox := outbox + [Emission(ToRoomExcept(roomId, socketId), ProgressUpdate(playedSeconds, playing))];
        }
        rooms := rooms[roomId := room.(videoState := vs)];
      }
    }

    method LeaveRoom(roomId: string, userId: string)
      requires Valid()
      modifies this
      ensures Valid()
      ensures State() == AfterUserLeft(old(State()), roomId, userId)
    {
      HandleUserDisconnect(roomId, userId);
    }

    method HandleUserDisconnect(roomId: string, userId: string)
      requires Valid()
      modifies this
      ensures Valid()
      ensures State() == AfterUserLeft(old(State()), roomId, userId)
    {
      UserLeftKeepsInvariant(State(), roomId, userId);
      if roomId !in rooms {
        return;
      }
      var room := rooms[roomId];
      var wasHost := room.hostId == Some(userId);
      room := room.(users := WithoutId(room.users, userId));
      if |room.users| == 0 {
        rooms := rooms - {roomId};
        order := RemoveKey(order, roomId);
        return;
      }
      if wasHost {
        var newHost := room.users[0];
        room := room.(hostId := Some(newHost.id), users := PromoteFirst(room.users));
        outbox := outbox + [Emission(ToSocket(newHost.socketId), HostUpdate)];
      }
      rooms := rooms[roomId := room];
      outbox := outbox + [Emission(ToRoom(roomId), UsersUpdate(room.users))];
    }

    /**
     * The body of the disconnect loop for one room: scan its users in
     * insertion order and hand the first one on this socket to
     * handleUserDisconnect, then stop.
     */
    method DisconnectRoom(roomId: string, socketId: string)
      requires Valid()
      modifies this
      ensures Valid()
      ensures State() == DisconnectInRoom(old(State()), roomId, socketId)
    {
      if roomId !in rooms {
        return;
      }
      var users := rooms[roomId].users;
      var j := 0;
      while j < |users|
        invariant 0 <= j <= |users|
        invariant forall k :: 0 <= k < j ==> users[k].socketId != socketId
        invariant State() == old(State())
      {
        if users[j].socketId == socketId {
          assert IndexOfSocket(users, socketId) == Some(j);
          HandleUserDisconnect(roomId, users[j].id);
          return;
        }
        j := j + 1;
      }
      assert IndexOfSocket(users, socketId).None?;
    }

    method Disconnect(socketId: string)
      requires Valid()
      modifies this
      ensures Valid()
      ensures State() == AfterDisconnect(old(State()), socketId)
    {
      var ids := order;
      var i := 0;
      while i < |ids|
        invariant 0 <= i <= |ids|
        invariant Valid()
        invariant DisconnectFrom(State(), ids[i..], socketId) == AfterDisconnect(old(State()), socketId)
      {
        assert ids[i..][0] == ids[i] && ids[i..][1..] == ids[i + 1..];
        DisconnectRoom(ids[i], socketId);
        i := i + 1;
      }
    }
  }
}
