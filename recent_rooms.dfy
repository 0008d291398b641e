/**
 * GET /api/rooms/recent (src/app/api/rooms/recent/route.ts): the rooms a
 * user visited last, in the order of the visit list.  The two Supabase
 * queries are inputs: the database returns the visit list already ordered
 * by last visit and limited; the route checks the inputs, handles the
 * errors, and puts the room rows back in visit order.
 */
module RecentRooms {
  import opened Wrappers

  /** A row of `rooms` (`select('*')`): its id and the other columns. */
  datatype RoomRow = RoomRow(id: string, columns: map<string, string>)

  /**
   * What one awaited query gives the route: rows (or a null `data`), an
   * `error` object, or an exception.
   */
  datatype Lookup<T> = Data(rows: Option<seq<T>>) | QueryError | Threw

  datatype Body = ErrorBody(error: string) | RoomList(rooms: seq<RoomRow>)

  datatype Response = Response(status: int, body: Body)

  /** `roomsData.find(room => room.id === roomId)` */
  function FindRoom(rooms: seq<RoomRow>, roomId: string): (r: Option<RoomRow>)
    ensures r.Some? ==> r.value in rooms && r.value.id == roomId
    ensures r.None? <==> forall k :: 0 <= k < |rooms| ==> rooms[k].id != roomId
  {
    if |rooms| == 0 then None
    else if rooms[0].id == roomId then Some(rooms[0])
    else FindRoom(rooms[1..], roomId)
  }

  /**
   * sortedRooms: each visited id mapped to its room row, ids without a row
   * dropped (`.filter(Boolean)`; a row object is always truthy).
   */
  function SortRooms(roomIds: seq<string>, rooms: seq<RoomRow>): (r: seq<RoomRow>)
    ensures |r| <= |roomIds|
    ensures forall k :: 0 <= k < |r| ==> r[k] in rooms && r[k].id in roomIds
  {
    if |roomIds| == 0 then []
    else
      var rest := SortRooms(roomIds[1..], rooms);
      var found := FindRoom(rooms, roomIds[0]);
      if found.Some? then [found.value] + rest else rest
  }

  /** The visited ids that have a room row, in visit order: the reference for the output's ids. */
  function KnownIds(roomIds: seq<string>, rooms: seq<RoomRow>): seq<string> {
    if |roomIds| == 0 then []
    else if FindRoom(rooms, roomIds[0]).Some? then [roomIds[0]] + KnownIds(roomIds[1..], rooms)
    else KnownIds(roomIds[1..], rooms)
  }

  function IdsOf(rs: seq<RoomRow>): (ids: seq<string>)
    ensures |ids| == |rs|
  {
    if |rs| == 0 then [] else [rs[0].id] + IdsOf(rs[1..])
  }

  /**
   * The output follows the visit list: its ids are exactly the visited ids
   * that have a row, in the same order, repeats included.
   */
  lemma {:induction false} SortRoomsFollowsVisits(roomIds: seq<string>, rooms: seq<RoomRow>)
    ensures IdsOf(SortRooms(roomIds, rooms)) == KnownIds(roomIds, rooms)
    decreases |roomIds|
  {
    if |roomIds| > 0 {
      SortRoomsFollowsVisits(roomIds[1..], rooms);
      var rest := SortRooms(roomIds[1..], rooms);
      var found := FindRoom(rooms, roomIds[0]);
      if found.Some? {
        assert ([found.value] + rest)[1..] == rest;
      }
    }
  }

  /** Sorting distributes over the visit list: rows come out in visit order. */
  lemma {:induction false} SortRoomsAppend(a: seq<string>, b: seq<string>, rooms: seq<RoomRow>)
    ensures SortRooms(a + b, rooms) == SortRooms(a, rooms) + SortRooms(b, rooms)
    decreases |a|
  {
    if |a| == 0 {
      assert a + b == b;
    } else {
      var ab := a + b;
      assert ab[0] == a[0] && ab[1..] == a[1..] + b;
      SortRoomsAppend(a[1..], b, rooms);
      var found := FindRoom(rooms, a[0]);
      var head := if found.Some? then [found.value] else [];
      assert SortRooms(ab, rooms) == head + SortRooms(a[1..] + b, rooms);
      assert SortRooms(a, rooms) == head + SortRooms(a[1..], rooms);
    }
  }

  /** When every visited id has a row, nothing is dropped. */
  lemma {:induction false} AllKnownKeepsLength(roomIds: seq<string>, rooms: seq<RoomRow>)
    requires forall k :: 0 <= k < |roomIds| ==> FindRoom(rooms, roomIds[k]).Some?
    ensures |SortRooms(roomIds, rooms)| == |roomIds|
    decreases |roomIds|
  {
    if |roomIds| > 0 {
      assert FindRoom(rooms, roomIds[0]).Some?;
      assert forall k :: 0 <= k < |roomIds[1..]| ==> roomIds[1..][k] == roomIds[k + 1];
      AllKnownKeepsLength(roomIds[1..], rooms);
    }
  }

  /** A query parameter in a condition: null and '' are falsy. */
  predicate Truthy(o: Option<string>) {
    o.Some? && o.value != ""
  }

  /**
   * GET: 400 without a userId; 500 when either query reports an error or
   * anything throws; an empty list when the user has no visits; otherwise
   * the rows in visit order.  A null room `data` makes `find` throw, which
   * the catch turns into a 500.
   */
  function Get(userId: Option<string>, visits: Lookup<string>, roomsData: Lookup<RoomRow>): (resp: Response)
    ensures !Truthy(userId) ==> resp == Response(400, ErrorBody("UserId is required"))
    ensures resp.status == 200 ==> resp.body.RoomList?
    ensures resp.status in {200, 400, 500}
  {
    if !Truthy(userId) then Response(400, ErrorBody("UserId is required"))
    else match visits
      case Threw => Response(500, ErrorBody("Internal server error"))
      case QueryError => Response(500, ErrorBody("Failed to fetch recent rooms"))
      case Data(userData) =>
        if userData.None? || |userData.value| == 0 then Response(200, RoomList([]))
        else match roomsData
          case Threw => Response(500, ErrorBody("Internal server error"))
          case QueryError => Response(500, ErrorBody("Failed to fetch room details"))
          case Data(None) => Response(500, ErrorBody("Internal server error"))
          case Data(Some(rows)) => Response(200, RoomList(SortRooms(userData.value, rows)))
  }

  /**
   * The route's outcomes, case by case: each failure gives its own 500
   * message, and a thrown query or null room data the catch's message.
   */
  lemma GetOutcomes(userId: Option<string>, visits: Lookup<string>, roomsData: Lookup<RoomRow>)
    requires Truthy(userId)
    ensures visits.QueryError? ==> Get(userId, visits, roomsData) == Response(500, ErrorBody("Failed to fetch recent rooms"))
    ensures visits.Data? && (visits.rows.None? || visits.rows.value == [])
            ==> Get(userId, visits, roomsData) == Response(200, RoomList([]))
    ensures visits.Data? && visits.rows.Some? && visits.rows.value != [] && roomsData.QueryError?
            ==> Get(userId, visits, roomsData) == Response(500, ErrorBody("Failed to fetch room details"))
    ensures visits.Threw? ==> Get(userId, visits, roomsData) == Response(500, ErrorBody("Internal server error"))
    ensures visits.Data? && visits.rows.Some? && visits.rows.value != [] && (roomsData.Threw? || roomsData == Data(None))
            ==> Get(userId, visits, roomsData) == Response(500, ErrorBody("Internal server error"))
    ensures Get(userId, visits, roomsData).status == 200
            <==> visits.Data? && (visits.rows.None? || visits.rows.value == [] || (roomsData.Data? && roomsData.rows.Some?))
    ensures visits.Data? && visits.rows.Some? && roomsData.Data? && roomsData.rows.Some?
            ==> Get(userId, visits, roomsData).body == RoomList(SortRooms(visits.rows.value, roomsData.rows.value))
  {
  }
}
