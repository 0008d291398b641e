/**
 * What both real-time servers share: the participant record kept per room,
 * the ordered roster operations they perform on it (`Map.set` /
 * `findIndex`, `Map.delete` / `filter`, `splice`), and the three kinds of
 * destination an emitted event can have.
 *
 * A roster is a sequence so that the insertion order of a JavaScript `Map`
 * or array is kept: `Map.set` on a present key overwrites in place,
 * otherwise it appends.
 */
module Presence {
  import opened Wrappers

  /** One connected user inside one room. */
  datatype Participant = Participant(
    id: string,
    name: string,
    photoURL: Option<string>,
    socketId: string,
    isHost: bool)

  /** Where one emitted event is delivered. */
  datatype Target =
    | ToRoom(roomId: string)                            // io.to(roomId).emit
    | ToRoomExcept(roomId: string, senderSocket: string) // socket.to(roomId).emit, socket.broadcast.to(roomId).emit
    | ToSocket(socketId: string)                        // socket.emit, io.to(socketId).emit

  function Ids(us: seq<Participant>): (ids: seq<string>)
    ensures |ids| == |us|
    ensures forall k :: 0 <= k < |us| ==> ids[k] == us[k].id
  {
    seq(|us|, k requires 0 <= k < |us| => us[k].id)
  }

  /** No user id appears twice. */
  predicate DistinctIds(us: seq<Participant>) {
    forall i, j :: 0 <= i < j < |us| ==> us[i].id != us[j].id
  }

  /** `us.findIndex(u => u.id === id)` */
  function IndexOfId(us: seq<Participant>, id: string): (r: Option<nat>)
    ensures r.Some? ==> r.value < |us| && us[r.value].id == id
    ensures r.Some? ==> forall k :: 0 <= k < r.value ==> us[k].id != id
    ensures r.None? <==> id !in Ids(us)
  {
    if |us| == 0 then None
    else if us[0].id == id then Some(0)
    else match IndexOfId(us[1..], id)
      case None => None
      case Some(k) => Some(k + 1)
  }

  /** `us.findIndex(u => u.socketId === socketId)` */
  function IndexOfSocket(us: seq<Participant>, socketId: string): (r: Option<nat>)
    ensures r.Some? ==> r.value < |us| && us[r.value].socketId == socketId
    ensures r.Some? ==> forall k :: 0 <= k < r.value ==> us[k].socketId != socketId
    ensures r.None? ==> forall k :: 0 <= k < |us| ==> us[k].socketId != socketId
  {
    if |us| == 0 then None
    else if us[0].socketId == socketId then Some(0)
    else match IndexOfSocket(us[1..], socketId)
      case None => None
      case Some(k) => Some(k + 1)
  }

  /**
   * Insert-or-replace by user id (`Map.set(u.id, u)`, or `findIndex` then
   * assign-at-index or `push`): a present id keeps its position and gets the
   * new record, a new id goes to the end; nothing else moves.
   */
  function Upsert(us: seq<Participant>, u: Participant): (r: seq<Participant>)
    ensures u.id in Ids(r)
    ensures DistinctIds(us) ==> DistinctIds(r)
    ensures u.id !in Ids(us) ==> r == us + [u]
    ensures u.id in Ids(us) ==> |r| == |us|
    ensures u.id in Ids(us) ==>
      var k := IndexOfId(us, u.id).value;
      r[k] == u && forall j :: 0 <= j < |us| && j != k ==> r[j] == us[j]
  {
    match IndexOfId(us, u.id)
    case Some(k) =>
      assert Ids(us[k := u])[k] == u.id;
      us[k := u]
    case None =>
      assert Ids(us + [u])[|us|] == u.id;
      us + [u]
  }

  /** Upsert by cases: assign at the found index, or push. */
  lemma UpsertCases(us: seq<Participant>, u: Participant)
    ensures IndexOfId(us, u.id).Some? ==> Upsert(us, u) == us[IndexOfId(us, u.id).value := u]
    ensures IndexOfId(us, u.id).None? ==> Upsert(us, u) == us + [u]
  {
  }

  /**
   * `us.filter(u => u.id !== id)`; on a roster with distinct ids this is
   * also `Map.delete(id)`.  The id is gone and every other entry stays.
   */
  function WithoutId(us: seq<Participant>, id: string): (r: seq<Participant>)
    ensures |r| <= |us|
    ensures forall p :: p in r <==> p in us && p.id != id
    ensures id !in Ids(r)
    decreases |us|
  {
    if |us| == 0 then []
    else if us[0].id == id then WithoutId(us[1..], id)
    else
      var r := [us[0]] + WithoutId(us[1..], id);
      assert id !in Ids(r) by {
        forall k | 0 <= k < |r| ensures r[k].id != id {
          assert r[k] in r;
        }
      }
      r
  }

  /** Filtering keeps the ids distinct. */
  lemma {:induction false} WithoutIdKeepsDistinct(us: seq<Participant>, id: string)
    requires DistinctIds(us)
    ensures DistinctIds(WithoutId(us, id))
    decreases |us|
  {
    if |us| > 0 {
      WithoutIdKeepsDistinct(us[1..], id);
      var rest := WithoutId(us[1..], id);
      if us[0].id != id {
        forall k | 0 <= k < |rest| ensures rest[k].id != us[0].id {
          assert rest[k] in us[1..];
          var j :| 0 <= j < |us[1..]| && us[1..][j] == rest[k];
          assert us[j + 1] == rest[k];
        }
      }
    }
  }

  /** Filtering out an absent id changes nothing. */
  lemma {:induction false} WithoutAbsentId(us: seq<Participant>, id: string)
    requires id !in Ids(us)
    ensures WithoutId(us, id) == us
    decreases |us|
  {
    if |us| > 0 {
      assert Ids(us)[0] == us[0].id;
      assert id !in Ids(us[1..]) by {
        forall k | 0 <= k < |us[1..]| ensures us[1..][k].id != id {
          assert Ids(us)[k + 1] == us[k + 1].id;
        }
      }
      WithoutAbsentId(us[1..], id);
    }
  }

  /** The tail of a roster with distinct ids has distinct ids, none of them the head's. */
  lemma DistinctTail(us: seq<Participant>)
    requires DistinctIds(us) && |us| > 0
    ensures DistinctIds(us[1..])
    ensures us[0].id !in Ids(us[1..])
  {
    var tail := us[1..];
    forall j | 0 <= j < |tail| ensures tail[j].id != us[0].id {
      assert tail[j] == us[j + 1];
    }
    forall i, j | 0 <= i < j < |tail| ensures tail[i].id != tail[j].id {
      assert tail[i] == us[i + 1] && tail[j] == us[j + 1];
    }
  }

  /**
   * On a roster with distinct ids, filtering out the id found at index `k`
   * removes exactly that entry, and the others keep their order.
   */
  lemma {:induction false} WithoutPresentId(us: seq<Participant>, id: string, k: nat)
    requires DistinctIds(us) && k < |us| && us[k].id == id
    ensures WithoutId(us, id) == us[..k] + us[k + 1..]
    decreases k
  {
    var tail := us[1..];
    DistinctTail(us);
    if k == 0 {
      WithoutAbsentId(tail, id);
    } else {
      WithoutPresentId(tail, id, k - 1);
      assert us[..k] == [us[0]] + tail[..k - 1];
      assert us[k + 1..] == tail[k..];
    }
  }

  /** `us.splice(k, 1)` */
  function RemoveAt(us: seq<Participant>, k: nat): (r: seq<Participant>)
    requires k < |us|
    ensures |r| == |us| - 1
    ensures forall j :: 0 <= j < k ==> r[j] == us[j]
    ensures forall j :: k <= j < |r| ==> r[j] == us[j + 1]
    ensures DistinctIds(us) ==> DistinctIds(r)
  {
    us[..k] + us[k + 1..]
  }

  /** `us.some(u => u.isHost)` */
  predicate AnyHost(us: seq<Participant>) {
    exists k :: 0 <= k < |us| && us[k].isHost
  }

  /** `us[0].isHost = true` */
  function PromoteFirst(us: seq<Participant>): (r: seq<Participant>)
    requires |us| > 0
    ensures |r| == |us| && r[0].isHost && AnyHost(r)
    ensures Ids(r) == Ids(us)
    ensures r[0] == us[0].(isHost := true)
    ensures forall j :: 0 < j < |us| ==> r[j] == us[j]
  {
    us[0 := us[0].(isHost := true)]
  }

  /** The keys of an ordered map, without the removed one (`Map.delete`). */
  function RemoveKey(order: seq<string>, key: string): (r: seq<string>)
    ensures forall x :: x in r <==> x in order && x != key
    ensures NoDuplicates(order) ==> NoDuplicates(r)
    decreases |order|
  {
    if |order| == 0 then []
    else if order[0] == key then RemoveKey(order[1..], key)
    else
      var rest := RemoveKey(order[1..], key);
      assert NoDuplicates(order) ==> order[0] !in order[1..];
      [order[0]] + rest
  }

  predicate NoDuplicates(order: seq<string>) {
    forall i, j :: 0 <= i < j < |order| ==> order[i] != order[j]
  }
}
