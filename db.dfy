/**
 * The decision logic of the Postgres helpers in src/lib/vercel/db.ts.
 *
 * Each SQL round trip is replaced by its outcome: the rows it returned, or
 * a failure.  The functions below are what the helpers compute from those
 * outcomes: which row they write back, which SQL text and parameters they
 * send, and which object they return.
 */
module Db {
  import opened Wrappers
  import opened Strings

  /** At most this many rooms are kept in a user's recent list. */
  const RecentRoomsCap: nat := 10

  /** The outcome of one `client.query`: the rows it returned, or a thrown error. */
  datatype QueryOutcome<T> = Rows(rows: seq<T>) | Failed

  // ---------------------------------------------------------------------------
  // Recent and hosted room lists (updateUserStats)
  // ---------------------------------------------------------------------------

  /**
   * `ids.filter(id => id !== x)`: every occurrence of `x` is dropped and
   * every other entry is kept as often as it occurred (its order is stated
   * by FilterIsSubsequence).
   */
  function Filter(ids: seq<string>, x: string): (r: seq<string>)
    ensures |r| <= |ids|
    ensures multiset(r) == multiset(ids)[x := 0]
    ensures forall y :: y in r <==> y in ids && y != x
    decreases |ids|
  {
    if |ids| == 0 then []
    else
      assert ids == [ids[0]] + ids[1..];
      if ids[0] == x then Filter(ids[1..], x)
      else [ids[0]] + Filter(ids[1..], x)
  }

  /** `s.slice(0, n)` */
  function Take(s: seq<string>, n: nat): (r: seq<string>)
    ensures |r| == if |s| <= n then |s| else n
    ensures r == s[..|r|]
  {
    if |s| <= n then s else s[..n]
  }

  /** `[x, ...ids.filter(id => id !== x)]` */
  function MoveToFront(ids: seq<string>, x: string): seq<string> {
    [x] + Filter(ids, x)
  }

  /** The recent list after visiting `roomId`. */
  function UpdateRecent(recent: seq<string>, roomId: string): seq<string> {
    Take(MoveToFront(recent, roomId), RecentRoomsCap)
  }

  /** The hosted list after visiting `roomId`, as host or not. */
  function UpdateHosted(hosted: seq<string>, roomId: string, isHost: bool): seq<string> {
    if isHost then MoveToFront(hosted, roomId) else hosted
  }

  /** `a` is `b` with some elements left out, the rest in order. */
  predicate Subsequence(a: seq<string>, b: seq<string>)
    decreases |b|
  {
    if |a| == 0 then true
    else if |b| == 0 then false
    else if a[0] == b[0] then Subsequence(a[1..], b[1..])
    else Subsequence(a, b[1..])
  }

  lemma {:induction false} FilterIsSubsequence(ids: seq<string>, x: string)
    ensures Subsequence(Filter(ids, x), ids)
    decreases |ids|
  {
    if |ids| > 0 {
      FilterIsSubsequence(ids[1..], x);
      if ids[0] != x {
        var r := Filter(ids, x);
        assert r[0] == ids[0] && r[1..] == Filter(ids[1..], x);
      } else {
        var r := Filter(ids, x);
        if |r| > 0 {
          assert r[0] in r;
        }
      }
    }
  }

  lemma {:induction false} PrefixOfSubsequence(a: seq<string>, b: seq<string>, n: nat)
    requires Subsequence(a, b) && n <= |a|
    ensures Subsequence(a[..n], b)
    decreases |b|
  {
    if n > 0 {
      if a[0] == b[0] {
        PrefixOfSubsequence(a[1..], b[1..], n - 1);
        assert a[..n][1..] == a[1..][..n - 1];
      } else {
        PrefixOfSubsequence(a, b[1..], n);
      }
    }
  }

  /** How often `x` occurs in `s`. */
  function Count(s: seq<string>, x: string): nat {
    multiset(s)[x]
  }


  /**
   * The recent-list update.  The visited room comes first and appears
   * exactly once.  The other rooms follow in their old order, the visited
   * one left out, as many of them as fit under the cap: nothing is dropped
   * before the cap is reached.  Every other room is one that was already
   * there.
   */
  lemma RecentListShape(recent: seq<string>, roomId: string)
    ensures var r := UpdateRecent(recent, roomId);
      var others := Filter(recent, roomId);
      && |r| > 0 && r[0] == roomId
      && Count(r, roomId) == 1
      && |r| == (if 1 + |others| <= RecentRoomsCap then 1 + |others| else RecentRoomsCap)
      && r[1..] == others[..|r| - 1]
      && (forall y :: y in r && y != roomId ==> y in recent)
      && Subsequence(r[1..], recent)
  {
    var f := Filter(recent, roomId);
    var r := UpdateRecent(recent, roomId);
    var n := |r| - 1;
    assert r == [roomId] + f[..n];
    assert r[1..] == f[..n];
    FilterIsSubsequence(recent, roomId);
    PrefixOfSubsequence(f, recent, n);
    assert forall y :: y in f[..n] ==> y in f;
    assert roomId !in f[..n];
    assert multiset(r) == multiset([roomId]) + multiset(f[..n]);
    forall y | y in r && y != roomId ensures y in recent {
      assert y in f[..n];
      assert y in f;
    }
  }

  lemma FilterAbsent(ids: seq<string>, x: string)
    requires x !in ids
    ensures Filter(ids, x) == ids
  {
  }

  /** Visiting the same room twice in a row is the same as visiting it once. */
  lemma RecentListIdempotent(recent: seq<string>, roomId: string)
    ensures UpdateRecent(UpdateRecent(recent, roomId), roomId) == UpdateRecent(recent, roomId)
  {
    var f := Filter(recent, roomId);
    var r := UpdateRecent(recent, roomId);
    var n := |r| - 1;
    assert r == [roomId] + f[..n];
    assert forall y :: y in f[..n] ==> y in f;
    FilterAbsent(f[..n], roomId);
    assert Filter(r, roomId) == f[..n] by {
      assert r[0] == roomId && r[1..] == f[..n];
    }
  }

  /**
   * The hosted-list update.  As host, the room moves to the front and
   * appears once; behind it come all the other entries, repeats included,
   * in their old order (there is no cap).  Otherwise the list is untouched.
   */
  lemma HostedListShape(hosted: seq<string>, roomId: string, isHost: bool)
    ensures !isHost ==> UpdateHosted(hosted, roomId, isHost) == hosted
    ensures isHost ==>
      var r := UpdateHosted(hosted, roomId, isHost);
      && r[0] == roomId && Count(r, roomId) == 1
      && (forall y :: y in r <==> y in hosted || y == roomId)
      && r[1..] == Filter(hosted, roomId)
      && |r| == 1 + |Filter(hosted, roomId)|
      && multiset(r[1..]) == multiset(hosted)[roomId := 0]
      && Subsequence(r[1..], hosted)
  {
    if isHost {
      var f := Filter(hosted, roomId);
      var r := UpdateHosted(hosted, roomId, isHost);
      assert r[1..] == f;
      FilterIsSubsequence(hosted, roomId);
      assert roomId !in f;
      assert multiset(r) == multiset([roomId]) + multiset(f);
    }
  }

  /** The parsed lists of a `user_stats` row. */
  datatype UserStats = UserStats(recentRooms: seq<string>, hostedRooms: seq<string>)

  /**
   * A `user_stats` row as read back.  Each column either parses as a list
   * of room ids or does not; `JSON.parse` throws on the latter.
   */
  datatype StatsRow = StatsRow(recentRooms: Option<seq<string>>, hostedRooms: Option<seq<string>>)

  /** What updateUserStats writes: a fresh row, a changed row, or nothing. */
  datatype StatsWrite = Insert(stats: UserStats) | Update(stats: UserStats) | NoWrite

  /**
   * updateUserStats(userId, roomId, isHost), decided from the lookup.  An
   * error, from the lookup or from parsing, skips the write and the helper
   * returns false.  An existing row is rewritten with the recent list and
   * the hosted list updated as RecentListShape and HostedListShape describe.
   */
  function UpdateUserStats(lookup: QueryOutcome<StatsRow>, roomId: string, isHost: bool): (w: StatsWrite)
    ensures lookup.Failed? ==> w.NoWrite?
    ensures lookup.Rows? && |lookup.rows| == 0 ==>
      w == Insert(UserStats([roomId], if isHost then [roomId] else []))
    ensures lookup.Rows? && |lookup.rows| > 0 ==>
      var row := lookup.rows[0];
      && (w.NoWrite? <==> row.recentRooms.None? || row.hostedRooms.None?)
      && (!w.NoWrite? ==> w.Update? && w.stats == UserStats(UpdateRecent(row.recentRooms.value, roomId),
                                                             UpdateHosted(row.hostedRooms.value, roomId, isHost)))
    ensures w.Update? ==> |w.stats.recentRooms| > 0 && w.stats.recentRooms[0] == roomId && |w.stats.recentRooms| <= RecentRoomsCap
  {
    match lookup
    case Failed => NoWrite
    case Rows(rows) =>
      if |rows| == 0 then Insert(UserStats([roomId], if isHost then [roomId] else []))
      else if rows[0].recentRooms.None? || rows[0].hostedRooms.None? then NoWrite
      else
        RecentListShape(rows[0].recentRooms.value, roomId);
        Update(UserStats(UpdateRecent(rows[0].recentRooms.value, roomId),
                         UpdateHosted(rows[0].hostedRooms.value, roomId, isHost)))
  }

  /**
   * The value updateUserStats resolves to.  `writeSucceeded` is the outcome
   * of the INSERT or UPDATE; it plays no part when no write is sent.  The
   * helper returns true iff the lookup worked, both stored lists parsed (or
   * there was no row), and the write went through.
   */
  function UpdateUserStatsResult(lookup: QueryOutcome<StatsRow>, roomId: string, isHost: bool,
                                 writeSucceeded: bool): (ok: bool)
    ensures lookup.Failed? || !writeSucceeded ==> !ok
    ensures lookup.Rows? && |lookup.rows| == 0 ==> ok == writeSucceeded
    ensures lookup.Rows? && |lookup.rows| > 0 ==>
      (ok <==> writeSucceeded && lookup.rows[0].recentRooms.Some? && lookup.rows[0].hostedRooms.Some?)
  {
    !UpdateUserStats(lookup, roomId, isHost).NoWrite? && writeSucceeded
  }

  /**
   * getUserStats(userId).  With no row, or on any error, both lists are
   * empty; a column that does not parse throws inside the try, so it empties
   * both lists too.  Otherwise the row's lists are returned as stored.
   */
  function GetUserStats(lookup: QueryOutcome<StatsRow>): (s: UserStats)
    ensures (lookup.Failed? || |lookup.rows| == 0) ==> s == UserStats([], [])
    ensures lookup.Rows? && |lookup.rows| > 0
            && (lookup.rows[0].recentRooms.None? || lookup.rows[0].hostedRooms.None?) ==>
      s == UserStats([], [])
    ensures lookup.Rows? && |lookup.rows| > 0 && lookup.rows[0].recentRooms.Some?
            && lookup.rows[0].hostedRooms.Some? ==>
      s == UserStats(lookup.rows[0].recentRooms.value, lookup.rows[0].hostedRooms.value)
  {
    match lookup
    case Failed => UserStats([], [])
    case Rows(rows) =>
      if |rows| == 0 || rows[0].recentRooms.None? || rows[0].hostedRooms.None? then UserStats([], [])
      else UserStats(rows[0].recentRooms.value, rows[0].hostedRooms.value)
  }

  /**
   * The stats written on a user's first visit are what getUserStats later
   * reads back, and a second visit to the same room leaves the recent list
   * as it was.
   */
  lemma FirstVisitReadsBack(roomId: string, isHost: bool)
    ensures var w := UpdateUserStats(Rows([]), roomId, isHost);
      var row := StatsRow(Some(w.stats.recentRooms), Some(w.stats.hostedRooms));
      var again := UpdateUserStats(Rows([row]), roomId, isHost);
      && GetUserStats(Rows([row])) == w.stats
      && again.Update? && again.stats == w.stats
  {
    assert Filter([roomId], roomId) == [];
    var w := UpdateUserStats(Rows([]), roomId, isHost);
    if isHost {
      assert UpdateHosted([roomId], roomId, isHost) == [roomId];
    }
  }

  // ---------------------------------------------------------------------------
  // getRoom
  // ---------------------------------------------------------------------------

  /** A `rooms` row; the two video columns may be null. */
  datatype RoomRow = RoomRow(id: string, hostId: string, hostName: string,
                             videoUrl: Option<string>, videoTitle: Option<string>,
                             createdAt: string, lastActive: string)

  datatype RoomRecord = RoomRecord(id: string, hostId: string, hostName: string,
                                   videoUrl: string, videoTitle: string,
                                   createdAt: string, lastActive: string)

  /**
   * getRoom(roomId).  No row, or an error, gives null.  Otherwise the first
   * row is renamed, and a null video url or title becomes the empty string.
   */
  function GetRoom(lookup: QueryOutcome<RoomRow>): (r: Option<RoomRecord>)
    ensures r.None? <==> lookup.Failed? || |lookup.rows| == 0
    ensures r.Some? ==>
      var row := lookup.rows[0];
      && r.value.id == row.id && r.value.hostId == row.hostId && r.value.hostName == row.hostName
      && (row.videoUrl.None? ==> r.value.videoUrl == "")
      && (row.videoUrl.Some? ==> r.value.videoUrl == row.videoUrl.value)
      && (row.videoTitle.None? ==> r.value.videoTitle == "")
      && (row.videoTitle.Some? ==> r.value.videoTitle == row.videoTitle.value)
      && r.value.createdAt == row.createdAt && r.value.lastActive == row.lastActive
  {
    match lookup
    case Failed => None
    case Rows(rows) =>
      if |rows| == 0 then None
      else
        var row := rows[0];
        Some(RoomRecord(row.id, row.hostId, row.hostName, row.videoUrl.GetOr(""),
                        row.videoTitle.GetOr(""), row.createdAt, row.lastActive))
  }

  // ---------------------------------------------------------------------------
  // updateRoom
  // ---------------------------------------------------------------------------

  /** The fields of `Partial<Room>` that updateRoom looks at; None is `undefined`. */
  datatype RoomPatch = RoomPatch(videoUrl: Option<string>, videoTitle: Option<string>)

  /** One entry of the SET list. */
  datatype SetClause = SetParam(column: string, placeholder: nat) | SetCurrentTimestamp(column: string)

  function ClauseText(c: SetClause): string {
    match c
    case SetParam(column, n) => column + " = $" + NatToString(n)
    case SetCurrentTimestamp(column) => column + " = CURRENT_TIMESTAMP"
  }

  function ClauseTexts(cs: seq<SetClause>): (ts: seq<string>)
    ensures |ts| == |cs|
    ensures forall i :: 0 <= i < |cs| ==> ts[i] == ClauseText(cs[i])
  {
    seq(|cs|, i requires 0 <= i < |cs| => ClauseText(cs[i]))
  }

  /**
   * The statement updateRoom sends, or `Skip` for the early `return true`
   * when there is nothing to set.
   */
  datatype RoomUpdatePlan =
    | Skip
    | Run(updates: seq<SetClause>, values: seq<string>, wherePlaceholder: nat)

  function UpdateSql(p: RoomUpdatePlan): string
    requires p.Run?
  {
    "UPDATE rooms SET " + Join(ClauseTexts(p.updates), ", ") + " WHERE id = $" + NatToString(p.wherePlaceholder)
  }

  /**
   * The statement for a patch that sets both video columns: URL, title and
   * the time stamp, in that order and comma-separated, with the room id
   * bound by `$3`.
   */
  lemma UpdateSqlBothFields()
    ensures UpdateSql(Run([SetParam("video_url", 1), SetParam("video_title", 2),
                           SetCurrentTimestamp("last_active")], [], 3))
         == "UPDATE rooms SET " + "video_url" + " = $" + "1" + ", " + "video_title" + " = $" + "2" + ", "
            + "last_active" + " = CURRENT_TIMESTAMP" + " WHERE id = $" + "3"
  {
    var cs := [SetParam("video_url", 1), SetParam("video_title", 2), SetCurrentTimestamp("last_active")];
    var ts := ClauseTexts(cs);
    SmallNumerals();
    assert ts[0] == ClauseText(cs[0]) && ts[1] == ClauseText(cs[1]) && ts[2] == ClauseText(cs[2]);
    JoinOfThree(ts, ", ");
  }

  lemma SmallNumerals()
    ensures NatToString(1) == "1" && NatToString(2) == "2" && NatToString(3) == "3"
  {
  }

  /** The SET entries number their parameters $1, $2, ... in list order. */
  predicate ConsecutivePlaceholders(updates: seq<SetClause>) {
    forall i :: 0 <= i < |updates| && updates[i].SetParam? ==> updates[i].placeholder == i + 1
  }

  /**
   * updateRoom's statement builder.  URL before title, each with the next
   * placeholder; `last_active` is always set; the room id is the last value
   * and its placeholder is the count of values, so every `$n` is bound by
   * `values[n-1]`.  The update list is never empty, so the early return never
   * happens.
   */
  method BuildRoomUpdate(roomId: string, data: RoomPatch) returns (plan: RoomUpdatePlan)
    ensures plan.Run?
    ensures |plan.updates| >= 1
    ensures plan.updates[|plan.updates| - 1] == SetCurrentTimestamp("last_active")
    ensures forall i :: 0 <= i < |plan.updates| - 1 ==> plan.updates[i].SetParam?
    ensures ConsecutivePlaceholders(plan.updates)
    ensures plan.wherePlaceholder == |plan.values| == |plan.updates|
    ensures plan.values[|plan.values| - 1] == roomId
    ensures |plan.values| == 1 + (if data.videoUrl.Some? then 1 else 0) + (if data.videoTitle.Some? then 1 else 0)
    ensures data.videoUrl.Some? ==>
      plan.updates[0] == SetParam("video_url", 1) && plan.values[0] == data.videoUrl.value
    ensures data.videoTitle.Some? ==>
      var k := if data.videoUrl.Some? then 1 else 0;
      plan.updates[k] == SetParam("video_title", k + 1) && plan.values[k] == data.videoTitle.value
  {
    var updates: seq<SetClause> := [];
    var values: seq<string> := [];
    var counter: nat := 1;

    if data.videoUrl.Some? {
      updates := updates + [SetParam("video_url", counter)];
      values := values + [data.videoUrl.value];
      counter := counter + 1;
    }

    if data.videoTitle.Some? {
      updates := updates + [SetParam("video_title", counter)];
      values := values + [data.videoTitle.value];
      counter := counter + 1;
    }

    updates := updates + [SetCurrentTimestamp("last_active")];

    if |updates| == 0 {
      return Skip;
    }

    values := values + [roomId];
    plan := Run(updates, values, counter);
  }
}
