/** The room-scoped reads behind the dashboard (`index`), the history pages
    (`logs`, `dislikes`) and the spreadsheet export (`download`). Tables are
    read in insertion order; on a valid store that is ascending key order. */
module Queries {
  import opened Wrappers
  import opened Table
  import opened Levels
  import opened Store

  // ---------------------------------------------------------------- readings

  /** `SELECT ... FROM logs WHERE room_code = ? ORDER BY id ASC`: the room's
      readings, keeping table order. */
  function RoomReadings(rows: seq<Row<Reading>>, room: string): (r: seq<Row<Reading>>)
    ensures forall x :: x in r <==> x in rows && x.item.room == room
    ensures |r| <= |rows|
    ensures Ascending(rows) ==> Ascending(r)
  {
    if |rows| == 0 then []
    else
      var prefix := rows[..|rows| - 1];
      var last := rows[|rows| - 1];
      assert rows == prefix + [last];
      var r := RoomReadings(prefix, room);
      if last.item.room == room then
        assert Ascending(rows) ==> Ascending(r + [last]) by {
          if Ascending(rows) {
            PrefixAscending(rows);
            forall i | 0 <= i < |r| ensures r[i].id < last.id {
              assert r[i] in prefix;
              var j :| 0 <= j < |prefix| && prefix[j] == r[i];
              assert rows[j] == r[i];
            }
            AppendAscending(r, last);
          }
        }
        r + [last]
      else
        assert Ascending(rows) ==> Ascending(prefix) by {
          if Ascending(rows) {
            PrefixAscending(rows);
          }
        }
        r
  }

  /** `... WHERE room_code = ? ORDER BY id DESC LIMIT 1`: the room's reading
      with the greatest key, or None when the room has no reading. */
  function Latest(rows: seq<Row<Reading>>, room: string): (r: Option<Row<Reading>>)
    ensures r.None? <==> forall i :: 0 <= i < |rows| ==> rows[i].item.room != room
    ensures r.Some? ==> r.value in rows && r.value.item.room == room
    ensures r.Some? ==> forall i :: 0 <= i < |rows| && rows[i].item.room == room ==> rows[i].id <= r.value.id
  {
    if |rows| == 0 then None
    else
      var prefix := rows[..|rows| - 1];
      var last := rows[|rows| - 1];
      assert forall i :: 0 <= i < |rows| - 1 ==> rows[i] == prefix[i];
      var r := Latest(prefix, room);
      if last.item.room != room then r
      else if r.None? || r.value.id < last.id then Some(last)
      else r
  }

  // ------------------------------------------------------ the users join

  /** The rows of `users` that `JOIN users u ON x.user_id = u.id WHERE
      u.room_code = ?` pairs with a row whose `user_id` is `uid`. */
  function Matches(users: seq<Row<User>>, uid: int, room: string): (r: seq<Row<User>>)
    ensures forall u :: u in r <==> u in users && u.id == uid && u.item.room == room
    ensures (forall i :: 0 <= i < |users| ==> users[i].id != uid) ==> r == []
    ensures Ascending(users) ==> |r| <= 1
  {
    if |users| == 0 then []
    else
      var prefix := users[..|users| - 1];
      var last := users[|users| - 1];
      assert forall x :: x in users <==> x in prefix || x == last;
      var r := Matches(prefix, uid, room);
      if last.id == uid && last.item.room == room then
        assert Ascending(users) ==> forall i :: 0 <= i < |prefix| ==> prefix[i].id != uid;
        r + [last]
      else r
  }

  /** The room of the user whose key is `uid`, if there is one. */
  function UserRoom(users: seq<Row<User>>, uid: int): (r: Option<string>)
    ensures r.None? <==> forall i :: 0 <= i < |users| ==> users[i].id != uid
    ensures r.Some? ==> exists i :: 0 <= i < |users| && users[i].id == uid && users[i].item.room == r.value
  {
    if |users| == 0 then None
    else
      var last := users[|users| - 1];
      if last.id == uid then Some(last.item.room)
      else
        var r := UserRoom(users[..|users| - 1], uid);
        assert forall i :: 0 <= i < |users| - 1 ==> users[i] == users[..|users| - 1][i];
        r
  }

  /** `SELECT COUNT(*) FROM votes v JOIN users u ON v.user_id = u.id WHERE
      u.room_code = ? AND v.vote_type = ?`: the number of joined pairs. */
  function VoteCount(votes: seq<Row<Vote>>, users: seq<Row<User>>, room: string, kind: VoteKind): nat
  {
    if |votes| == 0 then 0
    else
      var last := votes[|votes| - 1];
      VoteCount(votes[..|votes| - 1], users, room, kind)
        + (if last.item.kind == kind then |Matches(users, last.item.userId, room)| else 0)
  }

  /** `SELECT COUNT(*) FROM dislike_logs dl JOIN users u ON dl.user_id = u.id
      WHERE u.room_code = ?`: the number of joined pairs. */
  function DislikeCount(dislikes: seq<Row<Dislike>>, users: seq<Row<User>>, room: string): nat
  {
    if |dislikes| == 0 then 0
    else
      var last := dislikes[|dislikes| - 1];
      DislikeCount(dislikes[..|dislikes| - 1], users, room) + |Matches(users, last.item.userId, room)|
  }

  /** Reference definition of the vote count: the votes of this type cast by
      a user whose room is `room`. */
  function VotesInRoom(votes: seq<Row<Vote>>, users: seq<Row<User>>, room: string, kind: VoteKind): (r: seq<Row<Vote>>)
    ensures forall v :: v in r <==> v in votes && v.item.kind == kind && UserRoom(users, v.item.userId) == Some(room)
  {
    if |votes| == 0 then []
    else
      var prefix := votes[..|votes| - 1];
      var last := votes[|votes| - 1];
      assert forall x :: x in votes <==> x in prefix || x == last;
      VotesInRoom(prefix, users, room, kind)
        + (if last.item.kind == kind && UserRoom(users, last.item.userId) == Some(room) then [last] else [])
  }

  /** Reference definition of the dislike count: the dislikes logged by a user
      whose room is `room`. */
  function DislikesInRoom(dislikes: seq<Row<Dislike>>, users: seq<Row<User>>, room: string): (r: seq<Row<Dislike>>)
    ensures forall d :: d in r <==> d in dislikes && UserRoom(users, d.item.userId) == Some(room)
  {
    if |dislikes| == 0 then []
    else
      var prefix := dislikes[..|dislikes| - 1];
      var last := dislikes[|dislikes| - 1];
      assert forall x :: x in dislikes <==> x in prefix || x == last;
      DislikesInRoom(prefix, users, room)
        + (if UserRoom(users, last.item.userId) == Some(room) then [last] else [])
  }

  /** With keys unique, a row joins with one user when that user is in the
      room and with none otherwise. */
  lemma {:induction false} MatchesCount(users: seq<Row<User>>, uid: int, room: string)
    requires Ascending(users)
    ensures |Matches(users, uid, room)| == if UserRoom(users, uid) == Some(room) then 1 else 0
  {
    if |users| > 0 {
      var prefix := users[..|users| - 1];
      var last := users[|users| - 1];
      assert Ascending(prefix);
      MatchesCount(prefix, uid, room);
      if last.id == uid {
        assert forall i :: 0 <= i < |prefix| ==> prefix[i].id != uid;
        assert UserRoom(prefix, uid).None?;
      }
    }
  }

  /** The join count of the dashboard is the number of the room's votes of
      that type. */
  lemma {:induction false} VoteCountIsVotesInRoom(votes: seq<Row<Vote>>, users: seq<Row<User>>, room: string, kind: VoteKind)
    requires Ascending(users)
    ensures VoteCount(votes, users, room, kind) == |VotesInRoom(votes, users, room, kind)|
  {
    if |votes| > 0 {
      VoteCountIsVotesInRoom(votes[..|votes| - 1], users, room, kind);
      MatchesCount(users, votes[|votes| - 1].item.userId, room);
    }
  }

  /** The join count of the dashboard is the number of the room's dislikes. */
  lemma {:induction false} DislikeCountIsDislikesInRoom(dislikes: seq<Row<Dislike>>, users: seq<Row<User>>, room: string)
    requires Ascending(users)
    ensures DislikeCount(dislikes, users, room) == |DislikesInRoom(dislikes, users, room)|
  {
    if |dislikes| > 0 {
      DislikeCountIsDislikesInRoom(dislikes[..|dislikes| - 1], users, room);
      MatchesCount(users, dislikes[|dislikes| - 1].item.userId, room);
    }
  }

  // ------------------------------------------------------- dislike history

  /** One joined pair of the dislike history. */
  datatype Joined = Joined(dislike: Row<Dislike>, user: Row<User>)

  /** `SELECT ... FROM dislike_logs dl JOIN users u ON dl.user_id = u.id WHERE
      u.room_code = ? ORDER BY dl.id DESC`: the joined pairs, newest first. */
  function JoinedDislikes(dislikes: seq<Row<Dislike>>, users: seq<Row<User>>, room: string): (r: seq<Joined>)
    ensures forall k :: 0 <= k < |r| ==>
      && r[k].dislike in dislikes && r[k].user in users
      && r[k].user.id == r[k].dislike.item.userId && r[k].user.item.room == room
    ensures Ascending(dislikes) && Ascending(users) ==> NewestFirst(r)
  {
    if |dislikes| == 0 then []
    else
      var prefix := dislikes[..|dislikes| - 1];
      var last := dislikes[|dislikes| - 1];
      var ms := Matches(users, last.item.userId, room);
      var head := PairWith(last, ms);
      var tail := JoinedDislikes(prefix, users, room);
      assert forall x :: x in ms ==> x in users;
      assert forall l :: 0 <= l < |tail| ==> tail[l].dislike in prefix;
      assert forall x :: x in prefix ==> x in dislikes;
      assert Ascending(dislikes) && Ascending(users) ==> NewestFirst(head + tail) by {
        if Ascending(dislikes) && Ascending(users) {
          PrefixAscending(dislikes);
          forall l | 0 <= l < |tail| ensures tail[l].dislike.id < last.id {
            var i :| 0 <= i < |prefix| && prefix[i] == tail[l].dislike;
            assert dislikes[i] == prefix[i];
          }
          ConcatNewestFirst(head, tail);
        }
      }
      head + tail
  }

  /** The pairs one dislike forms with the users it joins with. */
  function PairWith(d: Row<Dislike>, ms: seq<Row<User>>): (r: seq<Joined>)
    ensures |r| == |ms|
    ensures forall k :: 0 <= k < |r| ==> r[k].dislike == d && r[k].user in ms
  {
    seq(|ms|, k requires 0 <= k < |ms| => Joined(d, ms[k]))
  }

  /** Rows are ordered by strictly descending dislike key. */
  ghost predicate NewestFirst(r: seq<Joined>)
  {
    forall k, l :: 0 <= k < l < |r| ==> r[k].dislike.id > r[l].dislike.id
  }

  /** Two newest-first runs, the first entirely newer, make a newest-first run. */
  lemma ConcatNewestFirst(head: seq<Joined>, tail: seq<Joined>)
    requires NewestFirst(head) && NewestFirst(tail)
    requires forall k, l :: 0 <= k < |head| && 0 <= l < |tail| ==> head[k].dislike.id > tail[l].dislike.id
    ensures NewestFirst(head + tail)
  {
  }

  /** The dashboard's dislike total is the number of rows on the history page. */
  lemma {:induction false} JoinedDislikesCount(dislikes: seq<Row<Dislike>>, users: seq<Row<User>>, room: string)
    ensures |JoinedDislikes(dislikes, users, room)| == DislikeCount(dislikes, users, room)
  {
    if |dislikes| > 0 {
      JoinedDislikesCount(dislikes[..|dislikes| - 1], users, room);
    }
  }

  /** Every dislike whose user is in the room appears in the history, paired
      with that user. */
  lemma {:induction false} JoinedDislikesComplete(dislikes: seq<Row<Dislike>>, users: seq<Row<User>>, room: string,
                                                  d: Row<Dislike>, u: Row<User>)
    requires d in dislikes && u in users
    requires u.id == d.item.userId && u.item.room == room
    ensures Joined(d, u) in JoinedDislikes(dislikes, users, room)
  {
    var prefix := dislikes[..|dislikes| - 1];
    var last := dislikes[|dislikes| - 1];
    var ms := Matches(users, last.item.userId, room);
    var head := PairWith(last, ms);
    var tail := JoinedDislikes(prefix, users, room);
    assert JoinedDislikes(dislikes, users, room) == head + tail;
    if d == last {
      assert u in ms;
      var j :| 0 <= j < |ms| && ms[j] == u;
      assert head[j] == Joined(d, u);
    } else {
      assert dislikes == prefix + [last];
      assert d in prefix;
      JoinedDislikesComplete(prefix, users, room, d, u);
    }
  }

  // ------------------------------------------------------------------ views

  /** The dashboard's latest reading, with its recomputed colour band. */
  datatype LatestView = LatestView(ts: string, value: int, status: string, color: Color)

  /** What `index` renders. */
  datatype Dashboard = Dashboard(latest: Option<LatestView>, upVotes: nat, downVotes: nat, totalDislikes: nat)

  /** One row of the `logs` page. */
  datatype LogRow = LogRow(ts: string, value: int, status: string, color: Color)

  /** One row of the `dislikes` page. */
  datatype DislikeRow = DislikeRow(name: string, ts: string, message: string)

  /** One row of the exported sheet (columns Timestamp, Value, Status). */
  datatype ExportRow = ExportRow(ts: string, value: int, status: string)

  /** The attachment `download` sends: its file name and the rows it holds. */
  datatype Export = Export(fileName: string, rows: seq<ExportRow>)

  /** `index`: without a session, a redirect to login (None); otherwise the
      room's latest reading coloured by its value, and the room-wide vote and
      dislike counts. */
  function Index(s: Store, sess: Option<Session>): (r: Option<Dashboard>)
    ensures r.None? <==> sess.None?
    ensures r.Some? ==>
      (r.value.latest.None? <==> forall i :: 0 <= i < |s.readings| ==> s.readings[i].item.room != sess.value.room)
    ensures r.Some? && r.value.latest.Some? ==>
      exists i :: 0 <= i < |s.readings| && s.readings[i].item.room == sess.value.room
        && r.value.latest.value == LatestView(s.readings[i].item.ts, s.readings[i].item.value,
                                              s.readings[i].item.status, StatusColor(s.readings[i].item.value))
        && forall j :: 0 <= j < |s.readings| && s.readings[j].item.room == sess.value.room ==>
             s.readings[j].id <= s.readings[i].id
  {
    match sess
    case None => None
    case Some(session) =>
      var room := session.room;
      var latest :=
        match Latest(s.readings, room)
        case None => None
        case Some(row) => Some(LatestView(row.item.ts, row.item.value, row.item.status, StatusColor(row.item.value)));
      Some(Dashboard(latest, VoteCount(s.votes, s.users, room, Up), VoteCount(s.votes, s.users, room, Down),
                     DislikeCount(s.dislikes, s.users, room)))
  }

  /** On a valid store the dashboard counts are exactly the room's up-votes,
      down-votes and dislikes, each attributed through its user's room. */
  lemma IndexCounts(s: Store, sess: Session)
    requires Valid(s)
    ensures Index(s, Some(sess)).value.upVotes == |VotesInRoom(s.votes, s.users, sess.room, Up)|
    ensures Index(s, Some(sess)).value.downVotes == |VotesInRoom(s.votes, s.users, sess.room, Down)|
    ensures Index(s, Some(sess)).value.totalDislikes == |DislikesInRoom(s.dislikes, s.users, sess.room)|
  {
    VoteCountIsVotesInRoom(s.votes, s.users, sess.room, Up);
    VoteCountIsVotesInRoom(s.votes, s.users, sess.room, Down);
    DislikeCountIsDislikesInRoom(s.dislikes, s.users, sess.room);
  }

  /** `logs`: without a session, a redirect to login (None); otherwise one row
      per reading of the room, in table order, each with the colour band
      recomputed from its value. */
  function Logs(s: Store, sess: Option<Session>): (r: Option<seq<LogRow>>)
    ensures r.None? <==> sess.None?
    ensures r.Some? ==> |r.value| == |RoomReadings(s.readings, sess.value.room)|
    ensures r.Some? ==> forall k :: 0 <= k < |r.value| ==>
      && r.value[k].color == StatusColor(r.value[k].value)
      && exists i :: 0 <= i < |s.readings| && s.readings[i].item.room == sess.value.room
           && s.readings[i].item == Reading(sess.value.room, r.value[k].ts, r.value[k].value, r.value[k].status)
    ensures r.Some? ==> var h := RoomReadings(s.readings, sess.value.room);
      forall k :: 0 <= k < |r.value| ==>
        r.value[k] == LogRow(h[k].item.ts, h[k].item.value, h[k].item.status, StatusColor(h[k].item.value))
  {
    match sess
    case None => None
    case Some(session) =>
      var rows := RoomReadings(s.readings, session.room);
      var out := seq(|rows|, k requires 0 <= k < |rows| =>
                   LogRow(rows[k].item.ts, rows[k].item.value, rows[k].item.status, StatusColor(rows[k].item.value)));
      assert forall k :: 0 <= k < |rows| ==> rows[k] in s.readings;
      Some(out)
  }

  /** `dislikes`: without a session, a redirect to login (None); otherwise the
      room's dislikes joined to the name of the user who logged them, newest
      first. */
  function Dislikes(s: Store, sess: Option<Session>): (r: Option<seq<DislikeRow>>)
    ensures r.None? <==> sess.None?
    ensures r.Some? ==> |r.value| == DislikeCount(s.dislikes, s.users, sess.value.room)
    ensures r.Some? ==> forall k :: 0 <= k < |r.value| ==>
      exists d, u :: d in s.dislikes && u in s.users
        && u.id == d.item.userId && u.item.room == sess.value.room
        && r.value[k] == DislikeRow(u.item.name, d.item.ts, d.item.message)
    ensures r.Some? ==> var j := JoinedDislikes(s.dislikes, s.users, sess.value.room);
      && |r.value| == |j|
      && forall k :: 0 <= k < |j| ==>
           r.value[k] == DislikeRow(j[k].user.item.name, j[k].dislike.item.ts, j[k].dislike.item.message)
  {
    match sess
    case None => None
    case Some(session) =>
      var rows := JoinedDislikes(s.dislikes, s.users, session.room);
      JoinedDislikesCount(s.dislikes, s.users, session.room);
      var out := seq(|rows|, k requires 0 <= k < |rows| =>
                   DislikeRow(rows[k].user.item.name, rows[k].dislike.item.ts, rows[k].dislike.item.message));
      assert forall k :: 0 <= k < |out| ==>
        var d, u := rows[k].dislike, rows[k].user;
        d in s.dislikes && u in s.users && out[k] == DislikeRow(u.item.name, d.item.ts, d.item.message);
      Some(out)
  }

  /** `download`: without a session, a redirect to login (None); otherwise the
      room's readings as spreadsheet rows, in table order, in a file named
      after the room. */
  function Download(s: Store, sess: Option<Session>): (r: Option<Export>)
    ensures r.None? <==> sess.None?
    ensures r.Some? ==> r.value.fileName == sess.value.room + "_air_quality_log.xlsx"
    ensures r.Some? ==> |r.value.rows| == |RoomReadings(s.readings, sess.value.room)|
    ensures r.Some? ==> var h := RoomReadings(s.readings, sess.value.room);
      forall k :: 0 <= k < |r.value.rows| ==>
        r.value.rows[k] == ExportRow(h[k].item.ts, h[k].item.value, h[k].item.status)
  {
    match sess
    case None => None
    case Some(session) =>
      var rows := RoomReadings(s.readings, session.room);
      Some(Export(session.room + "_air_quality_log.xlsx",
                  seq(|rows|, k requires 0 <= k < |rows| =>
                        ExportRow(rows[k].item.ts, rows[k].item.value, rows[k].item.status))))
  }

  /** The export holds the rows of the `logs` page, in the same order, without
      the colour column. */
  lemma DownloadMatchesLogs(s: Store, sess: Option<Session>)
    ensures Download(s, sess).None? <==> Logs(s, sess).None?
    ensures Download(s, sess).Some? ==>
      && |Download(s, sess).value.rows| == |Logs(s, sess).value|
      && forall k :: 0 <= k < |Logs(s, sess).value| ==>
           var row := Logs(s, sess).value[k];
           Download(s, sess).value.rows[k] == ExportRow(row.ts, row.value, row.status)
  {
  }

  /** Every reading of the room is listed on the `logs` page, with the band of
      its value. */
  lemma LogsListsEveryReading(s: Store, sess: Session, i: int)
    requires 0 <= i < |s.readings| && s.readings[i].item.room == sess.room
    ensures var x := s.readings[i].item;
      exists k :: 0 <= k < |Logs(s, Some(sess)).value|
        && Logs(s, Some(sess)).value[k] == LogRow(x.ts, x.value, x.status, StatusColor(x.value))
  {
    var h := RoomReadings(s.readings, sess.room);
    assert s.readings[i] in h;
    var k :| 0 <= k < |h| && h[k] == s.readings[i];
    assert Logs(s, Some(sess)).value[k].ts == s.readings[i].item.ts;
  }

  /** Every dislike logged by a user of the room is listed on the `dislikes`
      page, under that user's name. */
  lemma DislikesListsEveryDislike(s: Store, sess: Session, i: int, j: int)
    requires 0 <= i < |s.dislikes| && 0 <= j < |s.users|
    requires s.users[j].id == s.dislikes[i].item.userId && s.users[j].item.room == sess.room
    ensures var d := s.dislikes[i].item;
      exists k :: 0 <= k < |Dislikes(s, Some(sess)).value|
        && Dislikes(s, Some(sess)).value[k] == DislikeRow(s.users[j].item.name, d.ts, d.message)
  {
    var js := JoinedDislikes(s.dislikes, s.users, sess.room);
    JoinedDislikesComplete(s.dislikes, s.users, sess.room, s.dislikes[i], s.users[j]);
    var k :| 0 <= k < |js| && js[k] == Joined(s.dislikes[i], s.users[j]);
    assert Dislikes(s, Some(sess)).value[k].ts == s.dislikes[i].item.ts;
  }

  /** On an ascending table the latest reading is the last row of the room's
      history, so the dashboard and the `logs` page agree. */
  lemma {:induction false} LatestIsLastOfHistory(rows: seq<Row<Reading>>, room: string)
    requires Ascending(rows)
    ensures var h := RoomReadings(rows, room);
      Latest(rows, room) == if |h| == 0 then None else Some(h[|h| - 1])
  {
    if |rows| > 0 {
      var prefix := rows[..|rows| - 1];
      var last := rows[|rows| - 1];
      PrefixAscending(rows);
      LatestIsLastOfHistory(prefix, room);
      var h := RoomReadings(prefix, room);
      if last.item.room == room {
        assert RoomReadings(rows, room) == h + [last];
        var l := Latest(prefix, room);
        if l.Some? {
          var i :| 0 <= i < |prefix| && prefix[i] == l.value;
          assert rows[i] == l.value;
          assert l.value.id < last.id;
        }
        assert Latest(rows, room) == Some(last);
      } else {
        assert RoomReadings(rows, room) == h;
        assert Latest(rows, room) == Latest(prefix, room);
      }
    }
  }
}
