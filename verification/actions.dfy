/** The request handlers that write: `login` (find-or-create a user), `log`
    (record a level for the session's room) and `vote` (record a vote, and a
    dislike for a down-vote). Each takes the session as an optional value:
    without one, the `login_required` guard answers with a redirect to the
    login page and nothing is written. */
module Actions {
  import opened Wrappers
  import opened Table
  import opened Levels
  import opened Store

  /** Where a handler redirects the browser. */
  datatype Reply = ToLogin | ToIndex

  /** The store after a request, and the redirect it answers with. */
  datatype Step = Step(store: Store, reply: Reply)

  /** A successful login: the store afterwards and the session it establishes. */
  datatype LoginResult = LoginResult(store: Store, session: Session)

  /** The fixed message of every dislike-log row. */
  const DislikeMessage: string := "Dislike detected, information logged."

  /** `SELECT id FROM users WHERE name = ? AND room_code = ?` followed by
      `fetchone()`: the key of the first row with this name and room. */
  function FindUser(users: seq<Row<User>>, name: string, room: string): (r: Option<int>)
    ensures r.None? <==> forall i :: 0 <= i < |users| ==> users[i].item != User(name, room)
    ensures r.Some? ==>
      exists i :: 0 <= i < |users| && users[i] == Row(r.value, User(name, room))
        && forall j :: 0 <= j < i ==> users[j].item != User(name, room)
  {
    if |users| == 0 then None
    else if users[0].item == User(name, room) then Some(users[0].id)
    else
      var r := FindUser(users[1..], name, room);
      if r.Some? then
        var i :| 0 <= i < |users[1..]| && users[1..][i] == Row(r.value, User(name, room))
          && forall j :: 0 <= j < i ==> users[1..][j].item != User(name, room);
        assert users[i + 1] == Row(r.value, User(name, room));
        r
      else r
  }

  /** Under the uniqueness constraint the row found is the only one with this
      name and room. */
  lemma FindUserUnique(users: seq<Row<User>>, name: string, room: string, i: int)
    requires UniqueNames(users)
    requires 0 <= i < |users| && users[i].item == User(name, room)
    ensures FindUser(users, name, room) == Some(users[i].id)
  {
    var r := FindUser(users, name, room);
    var k :| 0 <= k < |users| && users[k] == Row(r.value, User(name, room))
      && forall j :: 0 <= j < k ==> users[j].item != User(name, room);
    assert k == i;
  }

  /** The POST branch of `login`: an existing (name, room) pair logs in as that
      user and inserts nothing; an unseen pair inserts one user under a fresh
      key and logs in as it. The insert never breaks `UNIQUE(name, room_code)`. */
  function Login(s: Store, name: string, room: string): (r: LoginResult)
    ensures r.session.name == name && r.session.room == room
    ensures SessionOf(r.store, r.session)
    ensures r.store.readings == s.readings && r.store.votes == s.votes && r.store.dislikes == s.dislikes
    ensures (exists i :: 0 <= i < |s.users| && s.users[i].item == User(name, room)) ==> r.store == s
    ensures forall i :: 0 <= i < |s.users| && s.users[i].item == User(name, room) && UniqueNames(s.users) ==>
      r.session.userId == s.users[i].id
    ensures (forall i :: 0 <= i < |s.users| ==> s.users[i].item != User(name, room)) ==>
      && r.store.users == s.users + [Row(r.session.userId, User(name, room))]
      && forall i :: 0 <= i < |s.users| ==> s.users[i].id < r.session.userId
    ensures Valid(s) ==> Valid(r.store)
  {
    match FindUser(s.users, name, room)
    case Some(id) =>
      forall i | 0 <= i < |s.users| && s.users[i].item == User(name, room) && UniqueNames(s.users)
        ensures id == s.users[i].id
      {
        FindUserUnique(s.users, name, room, i);
      }
      LoginResult(s, Session(id, name, room))
    case None =>
      var users := Insert(s.users, User(name, room));
      var id := users[|s.users|].id;
      assert users == s.users + [Row(id, User(name, room))];
      assert users[|s.users|] == Row(id, User(name, room));
      LoginResult(s.(users := users), Session(id, name, room))
  }

  /** `log`: behind the session guard, an unknown level writes nothing; a tag
      of the level table appends exactly one reading for the session's room
      with that tag's value and status. The other tables never change. */
  function Log(s: Store, sess: Option<Session>, level: string, ts: string): (r: Step)
    ensures sess.None? ==> r == Step(s, ToLogin)
    ensures sess.Some? ==> r.reply == ToIndex
    ensures LevelMap(level).None? ==> r.store == s
    ensures r.store.users == s.users && r.store.votes == s.votes && r.store.dislikes == s.dislikes
    ensures sess.Some? && LevelMap(level).Some? ==>
      && |r.store.readings| == |s.readings| + 1
      && r.store.readings[..|s.readings|] == s.readings
      && r.store.readings[|s.readings|].item
         == Reading(sess.value.room, ts, LevelMap(level).value.value, LevelMap(level).value.status)
      && forall i :: 0 <= i < |s.readings| ==> s.readings[i].id < r.store.readings[|s.readings|].id
    ensures Valid(s) ==> Valid(r.store)
  {
    match sess
    case None => Step(s, ToLogin)
    case Some(session) =>
      match LevelMap(level)
      case None => Step(s, ToIndex)
      case Some(l) =>
        var reading := Reading(session.room, ts, l.value, l.status);
        Step(s.(readings := Insert(s.readings, reading)), ToIndex)
  }

  /** `vote`: behind the session guard, a type other than "up" or "down" writes
      nothing; "up" appends one vote and no dislike; "down" appends one vote and
      one dislike with the same user and timestamp and the fixed message.
      Readings and users never change. */
  function CastVote(s: Store, sess: Option<Session>, voteType: string, ts: string): (r: Step)
    ensures sess.None? ==> r == Step(s, ToLogin)
    ensures sess.Some? ==> r.reply == ToIndex
    ensures voteType != "up" && voteType != "down" ==> r.store == s
    ensures r.store.readings == s.readings && r.store.users == s.users
    ensures sess.Some? && voteType == "up" ==>
      && |r.store.votes| == |s.votes| + 1
      && r.store.votes[..|s.votes|] == s.votes
      && r.store.votes[|s.votes|].item == Vote(sess.value.userId, Up, ts)
      && r.store.dislikes == s.dislikes
    ensures sess.Some? && voteType == "down" ==>
      && |r.store.votes| == |s.votes| + 1
      && r.store.votes[..|s.votes|] == s.votes
      && r.store.votes[|s.votes|].item == Vote(sess.value.userId, Down, ts)
      && |r.store.dislikes| == |s.dislikes| + 1
      && r.store.dislikes[..|s.dislikes|] == s.dislikes
      && r.store.dislikes[|s.dislikes|].item
         == Dislike(sess.value.userId, "Dislike detected, information logged.", ts)
    ensures Valid(s) ==> Valid(r.store)
  {
    match sess
    case None => Step(s, ToLogin)
    case Some(session) =>
      match ParseVoteKind(voteType)
      case None => Step(s, ToIndex)
      case Some(kind) =>
        var votes := Insert(s.votes, Vote(session.userId, kind, ts));
        var dislikes :=
          if kind == Down then Insert(s.dislikes, Dislike(session.userId, DislikeMessage, ts))
          else s.dislikes;
        Step(s.(votes := votes, dislikes := dislikes), ToIndex)
  }
}
