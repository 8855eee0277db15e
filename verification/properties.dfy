/** Properties that relate several operations: idempotent login, room
    isolation of logging, the effect of a vote on every room's counts, and the
    invariant every request keeps. */
module Properties {
  import opened Wrappers
  import opened Table
  import opened Levels
  import opened Store
  import opened Actions
  import opened Queries
  import opened App

  // ------------------------------------------------------------------ login

  /** A second login with the same name and room finds the user the first one
      found or created: same key, nothing inserted. */
  lemma LoginIdempotent(s: Store, name: string, room: string)
    ensures Login(Login(s, name, room).store, name, room) == Login(s, name, room)
  {
    var first := Login(s, name, room);
    if FindUser(s.users, name, room).None? {
      var users := first.store.users;
      var n := |s.users|;
      assert users[n] == Row(first.session.userId, User(name, room));
      var again := FindUser(users, name, room);
      var k :| 0 <= k < |users| && users[k] == Row(again.value, User(name, room))
        && forall j :: 0 <= j < k ==> users[j].item != User(name, room);
      assert k == n;
    }
  }

  /** Matches ignores a user whose key is not the one joined on. */
  lemma MatchesOtherKey(users: seq<Row<User>>, x: Row<User>, uid: int, room: string)
    requires x.id != uid
    ensures Matches(users + [x], uid, room) == Matches(users, uid, room)
  {
    assert (users + [x])[..|users|] == users;
  }

  /** Adding a user that no vote names leaves every vote count unchanged. */
  lemma {:induction false} VoteCountNewUser(votes: seq<Row<Vote>>, users: seq<Row<User>>, x: Row<User>, room: string, kind: VoteKind)
    requires forall i :: 0 <= i < |votes| ==> votes[i].item.userId != x.id
    ensures VoteCount(votes, users + [x], room, kind) == VoteCount(votes, users, room, kind)
  {
    if |votes| > 0 {
      VoteCountNewUser(votes[..|votes| - 1], users, x, room, kind);
      MatchesOtherKey(users, x, votes[|votes| - 1].item.userId, room);
    }
  }

  /** Adding a user that no dislike names leaves every dislike count unchanged. */
  lemma {:induction false} DislikeCountNewUser(dislikes: seq<Row<Dislike>>, users: seq<Row<User>>, x: Row<User>, room: string)
    requires forall i :: 0 <= i < |dislikes| ==> dislikes[i].item.userId != x.id
    ensures DislikeCount(dislikes, users + [x], room) == DislikeCount(dislikes, users, room)
  {
    if |dislikes| > 0 {
      DislikeCountNewUser(dislikes[..|dislikes| - 1], users, x, room);
      MatchesOtherKey(users, x, dislikes[|dislikes| - 1].item.userId, room);
    }
  }

  /** Joining a room changes no room's dashboard: the new user has cast no
      vote yet, and the fresh key is named by no existing vote or dislike. */
  lemma LoginKeepsDashboards(s: Store, name: string, room: string, sess: Session)
    requires Valid(s) && Referential(s)
    ensures Index(Login(s, name, room).store, Some(sess)) == Index(s, Some(sess))
  {
    var l := Login(s, name, room);
    if FindUser(s.users, name, room).None? {
      var x := Row(l.session.userId, User(name, room));
      assert l.store.users == s.users + [x];
      forall i | 0 <= i < |s.votes| ensures s.votes[i].item.userId != x.id {
        var j :| 0 <= j < |s.users| && s.users[j].id == s.votes[i].item.userId;
      }
      forall i | 0 <= i < |s.dislikes| ensures s.dislikes[i].item.userId != x.id {
        var j :| 0 <= j < |s.users| && s.users[j].id == s.dislikes[i].item.userId;
      }
      VoteCountNewUser(s.votes, s.users, x, sess.room, Up);
      VoteCountNewUser(s.votes, s.users, x, sess.room, Down);
      DislikeCountNewUser(s.dislikes, s.users, x, sess.room);
    }
  }

  // -------------------------------------------------------------------- log

  /** A logged level becomes the room's latest reading and the last row of its
      history, carrying the level table's value and status. */
  lemma LogExtendsRoom(s: Store, sess: Session, level: string, ts: string)
    requires Valid(s) && LevelMap(level).Some?
    ensures var after := Log(s, Some(sess), level, ts).store;
      var row := after.readings[|s.readings|];
      && row.item == Reading(sess.room, ts, LevelMap(level).value.value, LevelMap(level).value.status)
      && RoomReadings(after.readings, sess.room) == RoomReadings(s.readings, sess.room) + [row]
      && Latest(after.readings, sess.room) == Some(row)
  {
    var after := Log(s, Some(sess), level, ts).store;
    assert after.readings == s.readings + [after.readings[|s.readings|]];
  }

  /** Room isolation: logging in one room changes neither the history nor the
      latest reading of any other room. */
  lemma LogOtherRoomUnchanged(s: Store, sess: Session, level: string, ts: string, room: string)
    requires room != sess.room
    ensures var after := Log(s, Some(sess), level, ts).store;
      && RoomReadings(after.readings, room) == RoomReadings(s.readings, room)
      && Latest(after.readings, room) == Latest(s.readings, room)
  {
    var after := Log(s, Some(sess), level, ts).store;
    if LevelMap(level).Some? {
      assert after.readings == s.readings + [after.readings[|s.readings|]];
      assert after.readings[..|s.readings|] == s.readings;
    }
  }

  // ------------------------------------------------------------------- vote

  /** The room of a registered user's key is that user's room. */
  lemma UserRoomOf(users: seq<Row<User>>, i: int)
    requires Ascending(users) && 0 <= i < |users|
    ensures UserRoom(users, users[i].id) == Some(users[i].item.room)
  {
    var r := UserRoom(users, users[i].id);
    var j :| 0 <= j < |users| && users[j].id == users[i].id && users[j].item.room == r.value;
    assert i == j;
  }

  /** A vote by the session's user counts once, in the session's room, and in
      no other room. */
  lemma SessionMatches(s: Store, sess: Session, room: string)
    requires Valid(s) && SessionOf(s, sess)
    ensures |Matches(s.users, sess.userId, room)| == if room == sess.room then 1 else 0
  {
    var i :| 0 <= i < |s.users| && s.users[i] == Row(sess.userId, User(sess.name, sess.room));
    UserRoomOf(s.users, i);
    MatchesCount(s.users, sess.userId, room);
  }

  /** A down-vote adds exactly one down-vote and one dislike to the voter's
      room, and changes no other count of any room. */
  lemma DownVoteCounts(s: Store, sess: Session, ts: string, room: string)
    requires Valid(s) && SessionOf(s, sess)
    ensures var t := CastVote(s, Some(sess), "down", ts).store;
      && VoteCount(t.votes, t.users, room, Up) == VoteCount(s.votes, s.users, room, Up)
      && VoteCount(t.votes, t.users, room, Down) == VoteCount(s.votes, s.users, room, Down) + (if room == sess.room then 1 else 0)
      && DislikeCount(t.dislikes, t.users, room) == DislikeCount(s.dislikes, s.users, room) + (if room == sess.room then 1 else 0)
  {
    SessionMatches(s, sess, room);
  }

  /** An up-vote adds exactly one up-vote to the voter's room, and changes no
      other count of any room. */
  lemma UpVoteCounts(s: Store, sess: Session, ts: string, room: string)
    requires Valid(s) && SessionOf(s, sess)
    ensures var t := CastVote(s, Some(sess), "up", ts).store;
      && VoteCount(t.votes, t.users, room, Up) == VoteCount(s.votes, s.users, room, Up) + (if room == sess.room then 1 else 0)
      && VoteCount(t.votes, t.users, room, Down) == VoteCount(s.votes, s.users, room, Down)
      && DislikeCount(t.dislikes, t.users, room) == DislikeCount(s.dislikes, s.users, room)
  {
    SessionMatches(s, sess, room);
  }

  // -------------------------------------------------------------- the app

  /** Login keeps the invariant, and the session it opens (or any session
      open before) names a registered user. */
  lemma LoginKeepsGood(a: State, name: string, room: string)
    requires Good(a)
    ensures Good(Handle(a, LoginRequest(name, room)))
  {
    var r := Handle(a, LoginRequest(name, room));
    assert forall j :: 0 <= j < |a.store.users| ==> r.store.users[j] == a.store.users[j];
  }

  /** After a vote every vote row names a registered user. */
  lemma VoteRowsNameUsers(a: State, voteType: string, ts: string)
    requires Good(a)
    ensures VotesNameUsers(Handle(a, VoteRequest(voteType, ts)).store)
  {
    var r := Handle(a, VoteRequest(voteType, ts)).store;
    if a.session.Some? && (voteType == "up" || voteType == "down") {
      var sess := a.session.value;
      var i :| 0 <= i < |a.store.users| && a.store.users[i] == Row(sess.userId, User(sess.name, sess.room));
      forall k | 0 <= k < |r.votes|
        ensures exists j :: 0 <= j < |r.users| && r.users[j].id == r.votes[k].item.userId
      {
        if k < |a.store.votes| {
          assert r.votes[k] == a.store.votes[k];
        } else {
          assert r.users[i].id == r.votes[k].item.userId;
        }
      }
    } else {
      assert r == a.store;
      forall k | 0 <= k < |r.votes|
        ensures exists j :: 0 <= j < |r.users| && r.users[j].id == r.votes[k].item.userId
      {
        assert a.store.votes[k] == r.votes[k];
        var j :| 0 <= j < |a.store.users| && a.store.users[j].id == a.store.votes[k].item.userId;
        assert r.users[j] == a.store.users[j];
      }
    }
  }

  /** After a vote every dislike row names a registered user. */
  lemma DislikeRowsNameUsers(a: State, voteType: string, ts: string)
    requires Good(a)
    ensures DislikesNameUsers(Handle(a, VoteRequest(voteType, ts)).store)
  {
    var r := Handle(a, VoteRequest(voteType, ts)).store;
    if a.session.Some? && voteType == "down" {
      var sess := a.session.value;
      var i :| 0 <= i < |a.store.users| && a.store.users[i] == Row(sess.userId, User(sess.name, sess.room));
      forall k | 0 <= k < |r.dislikes|
        ensures exists j :: 0 <= j < |r.users| && r.users[j].id == r.dislikes[k].item.userId
      {
        if k < |a.store.dislikes| {
          assert r.dislikes[k] == a.store.dislikes[k];
        } else {
          assert r.users[i].id == r.dislikes[k].item.userId;
        }
      }
    } else {
      assert r.dislikes == a.store.dislikes && r.users == a.store.users;
      forall k | 0 <= k < |r.dislikes|
        ensures exists j :: 0 <= j < |r.users| && r.users[j].id == r.dislikes[k].item.userId
      {
        assert a.store.dislikes[k] == r.dislikes[k];
        var j :| 0 <= j < |a.store.users| && a.store.users[j].id == a.store.dislikes[k].item.userId;
        assert r.users[j] == a.store.users[j];
      }
    }
  }

  /** A vote keeps the invariant: the voter is the session's registered user. */
  lemma VoteKeepsGood(a: State, voteType: string, ts: string)
    requires Good(a)
    ensures Good(Handle(a, VoteRequest(voteType, ts)))
  {
    VoteRowsNameUsers(a, voteType, ts);
    DislikeRowsNameUsers(a, voteType, ts);
  }

  /** Every request keeps the invariant. */
  lemma HandleKeepsGood(a: State, req: Request)
    requires Good(a)
    ensures Good(Handle(a, req))
  {
    match req
    case LoginRequest(name, room) => LoginKeepsGood(a, name, room);
    case LogoutRequest =>
    case LogRequest(level, ts) =>
    case VoteRequest(voteType, ts) => VoteKeepsGood(a, voteType, ts);
  }

  /** Every state reachable from the empty databases satisfies the invariant:
      keys ascend, names are unique per room, and every vote, dislike and
      session names a registered user. */
  lemma {:induction false} RunIsGood(reqs: seq<Request>)
    ensures Good(Run(reqs))
  {
    if |reqs| > 0 {
      RunIsGood(reqs[..|reqs| - 1]);
      HandleKeepsGood(Run(reqs[..|reqs| - 1]), reqs[|reqs| - 1]);
    }
  }

  // -------------------------------------------------------- a walkthrough

  const Alice := Row(1, User("alice", "R1"))
  const Bob := Row(2, User("bob", "R1"))
  const Carol := Row(3, User("carol", "R2"))
  const Green1 := Row(1, Reading("R1", "t1", 10, "Good"))
  const BobDown := Row(1, Vote(2, Down, "t2"))
  const BobDislike := Row(1, Dislike(2, DislikeMessage, "t2"))

  /** The requests of the walkthrough, in order. */
  const Script: seq<Request> := [
    LoginRequest("alice", "R1"), LogRequest("green", "t1"),
    LoginRequest("bob", "R1"), VoteRequest("down", "t2"),
    LoginRequest("carol", "R2")]

  /** The state after each request of the walkthrough. */
  const AfterAlice := State(Store([], [Alice], [], []), Some(Session(1, "alice", "R1")))
  const AfterGreen := State(Store([Green1], [Alice], [], []), Some(Session(1, "alice", "R1")))
  const AfterBob := State(Store([Green1], [Alice, Bob], [], []), Some(Session(2, "bob", "R1")))
  const AfterDown := State(Store([Green1], [Alice, Bob], [BobDown], [BobDislike]), Some(Session(2, "bob", "R1")))
  const AfterCarol := State(Store([Green1], [Alice, Bob, Carol], [BobDown], [BobDislike]), Some(Session(3, "carol", "R2")))

  /** Running a script one request longer handles that request last. */
  lemma RunSnoc(reqs: seq<Request>, req: Request)
    ensures Run(reqs + [req]) == Handle(Run(reqs), req)
  {
    assert (reqs + [req])[..|reqs|] == reqs;
  }

  /** alice joins R1 as its first user. */
  lemma StepAlice()
    ensures Handle(State(Empty(), None), Script[0]) == AfterAlice
  {
    assert MaxId<User>([]) == 0;
  }

  /** alice logs green: the room's first reading. */
  lemma StepGreen()
    ensures Handle(AfterAlice, Script[1]) == AfterGreen
  {
    assert MaxId<Reading>([]) == 0;
  }

  /** bob joins R1 under the next key. */
  lemma StepBob()
    ensures Handle(AfterGreen, Script[2]) == AfterBob
  {
    assert FindUser([Alice], "bob", "R1") == None by {
      assert [Alice][1..] == [];
    }
    assert MaxId([Alice]) == 1 by {
      assert [Alice][..0] == [];
    }
    assert [Alice] + [Bob] == [Alice, Bob];
  }

  /** bob down-votes: one vote and one dislike. */
  lemma StepDown()
    ensures Handle(AfterBob, Script[3]) == AfterDown
  {
    assert MaxId<Vote>([]) == 0 && MaxId<Dislike>([]) == 0;
  }

  /** carol joins R2 under the next key. */
  lemma StepCarol()
    ensures Handle(AfterDown, Script[4]) == AfterCarol
  {
    assert FindUser([Alice, Bob], "carol", "R2") == None by {
      assert [Alice, Bob][1..] == [Bob];
      assert [Bob][1..] == [];
    }
    assert MaxId([Alice, Bob]) == 2 by {
      assert [Alice, Bob][..1] == [Alice];
      assert [Alice][..0] == [];
    }
    assert [Alice, Bob] + [Carol] == [Alice, Bob, Carol];
  }

  /** The walkthrough after its first request. */
  lemma RunAlice()
    ensures Run(Script[..1]) == AfterAlice
  {
    assert Script[..1] == [] + [Script[0]];
    RunSnoc([], Script[0]);
    StepAlice();
  }

  /** The walkthrough after its second request. */
  lemma RunGreen()
    ensures Run(Script[..2]) == AfterGreen
  {
    assert Script[..2] == Script[..1] + [Script[1]];
    RunSnoc(Script[..1], Script[1]);
    RunAlice();
    StepGreen();
  }

  /** The walkthrough after its third request. */
  lemma RunBob()
    ensures Run(Script[..3]) == AfterBob
  {
    assert Script[..3] == Script[..2] + [Script[2]];
    RunSnoc(Script[..2], Script[2]);
    RunGreen();
    StepBob();
  }

  /** The walkthrough after its fourth request. */
  lemma RunDown()
    ensures Run(Script[..4]) == AfterDown
  {
    assert Script[..4] == Script[..3] + [Script[3]];
    RunSnoc(Script[..3], Script[3]);
    RunBob();
    StepDown();
  }

  /** The whole walkthrough. */
  lemma RunCarol()
    ensures Run(Script) == AfterCarol
  {
    assert Script == Script[..4] + [Script[4]];
    RunSnoc(Script[..4], Script[4]);
    RunDown();
    StepCarol();
  }

  /** After logging green, alice's dashboard shows the reading as value 10,
      status Good, colour green, with no votes. */
  lemma WalkthroughAliceDashboard()
    ensures var a := Run(Script[..2]);
      Index(a.store, a.session) == Some(Dashboard(Some(LatestView("t1", 10, "Good", Green)), 0, 0, 0))
  {
    RunGreen();
    assert [Green1][..0] == [];
  }

  /** bob's dislike joins with bob, the only R1 user with key 2. */
  lemma WalkJoinBob()
    ensures JoinedDislikes([BobDislike], [Alice, Bob], "R1") == [Joined(BobDislike, Bob)]
  {
    assert [Alice, Bob][..1] == [Alice];
    assert [Alice][..0] == [];
    assert Matches([Alice, Bob], 2, "R1") == [Bob];
    assert [BobDislike][..0] == [];
  }

  /** After bob's down-vote, the dislike page of R1 shows one row, for bob. */
  lemma WalkthroughBobDislikes()
    ensures var b := Run(Script[..4]);
      Dislikes(b.store, b.session) == Some([DislikeRow("bob", "t2", DislikeMessage)])
  {
    RunDown();
    WalkJoinBob();
    var st := Store([Green1], [Alice, Bob], [BobDown], [BobDislike]);
    var rows := JoinedDislikes(st.dislikes, st.users, "R1");
    assert |rows| == 1 && rows[0] == Joined(BobDislike, Bob);
    var page := Dislikes(st, Some(Session(2, "bob", "R1")));
    assert page.Some? && |page.value| == 1;
    assert page.value[0] == DislikeRow("bob", "t2", DislikeMessage);
    assert page.value == [DislikeRow("bob", "t2", DislikeMessage)];
  }

  /** No R2 user has cast a vote or logged a dislike. */
  lemma WalkCountsR2()
    ensures VoteCount([BobDown], [Alice, Bob, Carol], "R2", Up) == 0
    ensures VoteCount([BobDown], [Alice, Bob, Carol], "R2", Down) == 0
    ensures DislikeCount([BobDislike], [Alice, Bob, Carol], "R2") == 0
  {
    assert [Alice, Bob, Carol][..2] == [Alice, Bob];
    assert [Alice, Bob][..1] == [Alice];
    assert [Alice][..0] == [];
    assert Matches([], 2, "R2") == [];
    assert Matches([Alice], 2, "R2") == [];
    assert Matches([Alice, Bob], 2, "R2") == [];
    assert Matches([Alice, Bob, Carol], 2, "R2") == [];
    assert [BobDown][..0] == [];
    assert [BobDislike][..0] == [];
  }

  /** Room isolation end to end: carol, alone in R2, sees no reading and no
      votes although R1 has both. */
  lemma WalkthroughCarolDashboard()
    ensures var c := Run(Script);
      Index(c.store, c.session) == Some(Dashboard(None, 0, 0, 0))
  {
    RunCarol();
    WalkCountsR2();
  }
}
