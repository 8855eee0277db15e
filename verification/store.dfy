/** The persistent state: the readings table of the logs database and the
    users, votes and dislike-log tables of the users database, each an
    append-only AUTOINCREMENT table. */
module Store {
  import opened Wrappers
  import opened Table

  /** A row of `logs`: the room it was logged for, when, and the level's
      value and status. */
  datatype Reading = Reading(room: string, ts: string, value: int, status: string)

  /** A row of `users`: a name registered in a room. */
  datatype User = User(name: string, room: string)

  /** The two accepted vote types. */
  datatype VoteKind = Up | Down

  /** A row of `votes`. */
  datatype Vote = Vote(userId: int, kind: VoteKind, ts: string)

  /** A row of `dislike_logs`. */
  datatype Dislike = Dislike(userId: int, message: string, ts: string)

  datatype Store = Store(
    readings: seq<Row<Reading>>,
    users: seq<Row<User>>,
    votes: seq<Row<Vote>>,
    dislikes: seq<Row<Dislike>>)

  /** What the session cookie carries once a user has logged in. */
  datatype Session = Session(userId: int, name: string, room: string)

  /** The text form of a vote type, as stored in `votes.vote_type`. */
  function VoteKindName(k: VoteKind): string
  {
    match k
    case Up => "up"
    case Down => "down"
  }

  /** Reads the `<vote_type>` path segment; only "up" and "down" are accepted. */
  function ParseVoteKind(t: string): (k: Option<VoteKind>)
    ensures k.Some? <==> t == "up" || t == "down"
    ensures k.Some? ==> VoteKindName(k.value) == t
  {
    if t == "up" then Some(Up)
    else if t == "down" then Some(Down)
    else None
  }

  /** The `UNIQUE(name, room_code)` constraint of `users`. */
  ghost predicate UniqueNames(users: seq<Row<User>>)
  {
    forall i, j :: 0 <= i < j < |users| ==> users[i].item != users[j].item
  }

  /** The store invariant: every table has ascending keys, and no name is
      registered twice in one room. */
  ghost predicate Valid(s: Store)
  {
    && Ascending(s.readings)
    && Ascending(s.users)
    && Ascending(s.votes)
    && Ascending(s.dislikes)
    && UniqueNames(s.users)
  }

  /** The session names a registered user: the key, name and room agree with
      a row of `users`. */
  ghost predicate SessionOf(s: Store, sess: Session)
  {
    exists i :: 0 <= i < |s.users| && s.users[i] == Row(sess.userId, User(sess.name, sess.room))
  }

  /** Every vote names a registered user. */
  ghost predicate VotesNameUsers(s: Store)
  {
    forall i :: 0 <= i < |s.votes| ==> exists j :: 0 <= j < |s.users| && s.users[j].id == s.votes[i].item.userId
  }

  /** Every dislike names a registered user. */
  ghost predicate DislikesNameUsers(s: Store)
  {
    forall i :: 0 <= i < |s.dislikes| ==> exists j :: 0 <= j < |s.users| && s.users[j].id == s.dislikes[i].item.userId
  }

  /** Every vote and dislike names a registered user. Nothing in the schema
      enforces it; it holds because votes are only cast under a session that
      `login` established. */
  ghost predicate Referential(s: Store)
  {
    VotesNameUsers(s) && DislikesNameUsers(s)
  }

  /** The freshly created databases. */
  function Empty(): (s: Store)
    ensures Valid(s) && Referential(s)
    ensures |s.readings| == |s.users| == |s.votes| == |s.dislikes| == 0
  {
    Store([], [], [], [])
  }
}
