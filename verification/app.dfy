/** The application as a sequence of requests against one browser session:
    the store plus the session cookie, with `logout` clearing the cookie. */
module App {
  import opened Wrappers
  import opened Store
  import Actions

  /** One request, with the timestamp it is handled at where it writes one. */
  datatype Request =
    | LoginRequest(name: string, room: string)
    | LogoutRequest
    | LogRequest(level: string, ts: string)
    | VoteRequest(voteType: string, ts: string)

  /** The server-side state a request sees: the databases and the cookie. */
  datatype State = State(store: Store, session: Option<Session>)

  /** Handles one request. `logout` clears the session and writes nothing. */
  function Handle(a: State, req: Request): (r: State)
    ensures req.LoginRequest? ==> r.session.Some? && r.session.value.name == req.name && r.session.value.room == req.room
    ensures req.LogoutRequest? ==> r == State(a.store, None)
    ensures !req.LoginRequest? && !req.LogoutRequest? ==> r.session == a.session
    ensures a.session.None? && !req.LoginRequest? ==> r.store == a.store
  {
    match req
    case LoginRequest(name, room) =>
      var l := Actions.Login(a.store, name, room);
      State(l.store, Some(l.session))
    case LogoutRequest => State(a.store, None)
    case LogRequest(level, ts) => State(Actions.Log(a.store, a.session, level, ts).store, a.session)
    case VoteRequest(voteType, ts) => State(Actions.CastVote(a.store, a.session, voteType, ts).store, a.session)
  }

  /** The state after handling `reqs` in order, starting from the empty
      databases and no session. */
  function Run(reqs: seq<Request>): State
  {
    if |reqs| == 0 then State(Empty(), None)
    else Handle(Run(reqs[..|reqs| - 1]), reqs[|reqs| - 1])
  }

  /** The invariant every request keeps: the store is valid, votes and
      dislikes name registered users, and a session names a registered user. */
  ghost predicate Good(a: State)
  {
    && Valid(a.store)
    && Referential(a.store)
    && (a.session.Some? ==> SessionOf(a.store, a.session.value))
  }
}
