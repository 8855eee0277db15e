# Air-quality rooms: a Dafny model of the storage core

The application lets people join a *room* by name and room code, log the air
quality of the room as one of three level tags (green, yellow, red), see the
room's latest reading and its up/down vote and dislike counts, vote, and browse
or export the room's history. Under the Flask routing it is a small,
deterministic state machine over four append-only SQLite tables: `logs`
(readings), `users`, `votes` and `dislike_logs`.

This project models that state machine as pure functions over an immutable
store and proves what the handlers promise:

- `levels.dfy` (`Levels`): the level table (`LEVEL_MAP`) and the colour bands
  of `get_status_color`, with the boundary facts and the tag → value → colour
  round trip.
- `table.dfy` (`Table`): an AUTOINCREMENT table as a sequence of rows
  `Row(id, item)`. `NextId` is the largest key so far plus one. `Insert`
  appends under that key and keeps keys ascending.
- `store.dfy` (`Store`): the row types, the store record, the session triple
  `(user_id, name, room_code)`, and the store invariant `Valid`. `Valid` says
  keys ascend in every table and `UNIQUE(name, room_code)` holds.
- `actions.dfy` (`Actions`): the writes, which are `login` (find-or-create),
  `log` and `vote`. `login` needs no session. `log` and `vote` take the
  session as `Option<Session>`: `None` is the `login_required` redirect, and
  nothing is written.
- `queries.dfy` (`Queries`): the room-scoped reads. These are the latest
  reading (greatest key), the reading history, and the vote and dislike counts
  through the `users` join. They also include the dislike history (newest
  first) and the rows `download` exports, plus the views `index`, `logs`,
  `dislikes` and `download` built from them.
- `app.dfy` (`App`): one browser session as a sequence of requests, with
  `logout` clearing the session.
- `properties.dfy` (`Properties`): the lemmas that span operations:
  - login is idempotent;
  - logging is isolated per room;
  - a vote changes the counts of exactly one room;
  - every reachable state satisfies the invariant;
  - a three-user walkthrough.

The timestamp (`datetime.now()` in the source) is an opaque string parameter.
The session cookie is an explicit value.

## Model

| member | source | states |
|---|---|---|
| Levels.ParseColor | app.py:167 | a level is accepted exactly when it is "green", "yellow" or "red", and the accepted tag prints back as itself |
| Levels.ParseColorName | app.py:62-66 | every tag reads back as itself |
| Levels.LevelOf | app.py:62-66 | green stores (10, Good), yellow (50, Smoky), red (90, Danger) |
| Levels.LevelMap | app.py:62-66 | the lookup succeeds exactly for the three keys and yields their fixed (value, status) pairs |
| Levels.StatusColor | app.py:68-74 | the band is green iff value < 30, yellow iff 30 <= value <= 70, red iff value > 70, for every integer |
| Levels.StatusColorBoundaries | app.py:68-74 | 29 is green, 30 and 70 are yellow, 71 is red |
| Levels.LevelColorRoundTrip | app.py:62-74 | the band recomputed from the value a tag stores is that tag |
| Levels.LevelOfColorRoundTrip | app.py:62-74 | the same round trip on the typed tag |
| Table.MaxId | app.py:21 | the result bounds every key in the table and is one of them, or 0 for an empty table |
| Table.NextId | app.py:21 | the next AUTOINCREMENT key is at least 1 and exceeds every key already used |
| Table.NextIdAfterLast | app.py:21 | on an ascending table the next key is the last key plus one, and 1 when the table is empty |
| Table.Insert | app.py:176-177 | an insert appends exactly one row with the given columns under a key above all others, leaves earlier rows intact, and keeps keys ascending |
| Store.ParseVoteKind | app.py:186 | a vote type is accepted exactly when it is "up" or "down" |
| Store.Empty | app.py:16-58 | the freshly created tables are empty, satisfy the invariant, and every vote names a user |
| Actions.FindUser | app.py:93-94 | the lookup is None iff no user has this (name, room); otherwise it is the key of the first such row |
| Actions.FindUserUnique | app.py:93-94 | under UNIQUE(name, room_code) the lookup returns the key of the only matching row |
| Actions.Login | app.py:87-111 | an existing (name, room) logs in with its key and inserts nothing; an unseen pair appends one user under a fresh key; the session names the user; the other tables are unchanged; the invariant, uniqueness included, is preserved |
| Actions.Log | app.py:164-181 | without a session: no write, redirect to login; an unknown level writes nothing; a known level appends exactly one reading with the session's room, the timestamp and the level's value and status; users, votes and dislikes are unchanged; the invariant is preserved |
| Actions.CastVote | app.py:183-205 | without a session: no write, redirect to login; an invalid type writes nothing; "up" appends one vote and no dislike; "down" appends one vote and one dislike with the same user and timestamp and the fixed message; readings and users are unchanged; the invariant is preserved |
| Queries.RoomReadings | app.py:212-215 | the room's history holds exactly the readings whose room is r, and on a valid store it is in ascending key order |
| Queries.Latest | app.py:131-134 | the latest reading is None iff the room has no reading; otherwise it is a reading of the room with the greatest key |
| Queries.LatestIsLastOfHistory | app.py:133 | on a valid store the latest reading is the last row of the room's ascending history |
| Queries.Matches | app.py:146-147 | the users joined with a key are exactly those with that key in the room; with unique keys there is at most one |
| Queries.UserRoom | app.py:146 | the room of a key is None iff no user has that key, and otherwise the room of a user with that key |
| Queries.VoteCount | app.py:145-154 | the SQL join count of one vote type; it has no contract of its own, and `Queries.VoteCountIsVotesInRoom` ties it to the size of `Queries.VotesInRoom` when user keys are unique |
| Queries.DislikeCount | app.py:155-159 | the SQL join count of dislikes; it has no contract of its own, and `Queries.DislikeCountIsDislikesInRoom` ties it to the size of `Queries.DislikesInRoom` when user keys are unique |
| Queries.VotesInRoom | app.py:145-154 | reference count: exactly the votes of the type whose user's room is r |
| Queries.DislikesInRoom | app.py:155-159 | reference count: exactly the dislikes whose user's room is r |
| Queries.MatchesCount | app.py:146-147 | with unique user keys a row joins with one user when its user is in the room and with none otherwise |
| Queries.VoteCountIsVotesInRoom | app.py:145-154 | the SQL join count of up/down votes equals the number of the room's votes of that type |
| Queries.DislikeCountIsDislikesInRoom | app.py:155-159 | the SQL join count of dislikes equals the number of the room's dislikes |
| Queries.JoinedDislikes | app.py:229-236 | every history row pairs a dislike with its user, who is in the room; on a valid store the rows are in strictly descending dislike key |
| Queries.JoinedDislikesCount | app.py:229-236 | the dislike history has as many rows as the dashboard's dislike total |
| Queries.Index | app.py:127-162 | no session gives the login redirect; the latest reading is absent iff the room has none; otherwise it is the room's greatest-key reading, shown with the band of its value |
| Queries.IndexCounts | app.py:143-159 | on a valid store the dashboard's up, down and dislike counts are the room's votes and dislikes attributed through their users' rooms |
| Queries.Logs | app.py:207-220 | no session gives the login redirect; otherwise row k is the k-th reading of the room's history (ascending key on a valid store) with the band of its value, and there is one row per reading |
| Queries.LogsListsEveryReading | app.py:212-218 | every reading of the room appears on the logs page with the band of its value |
| Queries.Dislikes | app.py:222-241 | no session gives the login redirect; otherwise row k is the k-th joined pair of the dislike history (newest first on a valid store), shown as the user's name, the timestamp and the message; the rows are as many as the dislike count |
| Queries.JoinedDislikesComplete | app.py:229-236 | every dislike whose user is in the room is paired with that user in the history |
| Queries.DislikesListsEveryDislike | app.py:229-239 | every dislike logged by a user of the room appears on the dislikes page under that user's name |
| Queries.Download | app.py:243-262 | no session gives the login redirect; otherwise the export is named after the room and row k holds the timestamp, value and status of the k-th reading of the room's history |
| Queries.DownloadMatchesLogs | app.py:248-254 | the export and the logs page select the same rows in the same order, so their row counts are equal |
| App.Handle | app.py:119-123 | login opens a session for the given name and room; logout clears the session and writes nothing; other requests keep the session; without a session nothing but login writes |
| Properties.LoginIdempotent | app.py:93-101 | a repeated login with the same name and room yields the same key and the same store |
| Properties.LoginKeepsDashboards | app.py:103-111 | creating a user changes no room's latest reading or counts |
| Properties.LogExtendsRoom | app.py:176-177 | a logged level becomes the last row of the room's history and its latest reading, with the mapped value and status |
| Properties.LogOtherRoomUnchanged | app.py:170-177 | logging in one room changes neither the history nor the latest reading of any other room |
| Properties.SessionMatches | app.py:146-147 | a registered session user's vote joins once in that user's room and in no other |
| Properties.DownVoteCounts | app.py:194-200 | a down-vote raises the voter's room's down-votes and dislikes by exactly one each and changes no other count of any room |
| Properties.UpVoteCounts | app.py:194-195 | an up-vote raises the voter's room's up-votes by exactly one and changes no other count of any room |
| Properties.LoginKeepsGood | app.py:93-111 | login preserves the invariant and leaves every session naming a registered user |
| Properties.VoteKeepsGood | app.py:189-200 | a vote preserves the invariant: each new vote and dislike names the session's registered user |
| Properties.HandleKeepsGood | app.py:76-83 | every request, guarded or not, preserves the invariant |
| Properties.RunIsGood | app.py:38 | every state reachable from the empty tables has ascending keys and unique (name, room) pairs; its votes, dislikes and session all name registered users |
| Properties.WalkthroughAliceDashboard | app.py:137-140 | after alice logs green in R1, her dashboard shows value 10, status Good, colour green and no votes |
| Properties.WalkthroughBobDislikes | app.py:229-239 | after bob joins R1 and down-votes, the R1 dislike page has one row, for bob |
| Properties.WalkthroughCarolDashboard | app.py:131-159 | carol, alone in R2, sees no reading and zero counts although R1 has a reading and a dislike |

## Left out

- Flask routing, `render_template`, `flash` messages and the URLs of redirects. The writes answer `ToLogin` or `ToIndex`. A view answers `None` for the login redirect.
- The GET branch of `/login` only renders a form. A POST missing the `name` or `code` field is a framework 400 error. Neither touches the store.
- The `IntegrityError` branch of `login` (app.py:112-113). Requests are sequential here, so the SELECT at app.py:93 always sees the row that would conflict. `Actions.Login` proves instead that its insert never breaks `UNIQUE(name, room_code)`.
- `init_db`, connection open/close and the `secrets` key. The model starts from `Store.Empty`.
- The spreadsheet bytes written by pandas/openpyxl, and the MIME type. `Download` models only the file name and which rows are exported, in what order.
- `datetime.now()`. The timestamp is a parameter.
- Concurrency between requests. Consistency there rests on SQLite's own locking.
- 64-bit rowid exhaustion. Keys are unbounded integers.
- Queries.RoomReadings: `ORDER BY id ASC` is modelled as table order. The two coincide on stores with ascending keys, and `Properties.RunIsGood` proves every reachable store has them. On an arbitrary store the model does not sort.
- Queries.JoinedDislikes: `ORDER BY dl.id DESC` is modelled as reverse table order. The same ascending-key condition makes that descending key order.
- Actions.FindUser: `fetchone()` without `ORDER BY` is modelled as the first matching row in table order. Under the uniqueness constraint at most one row matches.
- Sessions are not checked against the store, just as the source does not check them. A vote under a session whose user does not exist is still inserted. The count lemmas assume the session names a registered user (`SessionOf`), which `RunIsGood` proves for every reachable state.

`login` never rejects a name already registered in the room. It logs in as that user (app.py:96-101). The only rejection is the concurrent `IntegrityError`, left out above.
