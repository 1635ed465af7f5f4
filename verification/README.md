# Truth-or-dare game-session coordinator, modelled in Dafny

This project models the in-memory game-session coordinator of the truth-or-dare
server (`backend/src/socket/index.ts`). The coordinator keeps a map from room code
to one session record. Each socket event changes that record in place:

- `join_room` puts a player on the room's roster and creates the session on first join.
- `spin_request` picks the next target, so that everyone gets the bottle once before anyone gets it twice.
- `coin_flip_request` chooses TRUTH or DARE and starts a fresh turn.
- `submit_question` collects questions and selects one.
- `vote_task` tallies votes, decides the result and scores it, then defers a reset.
- `init_task_session` is a fallback initializer.
- `leave_room` takes a player off the roster and tears down an empty room.

Layout, one module per file:

- `domain.dfy` (`Domain`): roster entries, rooms, questions, votes, and the roster helpers every handler shares (ids, first entry with an id, filtering ids out).
- `roster.dfy` (`Roster`): the join and leave updates of a room's roster and host, and the broadcast score table.
- `rotation.dfy` (`Rotation`): turn selection, the bottle angle, and the fairness of consecutive spins.
- `tally.dfy` (`Tally`): the majority, the resolution rule and the one-point award.
- `sessions.dfy` (`Sessions`): two classes. `Session` is a session record whose methods change its fields in place. `SessionStore` is the map from room code to session, with one method per socket event.

`Tally.ScoreOf` (`get(id) || 0`), `Rotation.TargetId` (the id of the entry `ChooseTarget` picks) and `Sessions.SessionStore.Insert` (the `gameSessions.set` of a new session) are helpers, and the rows of the members that use them state what they do.

The stored room is an input to each handler. It is `None` when the room lookup finds nothing, and the handler returns the updated room. Every `Math.random()` draw is a parameter: an index below the range the source draws from, a coin side, or a boolean for the tie coin. Values the handlers broadcast are returned as results.

## Model

| member | source | states |
|---|---|---|
| `Domain.FirstIndexOf` | backend/src/socket/index.ts:108 | the result is the first roster index holding the id, or -1 exactly when no entry holds it |
| `Domain.FirstIndexOfMember` | backend/src/socket/index.ts:30 | the lookup by id finds an entry if and only if the id is on the roster |
| `Domain.Excluding` | backend/src/socket/index.ts:295 | the filter keeps exactly the entries whose id is not excluded, in both directions, and keeps the roster whole when nothing matches |
| `Domain.ExcludingCounts` | backend/src/socket/index.ts:101-103 | the filter keeps each entry whose id is not excluded exactly as many times as the roster holds it, and drops every other entry |
| `Domain.ExcludingFirst` | backend/src/socket/index.ts:295-306 | the filter's first entry is the first roster entry whose id is not excluded; every entry before it is excluded, which is what the new host is taken from |
| `Domain.ExcludingEmpty` | backend/src/socket/index.ts:297 | the filtered roster is empty if and only if every roster id is excluded |
| `Roster.UpsertPlayer` | backend/src/socket/index.ts:30-37 | a returning member leaves the roster length unchanged and only their first entry's socket id changes; a new user is appended with their id, name and avatar; the id set grows by exactly the joining id |
| `Roster.RemovePlayer` | backend/src/socket/index.ts:295-310 | every entry with the leaving id is removed and the rest are kept; the room is deleted exactly when no other id remains; if the host left, the new host is the id of the first roster entry with another id, otherwise the host is kept |
| `Roster.DisplayName` | backend/src/socket/index.ts:66-67 | an id off the roster shows as "Unknown"; an id on the roster shows the name of its first entry, or "Unknown" when that name is empty |
| `Roster.ScoreTable` | backend/src/socket/index.ts:65-68 | one row per scored id, no others, each carrying that id's score; ids that left the roster are labelled "Unknown"; an id on the roster carries its first entry's name, or "Unknown" when that is empty |
| `Rotation.NotYetSelected` | backend/src/socket/index.ts:101-103 | the candidates are exactly the roster entries whose id has not had the bottle; there are none if and only if every roster id has had it |
| `Rotation.CandidatesCounted` | backend/src/socket/index.ts:101-107 | `ExcludingCounts` restated for the candidate list: each roster entry of a player who has not had the bottle is a candidate exactly as often as the roster holds it, so the candidate count the draw ranges over is right |
| `Rotation.PickBound` | backend/src/socket/index.ts:105-111 | the draw's range is exactly the number of candidates, or the roster size once there are none; the range is empty only for an empty roster |
| `Rotation.ChooseTarget` | backend/src/socket/index.ts:105-112 | the index is on the roster; while someone has not had the bottle, the target is such a player, namely the drawn candidate; afterwards it is the drawn roster index |
| `Rotation.Segment` | backend/src/socket/index.ts:121 | a segment is positive and the player count's segments make exactly one full turn |
| `Rotation.SpinAngle` | backend/src/socket/index.ts:121-123 | for any index below the player count, the angle lies in [1530, 1890) |
| `Rotation.AngleIdentifiesTarget` | backend/src/socket/index.ts:121-123 | the angle's offset past 1530 degrees, measured in segments, is the target index, so the angle identifies the target |
| `Rotation.FirstSpinTargetsWaiting` | backend/src/socket/index.ts:105-115 | while someone is waiting, a spin targets a waiting player and the number waiting drops by exactly one |
| `Rotation.RotationTargetsWaiting` | backend/src/socket/index.ts:100-115 | over no more consecutive spins than players waiting, every target is a roster player who was waiting at the start |
| `Rotation.RotationNeverRepeats` | backend/src/socket/index.ts:100-115 | over no more consecutive spins than players waiting, every target was waiting and no target repeats |
| `Rotation.RotationCoversEveryone` | backend/src/socket/index.ts:100-115 | as many consecutive spins as players waiting give every waiting player the bottle |
| `Tally.Majority` | backend/src/socket/index.ts:213 | the majority is the required count halved and rounded up, negative counts included |
| `Tally.Resolve` | backend/src/socket/index.ts:212-230 | complete's early majority is checked first and wins, then incomplete's; otherwise, once the required votes are in, there is always a result, and an exact tie goes to the coin; the three lemmas below fix the winner of the remaining cases only while the votes do not outnumber the roster |
| `Tally.CompleteMajorityCheckedFirst` | backend/src/socket/index.ts:213-220 | with more votes than the shrunken roster allows (2 complete, 3 incomplete, 2 required), complete's early majority wins against the larger side |
| `Tally.ResolvePending` | backend/src/socket/index.ts:212-230 | there is no result exactly when neither side exceeds the majority and fewer votes than required are in |
| `Tally.ResolveFavoursLarger` | backend/src/socket/index.ts:212-230 | with at most one vote per roster member, a result never goes to the smaller side, and goes to an equal side only through the tie coin |
| `Tally.EarlyExitIsUnbeatable` | backend/src/socket/index.ts:212-220 | a result reached before all votes are in is a lead that the missing votes could not overturn |
| `Tally.Award` | backend/src/socket/index.ts:235-237 | the target gains exactly one point (from 0 when it had no entry); every other entry is unchanged; no score decreases |
| `Sessions.ZeroScores` | backend/src/socket/index.ts:57-60 | the seeded table has exactly the roster's ids as keys, all at 0 |
| `Sessions.Session.constructor` | backend/src/socket/index.ts:46-60 | a new session has no target and an empty turn; its type is TRUTH; no one has had the bottle; the score is 0 for exactly the roster ids |
| `Sessions.Session.Spin` | backend/src/socket/index.ts:97-123 | the chosen entry becomes the target and joins the players who had the bottle; that set only grows; the target was waiting whenever someone was; the angle is the target's |
| `Sessions.Session.BeginTask` | backend/src/socket/index.ts:141-146 | the task type is set and the questions, selection and both vote sets are cleared; nothing else changes |
| `Sessions.Session.SubmitQuestion` | backend/src/socket/index.ts:163-179 | exactly one question is appended and earlier ones are kept; progress is (count, players - 1); from the threshold on, the drawn question is selected on every submission; below it, nothing is selected |
| `Sessions.Session.RecordVote` | backend/src/socket/index.ts:193-200 | the voter is in the set of their vote and not in the other; no other id moves; the sets stay disjoint |
| `Sessions.Session.CastVote` | backend/src/socket/index.ts:193-238 | the vote is recorded; the count and result follow the tally with players - 1 required; only a complete result with a target awards a point, through `Award` |
| `Sessions.Session.ResetTurn` | backend/src/socket/index.ts:250-255 | the deferred reset clears questions, selection and both vote sets, and keeps the rotation, scores and target |
| `Sessions.Session.InitTask` | backend/src/socket/index.ts:264-280 | target id and name are filled only where empty, and the turn is cleared; the task type is kept |
| `Sessions.SessionStore.constructor` | backend/src/socket/index.ts:6-16 | the store starts with no sessions; every room keeps a session object of its own |
| `Sessions.SessionStore.JoinRoom` | backend/src/socket/index.ts:21-73 | an unknown room changes nothing; otherwise the roster is upserted; a session is created only when none exists, fresh and seeded from the updated roster; an existing session is neither replaced nor changed; the score table of the room's session is returned |
| `Sessions.SessionStore.SpinRequest` | backend/src/socket/index.ts:89-133 | without a room, a roster or a session nothing changes; otherwise the drawn entry (`ChooseTarget`) becomes the target, a waiting player whenever someone waits; the bottle set grows by exactly its id; the angle is `SpinAngle` of its index; questions, selection, votes, scores and task type are unchanged |
| `Sessions.SessionStore.CoinFlipRequest` | backend/src/socket/index.ts:135-150 | heads means TRUTH and tails DARE; a session takes the type and a cleared turn, and keeps its rotation, scores and target |
| `Sessions.SessionStore.SubmitQuestion` | backend/src/socket/index.ts:152-183 | without a room or session nothing changes; otherwise one question is appended, progress is reported, at or past the threshold the drawn question's text and author are selected, below it the selection is kept; votes, scores, rotation, target and task type are unchanged |
| `Sessions.SessionStore.VoteTask` | backend/src/socket/index.ts:185-261 | without a room or session nothing changes; otherwise the voter is on the side of their vote and off the other, and nobody else moves; the count and result follow the tally with players - 1 required; the scores are `Award`ed to the target exactly on a complete result with a target; a result sends the score table and hands back this session for the deferred reset; questions, selection, task type, target and rotation are unchanged |
| `Sessions.SessionStore.InitTaskSession` | backend/src/socket/index.ts:263-283 | a session gets the fallback target only where its own is empty, keeps its task type, rotation and scores, and gets a cleared turn; the requested type is echoed |
| `Sessions.SessionStore.LeaveRoom` | backend/src/socket/index.ts:289-322 | an unknown room changes nothing; otherwise the roster update follows `RemovePlayer`; a deleted room loses its session and only that one; a kept room keeps all sessions |

## Left out

- Socket plumbing is not modelled: connections, `socket.join`/`socket.leave`, and the exact shapes of the emitted payloads. The handlers return the values those payloads carry.
- The room store calls (`GameRoom.findOne`, `save`, `deleteOne`) are not modelled. The room found is an input and the room to save or delete is the returned `RoomUpdate`. Store failures are logged and dropped by the source, so they are not modelled either.
- Suspension at `await` points is not modelled. Each handler is one atomic step.
- The 3-second `setTimeout` is not modelled. `VoteTask` hands back the session object it captured, and `Session.ResetTurn` is the timer body, to be run later on that object.
- `Math.random()` is replaced by parameters. Each is an index required to lie below the length the source multiplies by, or a coin side, or a boolean.
- `start_game` and `task_complete` are not modelled. They touch no session state: one marks the stored room as playing, the other only relays an event.
- Rotation.SpinAngle: computed on exact reals, so floating-point rounding of `360 / playerCount` is not modelled.
- Roster.ScoreTable: returns a map keyed by user id, so the row order of the source's array is not modelled. That order follows the insertion order of a JavaScript `Map`.
- Rotation.ChooseTarget: finds the target's roster index by comparing user ids as strings. Line 108 compares the id objects by reference. The two agree when ids on the roster are unique, which `join_room` keeps.
- Domain.Excluding: the order of the kept entries is stated only for the first one (`ExcludingFirst`), which is the one the leave handler's host rule reads. How many times each entry is kept is stated by `ExcludingCounts`.
- Where the handlers differ from the intended behaviour, the model follows the handlers:
  - `submit_question` re-selects a question on every submission at or past the threshold, because there is no "already selected" guard.
  - A player joining a room whose session already exists gets no zero-score entry. Scores are seeded only when the session is created.
  - The deferred reset has no per-turn counter that it could compare before clearing, so it clears whatever turn the session is in when it fires.
  - `init_task_session` never takes the client's task type, because the session's type is never empty.
  - `leave_room` leaves a departed player's vote in the vote sets, and `vote_task` does not check the voter against the roster, so the sets can hold more votes than the roster has members. Complete's early majority is then checked first (`Tally.CompleteMajorityCheckedFirst`).
