# PoolBot waitlist and game reports — a Dafny model

PoolBot's `server.js` runs the waitlist for a single pool table. Users join a line. The two users at its front are at the table. After a game, one of them reports the result: the winner is credited a win, the loser a loss, and the loser leaves the line. This project models that core in Dafny and proves what the handlers promise:

- **Queue engine** (`queue_model.dfy`, `queue_engine.dfy`). The stored QueueItem documents are `{username, position}`, kept in storage order, with positions as fields. The class `QueueEngine.Waitlist` owns that collection and has one method per handler:
  - `/add`, `/admin/remove`, `/admin/clear`, `/admin/remove-top` and `/admin/add-at-position`;
  - the `updateMany` reindexing steps, written as loops that shift positions by ±1.

  The invariant `Consistent` says three things: every position lies in 1..N, no two entries share a position, and no two share a username. By pigeonhole the positions are then exactly {1..N} (`PositionsAreSlots`). `Snapshot` (GET `/queue`) lists the usernames in position order. Every handler's new snapshot is stated in terms of the old one.
- **User ledger and registration** (`ledger.dfy`). Each user record holds wins, losses and the stored win ratio. Ratios are exact reals. The class `Ledger.Users` keeps the invariant that every stored ratio equals wins / games, or 0 before any game. The file also has the registration input checks and the win and loss updates a report applies.
- **Game report** (`game.dfy`). The four validation steps run in the handler's order against the first two queued users. Then the ledger is credited and the loser is removed from the queue.
- **Leaderboard** (`leaderboard.dfy`). Every user's statistics, ranked by win ratio and then by wins. The order among users equal on both keys is left open.
- `scenarios.dfy` holds client proofs. They derive, from the contracts alone, what a caller sees for a few concrete queues. `outcomes.dfy` holds the success/failure datatypes.

The caller of a handler is a plain username argument. Each handler is one atomic step over in-memory state.

Notes on what the handlers do:

- The code checks "winner ≠ loser" last, after checking that both players are at the table (server.js:242-244).
- The code refuses a bad position with two different messages: not an integer or below 1 (server.js:190-192), and beyond N + 1 (server.js:200-202). The model has two error kinds for these.
- Remove-top removes the entry with the lowest position (server.js:171). Under the invariant that entry is at position 1 (`TopIsFirst`).

## Model

| member | source | states |
|---|---|---|
| QueueModel.FindByName | server.js:134 | `findOne({username})`: the index returned holds that username, and it equals N exactly when nobody of that name is queued |
| QueueModel.TopIndex | server.js:171 | `findOne().sort({position: 1})`: the entry returned has a position no greater than any other entry's |
| QueueModel.LastIndex | server.js:139 | `findOne().sort({position: -1})`: the entry returned has a position no smaller than any other entry's |
| QueueModel.PositionsAreSlots | server.js:28-31 | under the invariant, the set of positions is exactly {1..N} |
| QueueModel.PositionTaken | server.js:28-31 | under the invariant, every slot 1..N is held by some entry |
| QueueModel.TopIsFirst | server.js:171 | under the invariant, the lowest-position entry sits at position 1 |
| QueueModel.LastIsLength | server.js:139-140 | under the invariant, the highest position is N, so a new entry goes to N + 1 |
| QueueModel.Snapshot | server.js:126-127 | GET /queue: one username per entry, each at the slot of its position (ascending position order) |
| QueueModel.SnapshotUnique | server.js:126-127 | the snapshot is the only list that puts every entry at its own position |
| QueueModel.ListedIffQueued | server.js:126-127 | a user is in the snapshot iff the user has an entry, and is listed at that entry's position |
| QueueModel.SnapshotDistinct | server.js:126-127 | no username appears twice in the snapshot |
| QueueModel.Top | server.js:227-228 | `limit(2)`: the first min(n, N) usernames in position order |
| QueueModel.TopAreLowestPositions | server.js:227-228 | an entry is among the top n iff its position is at most n |
| QueueModel.Lowered | server.js:153-156 | one entry under `{$gt: p}` / `$inc: -1`: its position drops by one exactly when it is above p |
| QueueModel.Raised | server.js:205-208 | one entry under `{$gte: p}` / `$inc: 1`: its position rises by one exactly when it is at p or above |
| QueueModel.DecrementedAbove | server.js:153-156 | the whole collection after the decrementing `updateMany`: same length, each entry lowered in place |
| QueueModel.IncrementedFrom | server.js:205-208 | the whole collection after the incrementing `updateMany`: same length, each entry raised in place |
| QueueModel.RemovalKeepsContiguous | server.js:150-156 | deleting one entry and decrementing every greater position keeps the invariant |
| QueueModel.RemovalKeepsOrder | server.js:150-156 | after that deletion the removed user is no longer queued, and the snapshot is the old one without that user's slot |
| QueueModel.InsertionKeepsContiguous | server.js:205-211 | incrementing every position ≥ p, then placing a new user at p, keeps the invariant |
| QueueModel.InsertionKeepsOrder | server.js:205-211 | after that insertion the new user is at slot p - 1 of the snapshot, and everyone else keeps their order |
| QueueModel.AppendKeepsOrder | server.js:139-143 | appending a new user at position N + 1 keeps the invariant and extends the snapshot by that user |
| QueueEngine.IsInteger | server.js:190 | `Number.isInteger`: the number equals its floor |
| QueueEngine.Waitlist.DecrementAbove | server.js:153-156 | `updateMany({$gt: p}, {$inc: -1})`: exactly the entries above p drop by one; nothing else changes |
| QueueEngine.Waitlist.IncrementFrom | server.js:205-208 | `updateMany({$gte: p}, {$inc: 1})`: exactly the entries at p or above rise by one; nothing else changes |
| QueueEngine.Waitlist.Enqueue | server.js:131-145 | refused (AlreadyQueued), with no change, iff the user is queued; otherwise appended at position N + 1 (1 when empty), and the snapshot gains the user at its end |
| QueueEngine.Waitlist.DeleteAt | server.js:150-156 | deletes one entry and closes the gap: the invariant holds, and the snapshot loses exactly that slot |
| QueueEngine.Waitlist.RemoveByName | server.js:148-161 | refused (NotQueued), with no change, iff the user is absent; otherwise the user is gone, greater positions drop by one, and the snapshot loses exactly the user's slot |
| QueueEngine.Waitlist.Clear | server.js:164-167 | the queue is empty afterwards |
| QueueEngine.Waitlist.RemoveTop | server.js:170-184 | refused (QueueEmpty), with no change, iff the queue is empty; otherwise returns the first username, and the snapshot becomes the rest in order |
| QueueEngine.Waitlist.InsertAtPosition | server.js:187-213 | InvalidPosition iff the position is not an integer or is < 1; then AlreadyQueued iff the user is queued; then PositionOutOfBounds iff the position is > N + 1; each refusal leaves the queue unchanged. Otherwise entries at ≥ p rise by one, the user sits at p, and the invariant holds |
| Ledger.NewUser | server.js:20-22 | the schema defaults: 0 wins, 0 losses, and a stored ratio of 0, which is consistent with no games played |
| Ledger.Ratio | server.js:250 | wins / (wins + losses) lies in [0, 1]; it is 1 iff there are no losses and 0 iff there are no wins |
| Ledger.AfterWin | server.js:249-250 | `wins += 1`, then the ratio recomputed from the new counts |
| Ledger.AfterLoss | server.js:257-258 | `losses += 1`, then the ratio recomputed from the new counts |
| Ledger.UpdatesRestoreConsistency | server.js:249-258 | a counted win adds exactly one win, a counted loss exactly one loss, and either leaves the stored ratio equal to wins / games |
| Ledger.RatioMoves | server.js:249-258 | for a consistent record, a win never lowers the ratio and a loss never raises it |
| Ledger.Credit | server.js:246-260 | a reported game gives the winner +1 win and the loser +1 loss, each with a recomputed ratio; a side with no record is skipped, and every other record is unchanged |
| Ledger.CreditKeepsRatios | server.js:246-260 | if every stored ratio equals wins / games before a report, this still holds after it |
| Ledger.LowerChar | server.js:80 | `toLowerCase` on one character: capitals A-Z become a-z, every other character is kept |
| Ledger.Lower | server.js:80 | `toLowerCase` on a name: same length, each character lower-cased |
| Ledger.ReservedOnlyForAdminSpellings | server.js:80 | a name lower-cases to "admin" iff it has five letters, each the small or capital letter of "admin" |
| Ledger.CheckRegistration | server.js:80-90 | accepted iff the name does not lower-case to "admin", has at least 3 characters, and the password has at least 6; otherwise the first failing check, in that order, names the error (NameReserved, NameTooShort, PasswordTooShort) |
| Ledger.AdminRefusedInAnyCase | server.js:80-82 | every upper/lower-case spelling of "admin" is refused as reserved |
| Ledger.Users.Register | server.js:77-103 | keeps every stored ratio consistent; input refusals change nothing; an existing name is refused (NameTaken); otherwise a record with 0 wins, 0 losses and ratio 0 is added |
| Ledger.Users.RecordWin | server.js:247-252 | keeps every stored ratio consistent; the winner's record is replaced by its counted win; a missing record is skipped |
| Ledger.Users.RecordLoss | server.js:255-260 | keeps every stored ratio consistent; the loser's record is replaced by its counted loss; a missing record is skipped |
| Leaderboard.RanksAbove | server.js:278 | the sort key `{winRatio: -1, wins: -1}`: a row may come first when its ratio is higher, or equal with at least as many wins |
| Leaderboard.Ranked | server.js:278 | every row may come before every later row under that key |
| Leaderboard.Insert | server.js:278 | inserting into a ranked board keeps it ranked (win ratio descending, then wins descending) and adds exactly that row |
| Leaderboard.Ranking | server.js:278 | the rows of a set of users: ranked, one per user, each with that user's statistics |
| Leaderboard.Board | server.js:278 | GET /leaderboard: a ranked permutation of all users' rows |
| Leaderboard.BoardNamesDistinct | server.js:278 | no user appears twice on the leaderboard |
| GameReport.CheckReport | server.js:226-244 | accepted iff the reporter is at the table, both names are non-empty, both are at the table, and they differ; otherwise the first failing step, in that order, names the error (NotAtTable, PlayersMissing, PlayersNotAtTable, SamePlayer) |
| GameReport.AcceptedReportSeatsBoth | server.js:227-244 | an accepted report needs two users at the table: the winner and the loser are exactly those two, and the reporter is one of them |
| GameReport.SeatedReportAccepted | server.js:226-246 | at a full table of two different, named players, a report by either of them naming one as winner and the other as loser is accepted |
| GameReport.LoneUserCannotReport | server.js:227-244 | with at most one user queued, every report is refused |
| GameReport.LoserLeavesWinnerFirst | server.js:262-270 | removing the loser of a table game leaves the winner at position 1, and everyone else keeps their order |
| GameReport.ReportGame | server.js:222-274 | the verdict is the validation result on the old top two; a refusal changes neither the ledger nor the queue; an accepted report credits the ledger, every stored ratio stays consistent, the loser is no longer queued, and the line becomes the winner followed by the old positions 3..N |

## Left out

- Express routing, status codes, response messages, static files and `app.listen` (server.js:2-4, 39-42, 294-296). Failures are error values instead.
- JWT signing and verification, and the `authenticateToken`/`authenticateAdmin` middleware (server.js:44-74). These are library calls. The caller is a plain username argument. The admin-only handlers assume an authorised caller.
- bcrypt hashing, the stored password and the login flow (server.js:92, 105-122). These are library calls, so Register does not keep the password.
- The MongoDB connection and the `await` sequencing (server.js:12-14). Each handler is one atomic step, and concurrent requests are not modelled.
- IEEE doubles: win ratios are exact reals.
- GET /admin/users and GET /profile (server.js:216-219, 283-290). They are plain reads with no logic.
- Database errors on save other than the duplicate username (server.js:99-100). They belong to the store.
- QueueModel.Snapshot: defined only on queues whose positions are 1..N. The waitlist keeps every queue that way, but Mongo's sort would also order a queue with gaps.
- QueueEngine.Waitlist.InsertAtPosition: the position is taken as a number, so a non-numeric request field is not modelled. `Number.isInteger` rejects one in the same way as a fraction.
- Ledger.LowerChar, Ledger.Lower: fold ASCII letters only, not full Unicode `toLowerCase`. Only ASCII letters can lower-case to "admin".
- Ledger.CheckRegistration: lengths count characters, not UTF-16 code units. A missing username, which makes `toLowerCase` throw (server.js:80), is not modelled.
- GameReport.CheckReport: a missing or null winner or loser is modelled as the empty string, which JavaScript treats as false in the same way.
- GameReport.ReportGame: the loser is removed with the same steps as remove-by-name (server.js:263-270 repeat server.js:150-156). The handler skips that removal when the loser has no entry, but validation makes that case unreachable.
- Leaderboard.Board: a ghost function. It fixes no tie order beyond the two sort keys, because that order is the database's.
