/**
 * POST /report-game: one of the two players at the table reports who won.
 * The report is validated against the first two queued users, then the
 * winner is credited a win, the loser a loss, and the loser leaves the queue.
 */
module GameReport {
  import opened Outcomes
  import opened QueueModel
  import opened QueueEngine
  import opened Ledger

  /** Why a report is refused. */
  datatype ReportError =
    | NotAtTable         // the reporter is not one of the first two queued
    | PlayersMissing     // winner or loser left empty
    | PlayersNotAtTable  // winner or loser is not one of the first two queued
    | SamePlayer         // winner and loser are the same user

  /**
   * The validation steps, in the handler's order, against the players at the
   * table. Each refusal names the first step that fails.
   */
  function CheckReport(table: seq<string>, reporter: string, winner: string, loser: string): (r: Outcome<ReportError>)
    ensures r.Pass? <==>
      reporter in table && winner != "" && loser != "" && winner in table && loser in table && winner != loser
    ensures r == Fail(NotAtTable) <==> reporter !in table
    ensures r == Fail(PlayersMissing) <==> reporter in table && (winner == "" || loser == "")
    ensures r == Fail(PlayersNotAtTable) <==>
      reporter in table && winner != "" && loser != "" && (winner !in table || loser !in table)
    ensures r == Fail(SamePlayer) <==>
      reporter in table && winner != "" && loser != "" && winner in table && loser in table && winner == loser
  {
    if reporter !in table then Fail(NotAtTable)
    else if winner == "" || loser == "" then Fail(PlayersMissing)
    else if winner !in table || loser !in table then Fail(PlayersNotAtTable)
    else if winner == loser then Fail(SamePlayer)
    else Pass
  }

  /**
   * An accepted report names both players at a full table, one as winner and
   * the other as loser, and the reporter is one of them.
   */
  lemma AcceptedReportSeatsBoth(table: seq<string>, reporter: string, winner: string, loser: string)
    requires |table| <= 2
    requires CheckReport(table, reporter, winner, loser).Pass?
    ensures |table| == 2
    ensures (table[0] == winner && table[1] == loser) || (table[0] == loser && table[1] == winner)
    ensures reporter == winner || reporter == loser
  {
    assert table == [table[0], table[1]];
  }

  /**
   * The converse: at a full table of two different, named players, a report by
   * either of them naming one as winner and the other as loser is accepted.
   */
  lemma SeatedReportAccepted(table: seq<string>, reporter: string, winner: string, loser: string)
    requires |table| == 2 && table[0] != table[1] && table[0] != "" && table[1] != ""
    requires (table[0] == winner && table[1] == loser) || (table[0] == loser && table[1] == winner)
    requires reporter == winner || reporter == loser
    ensures CheckReport(table, reporter, winner, loser) == Pass
  {
  }

  /** With at most one user queued, no report can be accepted. */
  lemma LoneUserCannotReport(items: seq<QueueItem>, reporter: string, winner: string, loser: string)
    requires Contiguous(items) && |items| <= 1
    ensures CheckReport(Top(items, 2), reporter, winner, loser).Fail?
  {
  }

  /**
   * Removing the loser of a game between the two users at the table leaves
   * the winner first and everyone else in their old order.
   */
  lemma LoserLeavesWinnerFirst(items: seq<QueueItem>, winner: string, loser: string)
    requires Consistent(items) && |Top(items, 2)| == 2
    requires var table := Top(items, 2);
      (table[0] == winner && table[1] == loser) || (table[0] == loser && table[1] == winner)
    ensures Queued(items, loser)
    ensures var p := PositionOf(items, loser);
      Snapshot(items)[..p - 1] + Snapshot(items)[p..] == [winner] + Snapshot(items)[2..]
  {
    var names := Snapshot(items);
    assert loser in names;
    ListedIffQueued(items, loser);
    SnapshotDistinct(items);
    var p := PositionOf(items, loser);
    assert names[p - 1] == loser;
    if names[0] == loser {
      assert p == 1;
    } else {
      assert p == 2;
    }
  }

  /**
   * POST /report-game, as one atomic step. A refused report changes nothing.
   * An accepted one credits the ledger and removes the loser from the queue,
   * which leaves the winner at position 1.
   */
  method ReportGame(queue: Waitlist, users: Users, reporter: string, winner: string, loser: string)
    returns (r: Outcome<ReportError>)
    requires queue.Valid() && users.Valid()
    modifies queue, users
    ensures queue.Valid() && users.Valid()
    ensures r == CheckReport(old(Top(queue.items, 2)), reporter, winner, loser)
    ensures r.Fail? ==> queue.items == old(queue.items) && users.records == old(users.records)
    ensures r.Pass? ==> winner != loser && users.records == Credit(old(users.records), winner, loser)
    ensures r.Pass? ==> !Queued(queue.items, loser)
    ensures r.Pass? ==> Snapshot(queue.items) == [winner] + old(Snapshot(queue.items))[2..]
  {
    var table := Top(queue.items, 2);
    r := CheckReport(table, reporter, winner, loser);
    if r.Fail? {
      return;
    }
    AcceptedReportSeatsBoth(table, reporter, winner, loser);
    LoserLeavesWinnerFirst(queue.items, winner, loser);
    ListedIffQueued(queue.items, loser);

    users.RecordWin(winner);
    users.RecordLoss(loser);

    var removed := queue.RemoveByName(loser);
  }
}
