/**
 * GET /leaderboard: every user's statistics, ordered by win ratio (highest
 * first), ties broken by wins (most first). The order among users equal on
 * both keys is whatever the database returns, so the model fixes none.
 */
module Leaderboard {
  import opened Ledger

  /** One row of the leaderboard. */
  datatype Standing = Standing(username: string, wins: nat, losses: nat, winRatio: real)

  /** The row shown for a user. */
  function StandingOf(users: map<string, UserRecord>, username: string): Standing
    requires username in users
  {
    var rec := users[username];
    Standing(username, rec.wins, rec.losses, rec.winRatio)
  }

  /** `sort({winRatio: -1, wins: -1})`: `a` may be listed before `b`. */
  predicate RanksAbove(a: Standing, b: Standing) {
    a.winRatio > b.winRatio || (a.winRatio == b.winRatio && a.wins >= b.wins)
  }

  /** Every row may be listed before every later row. */
  predicate Ranked(board: seq<Standing>) {
    forall i, j :: 0 <= i < j < |board| ==> RanksAbove(board[i], board[j])
  }

  /** Places `row` in a ranked board after every row that ranks above it. */
  function Insert(board: seq<Standing>, row: Standing): (r: seq<Standing>)
    requires Ranked(board)
    ensures Ranked(r)
    ensures multiset(r) == multiset(board) + multiset{row}
  {
    if board == [] then [row]
    else if RanksAbove(board[0], row) then
      var tail := Insert(board[1..], row);
      HeadRanksAboveInsert(board, row, tail);
      assert board == [board[0]] + board[1..];
      [board[0]] + tail
    else
      [row] + board
  }

  /** The first row of a ranked board ranks above everything inserted after it. */
  lemma HeadRanksAboveInsert(board: seq<Standing>, row: Standing, tail: seq<Standing>)
    requires Ranked(board) && board != [] && RanksAbove(board[0], row)
    requires Ranked(tail) && multiset(tail) == multiset(board[1..]) + multiset{row}
    ensures Ranked([board[0]] + tail)
  {
    var r := [board[0]] + tail;
    forall j | 1 <= j < |r|
      ensures RanksAbove(board[0], r[j])
    {
      var x := r[j];
      assert x == tail[j - 1];
      assert x in multiset(tail);
      if x != row {
        assert x in multiset(board[1..]);
        var k :| 0 <= k < |board| - 1 && board[1..][k] == x;
        assert board[k + 1] == x;
      }
    }
  }

  /** Inserting a row adds one to the length, and the members are the old ones plus that row. */
  lemma InsertMembers(board: seq<Standing>, row: Standing)
    requires Ranked(board)
    ensures |Insert(board, row)| == |board| + 1
    ensures forall x :: x in Insert(board, row) <==> x in board || x == row
  {
    var r := Insert(board, row);
    assert |r| == |multiset(r)|;
    forall x
      ensures x in r <==> x in board || x == row
    {
      assert x in r <==> x in multiset(r);
      assert x in board <==> x in multiset(board);
    }
  }

  /** The rows of the users named in `names`, in some ranked order. */
  ghost function Ranking(users: map<string, UserRecord>, names: set<string>): (board: seq<Standing>)
    requires names <= users.Keys
    ensures Ranked(board)
    ensures |board| == |names|
    ensures forall x :: x in board ==> x.username in names && x == StandingOf(users, x.username)
    ensures forall u :: u in names ==> StandingOf(users, u) in board
    decreases names
  {
    if names == {} then []
    else
      var u :| u in names;
      var rest := Ranking(users, names - {u});
      InsertMembers(rest, StandingOf(users, u));
      Insert(rest, StandingOf(users, u))
  }

  /**
   * The leaderboard: each user exactly once, with that user's statistics,
   * ranked by win ratio and then by wins.
   */
  ghost function Board(users: map<string, UserRecord>): (board: seq<Standing>)
    ensures Ranked(board)
    ensures |board| == |users|
    ensures forall x :: x in board ==> x.username in users && x == StandingOf(users, x.username)
    ensures forall u :: u in users ==> StandingOf(users, u) in board
  {
    Ranking(users, users.Keys)
  }

  /** The usernames on a board. */
  function NamesOf(board: seq<Standing>): set<string> {
    set x | x in board :: x.username
  }

  /** A board lists at most as many names as it has rows, and fewer when a name repeats. */
  lemma {:induction false} NamesOfSize(board: seq<Standing>)
    ensures |NamesOf(board)| <= |board|
    ensures (exists i, j :: 0 <= i < j < |board| && board[i].username == board[j].username) ==>
      |NamesOf(board)| < |board|
  {
    if board != [] {
      var last := board[|board| - 1];
      var init := board[..|board| - 1];
      NamesOfSize(init);
      assert board == init + [last];
      assert NamesOf(board) == NamesOf(init) + {last.username};
      if exists i, j :: 0 <= i < j < |board| && board[i].username == board[j].username {
        var i, j :| 0 <= i < j < |board| && board[i].username == board[j].username;
        if j == |board| - 1 {
          assert init[i] in init;
          assert NamesOf(board) == NamesOf(init);
        } else {
          assert init[i].username == init[j].username;
        }
      }
    }
  }

  /** No user appears twice on the leaderboard. */
  lemma BoardNamesDistinct(users: map<string, UserRecord>)
    ensures forall i, j :: 0 <= i < j < |Board(users)| ==> Board(users)[i].username != Board(users)[j].username
  {
    var board := Board(users);
    var names := NamesOf(board);
    assert users.Keys <= names by {
      forall u | u in users ensures u in names {
        assert StandingOf(users, u) in board;
      }
    }
    assert names == users.Keys + (names - users.Keys);
    assert users.Keys * (names - users.Keys) == {};
    assert |users.Keys| == |users|;
    NamesOfSize(board);
  }
}
