/**
 * The User documents of server.js as far as the core uses them: per-user win
 * and loss counts and the stored win ratio, the registration checks that
 * create a record, and the updates a reported game applies.
 */
module Ledger {
  import opened Outcomes

  /** The statistics part of a User document (the password hash is not modelled). */
  datatype UserRecord = UserRecord(wins: nat, losses: nat, winRatio: real)

  /** A freshly registered user: the schema defaults wins 0, losses 0, winRatio 0. */
  function NewUser(): (r: UserRecord)
    ensures r.wins == 0 && r.losses == 0
    ensures RatioConsistent(r)
  {
    UserRecord(0, 0, 0.0)
  }

  /** wins / (wins + losses), computed only after a game has been counted. */
  function Ratio(wins: nat, losses: nat): (r: real)
    requires wins + losses > 0
    ensures 0.0 <= r <= 1.0
    ensures r * (wins + losses) as real == wins as real
    ensures r == 1.0 <==> losses == 0
    ensures r == 0.0 <==> wins == 0
  {
    QuotientBounds(wins as real, (wins + losses) as real);
    wins as real / (wins + losses) as real
  }

  /** The quotient of 0 <= a <= b by b > 0 lies in [0, 1], and hits each end exactly when a does. */
  lemma QuotientBounds(a: real, b: real)
    requires 0.0 <= a <= b && b > 0.0
    ensures (a / b) * b == a
    ensures 0.0 <= a / b <= 1.0
    ensures a / b == 1.0 <==> a == b
    ensures a / b == 0.0 <==> a == 0.0
  {
    var q := a / b;
    assert q * b == a;
    PositiveFactor(q, b);
    assert (1.0 - q) * b == b - a;
    PositiveFactor(1.0 - q, b);
  }

  /** The stored ratio agrees with the counts: wins / games, or the default 0 before any game. */
  predicate RatioConsistent(rec: UserRecord) {
    rec.winRatio == if rec.wins + rec.losses == 0 then 0.0 else Ratio(rec.wins, rec.losses)
  }

  /** Every record's stored ratio agrees with its counts. */
  predicate AllConsistent(records: map<string, UserRecord>) {
    forall u :: u in records ==> RatioConsistent(records[u])
  }

  /** `wins += 1` followed by the ratio recomputation. */
  function AfterWin(rec: UserRecord): UserRecord {
    rec.(wins := rec.wins + 1, winRatio := Ratio(rec.wins + 1, rec.losses))
  }

  /** `losses += 1` followed by the ratio recomputation. */
  function AfterLoss(rec: UserRecord): UserRecord {
    rec.(losses := rec.losses + 1, winRatio := Ratio(rec.wins, rec.losses + 1))
  }

  /** A counted win or loss leaves the record consistent, whatever ratio it held before. */
  lemma UpdatesRestoreConsistency(rec: UserRecord)
    ensures RatioConsistent(AfterWin(rec)) && RatioConsistent(AfterLoss(rec))
    ensures AfterWin(rec).wins == rec.wins + 1 && AfterWin(rec).losses == rec.losses
    ensures AfterLoss(rec).losses == rec.losses + 1 && AfterLoss(rec).wins == rec.wins
  {
  }

  /** A win never lowers a consistent ratio and a loss never raises it. */
  lemma RatioMoves(rec: UserRecord)
    requires RatioConsistent(rec)
    ensures AfterWin(rec).winRatio >= rec.winRatio
    ensures AfterLoss(rec).winRatio <= rec.winRatio
  {
    if rec.wins + rec.losses > 0 {
      var w, l := rec.wins as real, rec.losses as real;
      assert (rec.wins + rec.losses) as real == w + l;
      assert (rec.wins + 1 + rec.losses) as real == w + l + 1.0;
      assert (rec.wins + (rec.losses + 1)) as real == w + l + 1.0;
      WinDoesNotLower(w, l, rec.winRatio, AfterWin(rec).winRatio);
      LossDoesNotRaise(w, l, rec.winRatio, AfterLoss(rec).winRatio);
    }
  }

  /** x = w/(w+l) and y = (w+1)/(w+l+1) give x <= y. */
  lemma WinDoesNotLower(w: real, l: real, x: real, y: real)
    requires w >= 0.0 && l >= 0.0 && w + l > 0.0
    requires x * (w + l) == w && y * (w + l + 1.0) == w + 1.0
    ensures x <= y
  {
    var games := w + l;
    assert (y - x) * (games * (games + 1.0)) == (y * (games + 1.0)) * games - (x * games) * (games + 1.0);
    assert (y - x) * (games * (games + 1.0)) == l;
    PositiveFactor(y - x, games * (games + 1.0));
  }

  /** x = w/(w+l) and y = w/(w+l+1) give y <= x. */
  lemma LossDoesNotRaise(w: real, l: real, x: real, y: real)
    requires w >= 0.0 && l >= 0.0 && w + l > 0.0
    requires x * (w + l) == w && y * (w + l + 1.0) == w
    ensures y <= x
  {
    var games := w + l;
    assert (x - y) * (games * (games + 1.0)) == (x * games) * (games + 1.0) - (y * (games + 1.0)) * games;
    assert (x - y) * (games * (games + 1.0)) == w;
    PositiveFactor(x - y, games * (games + 1.0));
  }

  /** A product that is not negative, with a positive factor, has a non-negative other factor. */
  lemma PositiveFactor(p: real, q: real)
    requires q > 0.0 && p * q >= 0.0
    ensures p >= 0.0
  {
  }

  /** The ledger of a reported game: a win for `winner`, a loss for `loser`, a side without a record skipped. */
  function Credit(users: map<string, UserRecord>, winner: string, loser: string): (r: map<string, UserRecord>)
    requires winner != loser
    ensures r.Keys == users.Keys
    ensures winner in users ==> r[winner] == AfterWin(users[winner])
    ensures loser in users ==> r[loser] == AfterLoss(users[loser])
    ensures forall u :: u in users && u != winner && u != loser ==> r[u] == users[u]
  {
    var afterWinner := if winner in users then users[winner := AfterWin(users[winner])] else users;
    if loser in afterWinner then afterWinner[loser := AfterLoss(afterWinner[loser])] else afterWinner
  }

  /** Crediting a game keeps every stored ratio consistent with its counts. */
  lemma CreditKeepsRatios(users: map<string, UserRecord>, winner: string, loser: string)
    requires winner != loser
    requires AllConsistent(users)
    ensures AllConsistent(Credit(users, winner, loser))
  {
    var afterWinner := users;
    if winner in users {
      UpdatesRestoreConsistency(users[winner]);
      KeepsValid(users, winner, AfterWin(users[winner]));
      afterWinner := users[winner := AfterWin(users[winner])];
    }
    if loser in afterWinner {
      UpdatesRestoreConsistency(afterWinner[loser]);
      KeepsValid(afterWinner, loser, AfterLoss(afterWinner[loser]));
    }
  }

  // ---------------------------------------------------------------------------
  // Registration checks
  // ---------------------------------------------------------------------------

  /** Why a registration is refused. */
  datatype RegisterError =
    | NameReserved      // the name is "admin" in some letter case
    | NameTooShort      // fewer than 3 characters
    | PasswordTooShort  // fewer than 6 characters
    | NameTaken         // a user of that name exists

  /** Lower-case an ASCII letter; every other character is kept. */
  function LowerChar(c: char): char {
    if 'A' <= c <= 'Z' then (c as int - 'A' as int + 'a' as int) as char else c
  }

  /** `toLowerCase`, restricted to the ASCII letters. */
  function Lower(s: string): (r: string)
    ensures |r| == |s|
    ensures forall i :: 0 <= i < |s| ==> r[i] == LowerChar(s[i])
  {
    if s == [] then [] else [LowerChar(s[0])] + Lower(s[1..])
  }

  /**
   * The input checks of POST /register, in their order: reserved name, name
   * length, password length. Each refusal names the first check that fails.
   */
  function CheckRegistration(username: string, password: string): (r: Outcome<RegisterError>)
    ensures r.Pass? <==> Lower(username) != "admin" && |username| >= 3 && |password| >= 6
    ensures r == Fail(NameReserved) <==> Lower(username) == "admin"
    ensures r == Fail(NameTooShort) <==> Lower(username) != "admin" && |username| < 3
    ensures r == Fail(PasswordTooShort) <==>
      Lower(username) != "admin" && |username| >= 3 && |password| < 6
    ensures r != Fail(NameTaken)
  {
    if Lower(username) == "admin" then Fail(NameReserved)
    else if |username| < 3 then Fail(NameTooShort)
    else if |password| < 6 then Fail(PasswordTooShort)
    else Pass
  }

  /** A small letter is the lower case of itself and of its capital, and of nothing else. */
  lemma LowerCharIs(c: char, small: char, capital: char)
    requires 'a' <= small <= 'z' && capital as int == small as int - 32
    ensures LowerChar(c) == small <==> c == small || c == capital
  {
  }

  /** The letters of "ADMIN" are the capitals of those of "admin". */
  lemma AdminLetters()
    ensures forall i :: 0 <= i < 5 ==> 'a' <= "admin"[i] <= 'z' && "ADMIN"[i] as int == "admin"[i] as int - 32
  {
    assert "admin" == ['a', 'd', 'm', 'i', 'n'];
    assert "ADMIN" == ['A', 'D', 'M', 'I', 'N'];
  }

  /** A name lower-cases to "admin" exactly when it spells "admin" in some mix of letter cases. */
  lemma ReservedOnlyForAdminSpellings(username: string)
    ensures Lower(username) == "admin" <==>
      |username| == 5 && forall i :: 0 <= i < 5 ==> username[i] == "admin"[i] || username[i] == "ADMIN"[i]
  {
    if |username| == 5 {
      AdminLetters();
      forall i | 0 <= i < 5
        ensures LowerChar(username[i]) == "admin"[i] <==> username[i] == "admin"[i] || username[i] == "ADMIN"[i]
      {
        LowerCharIs(username[i], "admin"[i], "ADMIN"[i]);
      }
      assert Lower(username) == "admin" <==> forall i :: 0 <= i < 5 ==> LowerChar(username[i]) == "admin"[i];
    }
  }

  /** Any upper/lower-case spelling of "admin" is refused as reserved. */
  lemma AdminRefusedInAnyCase(username: string, password: string)
    requires |username| == 5
    requires forall i :: 0 <= i < 5 ==> username[i] == "admin"[i] || username[i] == "ADMIN"[i]
    ensures CheckRegistration(username, password) == Fail(NameReserved)
  {
    assert Lower(username) == "admin";
  }

  /** Storing a consistent record keeps every stored ratio consistent. */
  lemma KeepsValid(records: map<string, UserRecord>, username: string, rec: UserRecord)
    requires AllConsistent(records) && RatioConsistent(rec)
    ensures AllConsistent(records[username := rec])
  {
    var updated := records[username := rec];
    forall u | u in updated
      ensures RatioConsistent(updated[u])
    {
      if u != username {
        assert updated[u] == records[u];
      }
    }
  }

  /** The User collection, updated in place by registration and by reported games. */
  class Users {
    var records: map<string, UserRecord>

    /** Every stored ratio agrees with its counts. */
    ghost predicate Valid()
      reads this
    {
      AllConsistent(records)
    }

    constructor ()
      ensures Valid() && records == map[]
    {
      records := map[];
    }

    /** POST /register: the input checks, then a new record unless the name is taken. */
    method Register(username: string, password: string) returns (r: Outcome<RegisterError>)
      requires Valid()
      modifies this
      ensures Valid()
      ensures CheckRegistration(username, password).Fail? ==>
        r == CheckRegistration(username, password) && records == old(records)
      ensures CheckRegistration(username, password).Pass? && username in old(records) ==>
        r == Fail(NameTaken) && records == old(records)
      ensures r.Pass? <==> CheckRegistration(username, password).Pass? && username !in old(records)
      ensures r.Pass? ==> records == old(records)[username := NewUser()]
    {
      r := CheckRegistration(username, password);
      if r.Fail? {
        return;
      }
      if username in records {
        return Fail(NameTaken);
      }
      KeepsValid(records, username, NewUser());
      records := records[username := NewUser()];
    }

    /** The winner's update in POST /report-game; a missing record is skipped. */
    method RecordWin(username: string)
      requires Valid()
      modifies this
      ensures Valid()
      ensures records == if username in old(records) then old(records)[username := AfterWin(old(records)[username])] else old(records)
    {
      if username in records {
        var rec := records[username];
        var wins := rec.wins + 1;
        var counted := rec.(wins := wins, winRatio := wins as real / (wins + rec.losses) as real);
        assert counted == AfterWin(rec);
        UpdatesRestoreConsistency(rec);
        KeepsValid(records, username, counted);
        records := records[username := counted];
      }
    }

    /** The loser's update in POST /report-game; a missing record is skipped. */
    method RecordLoss(username: string)
      requires Valid()
      modifies this
      ensures Valid()
      ensures records == if username in old(records) then old(records)[username := AfterLoss(old(records)[username])] else old(records)
    {
      if username in records {
        var rec := records[username];
        var losses := rec.losses + 1;
        var counted := rec.(losses := losses, winRatio := rec.wins as real / (rec.wins + losses) as real);
        assert counted == AfterLoss(rec);
        UpdatesRestoreConsistency(rec);
        KeepsValid(records, username, counted);
        records := records[username := counted];
      }
    }
  }
}
