/**
 * Client proofs over the handlers: what a caller can conclude from their
 * contracts alone, for a few concrete queues.
 */
module Scenarios {
  import opened Outcomes
  import opened QueueModel
  import opened QueueEngine
  import opened Ledger
  import opened GameReport

  /** alice, bob and carol join in that order and hold positions 1, 2 and 3. */
  method ThreeQueued() returns (q: Waitlist)
    ensures fresh(q) && q.Valid() && Snapshot(q.items) == ["alice", "bob", "carol"]
  {
    q := new Waitlist();
    var r := q.Enqueue("alice");
    assert Snapshot(q.items) == ["alice"];
    r := q.Enqueue("bob");
    assert Snapshot(q.items) == ["alice", "bob"];
    r := q.Enqueue("carol");
  }

  /** Joining twice is refused; removing the middle user closes the gap; a second removal fails. */
  method RemoveScenario() {
    var q := ThreeQueued();
    var r := q.Enqueue("bob");
    assert r == Fail(AlreadyQueued);
    r := q.RemoveByName("bob");
    assert r == Pass;
    assert Snapshot(q.items) == ["alice", "carol"];
    r := q.RemoveByName("bob");
    assert r == Fail(NotQueued) && Snapshot(q.items) == ["alice", "carol"];
  }

  /** Insertion at a valid slot shifts the rest back; bad positions are refused; remove-top drains in order. */
  method InsertScenario() {
    var q := ThreeQueued();
    var r := q.InsertAtPosition("dave", 2.0);
    assert r == Pass;
    assert Snapshot(q.items) == ["alice", "dave", "bob", "carol"];
    r := q.InsertAtPosition("erin", 6.0);
    assert r == Fail(PositionOutOfBounds);
    r := q.InsertAtPosition("erin", 1.5);
    assert r == Fail(InvalidPosition);
    var top := q.RemoveTop();
    assert top == Ok("alice") && Snapshot(q.items) == ["dave", "bob", "carol"];
    q.Clear();
    top := q.RemoveTop();
    assert top == Err(QueueEmpty);
  }

  /** "Admin" is refused as reserved and nothing is stored. */
  method AdminScenario() {
    var users := new Users();
    AdminRefusedInAnyCase("Admin", "secret3");
    var reg := users.Register("Admin", "secret3");
    assert reg == Fail(NameReserved) && users.records == map[];
  }

  /** alice and bob register. */
  method TwoUsers() returns (users: Users)
    ensures fresh(users) && users.Valid()
    ensures users.records == map["alice" := NewUser(), "bob" := NewUser()]
  {
    users := new Users();
    // "alice" is not reserved: lower-cased, its second letter is 'l', not 'd'.
    assert Lower("alice")[1] == 'l';
    var reg := users.Register("alice", "secret1");
    // "bob" is not reserved: lower-cased, it has 3 letters, not 5.
    assert |Lower("bob")| == 3;
    reg := users.Register("bob", "secret2");
  }

  /** carol, third in line, cannot report; alice beats bob, bob leaves and carol moves up to the table. */
  method ReportScenario() {
    var q := ThreeQueued();
    var users := TwoUsers();
    assert Top(q.items, 2) == ["alice", "bob"];
    var report := ReportGame(q, users, "carol", "carol", "bob");
    assert report == Fail(NotAtTable);
    report := ReportGame(q, users, "alice", "alice", "bob");
    assert report == Pass;
    assert users.records["alice"] == UserRecord(1, 0, 1.0);
    assert users.records["bob"] == UserRecord(0, 1, 0.0);
    assert Snapshot(q.items) == ["alice", "carol"];
  }
}
