/**
 * The stored waitlist of server.js: a collection of QueueItem documents
 * {username, position}, kept in storage order, whose positions the handlers
 * keep numbered 1..N. This module holds the entries, the queries the handlers
 * run against them (findOne by name, the lowest and highest position, the
 * snapshot sorted by position) and the facts about the reindexing updates.
 */
module QueueModel {

  /** One QueueItem document. */
  datatype QueueItem = QueueItem(username: string, position: int)

  /** The handlers' invariant on positions: each lies in 1..N and no two coincide. */
  predicate Contiguous(items: seq<QueueItem>) {
    && (forall i :: 0 <= i < |items| ==> 1 <= items[i].position <= |items|)
    && (forall i, j :: 0 <= i < j < |items| ==> items[i].position != items[j].position)
  }

  /** No username is queued twice. */
  predicate UniqueNames(items: seq<QueueItem>) {
    forall i, j :: 0 <= i < j < |items| ==> items[i].username != items[j].username
  }

  /** The waitlist invariant: contiguous positions and unique usernames. */
  predicate Consistent(items: seq<QueueItem>) {
    Contiguous(items) && UniqueNames(items)
  }

  /** Some entry carries `username`. */
  predicate Queued(items: seq<QueueItem>, username: string) {
    exists i :: 0 <= i < |items| && items[i].username == username
  }

  /** The set of positions held by the entries. */
  function Positions(items: seq<QueueItem>): set<int> {
    set i | 0 <= i < |items| :: items[i].position
  }

  /** The positions 1..n. */
  function Slots(n: nat): (slots: set<int>)
    ensures forall k :: k in slots <==> 1 <= k <= n
  {
    if n == 0 then {} else Slots(n - 1) + {n}
  }

  // ---------------------------------------------------------------------------
  // Queries
  // ---------------------------------------------------------------------------

  /** `findOne({username})`: the index of the first entry named `username`, or |items| when none is. */
  function FindByName(items: seq<QueueItem>, username: string): (i: nat)
    ensures i <= |items|
    ensures i < |items| ==> items[i].username == username
    ensures i == |items| <==> !Queued(items, username)
  {
    if items == [] then 0
    else if items[0].username == username then 0
    else
      var rest := FindByName(items[1..], username);
      assert forall j :: 1 <= j < |items| ==> items[j] == items[1..][j - 1];
      1 + rest
  }

  /** The index of the first entry holding position `p`, or |items| when none does. */
  function IndexAt(items: seq<QueueItem>, p: int): (i: nat)
    ensures i <= |items|
    ensures i < |items| ==> items[i].position == p
    ensures forall j :: 0 <= j < i ==> items[j].position != p
  {
    if items == [] then 0
    else if items[0].position == p then 0
    else 1 + IndexAt(items[1..], p)
  }

  /** `findOne().sort({position: 1})`: an entry with the lowest position. */
  function TopIndex(items: seq<QueueItem>): (i: nat)
    requires items != []
    ensures i < |items|
    ensures forall j :: 0 <= j < |items| ==> items[i].position <= items[j].position
  {
    if |items| == 1 then 0
    else
      var k := 1 + TopIndex(items[1..]);
      if items[0].position <= items[k].position then 0 else k
  }

  /** `findOne().sort({position: -1})`: an entry with the highest position. */
  function LastIndex(items: seq<QueueItem>): (i: nat)
    requires items != []
    ensures i < |items|
    ensures forall j :: 0 <= j < |items| ==> items[j].position <= items[i].position
  {
    if |items| == 1 then 0
    else
      var k := 1 + LastIndex(items[1..]);
      if items[0].position >= items[k].position then 0 else k
  }

  /** The position of a queued user. */
  function PositionOf(items: seq<QueueItem>, username: string): int
    requires Queued(items, username)
  {
    items[FindByName(items, username)].position
  }

  // ---------------------------------------------------------------------------
  // Contiguity: positions are exactly 1..N
  // ---------------------------------------------------------------------------

  lemma {:induction false} SlotsSize(n: nat)
    ensures |Slots(n)| == n
  {
    if n > 0 {
      SlotsSize(n - 1);
    }
  }

  lemma {:induction false} PositionsSize(items: seq<QueueItem>)
    requires forall i, j :: 0 <= i < j < |items| ==> items[i].position != items[j].position
    ensures |Positions(items)| == |items|
  {
    if items != [] {
      var init := items[..|items| - 1];
      PositionsSize(init);
      assert Positions(items) == Positions(init) + {items[|items| - 1].position};
      assert items[|items| - 1].position !in Positions(init);
    }
  }

  /** Pigeonhole: with N distinct positions in 1..N, every slot 1..N is occupied. */
  lemma PositionsAreSlots(items: seq<QueueItem>)
    requires Contiguous(items)
    ensures Positions(items) == Slots(|items|)
  {
    var held, slots := Positions(items), Slots(|items|);
    PositionsSize(items);
    SlotsSize(|items|);
    assert held <= slots;
    assert slots == held + (slots - held);
    assert held * (slots - held) == {};
    assert |slots - held| == 0;
  }

  /** Every slot 1..N of a contiguous waitlist is held by some entry. */
  lemma PositionTaken(items: seq<QueueItem>, p: int)
    requires Contiguous(items)
    requires 1 <= p <= |items|
    ensures IndexAt(items, p) < |items|
  {
    PositionsAreSlots(items);
    assert p in Slots(|items|);
    var i :| 0 <= i < |items| && items[i].position == p;
  }

  /** The entry at position 1 is the one the lowest-position query finds. */
  lemma TopIsFirst(items: seq<QueueItem>)
    requires Contiguous(items) && items != []
    ensures items[TopIndex(items)].position == 1
  {
    PositionTaken(items, 1);
  }

  /** The entry with the highest position sits at position N. */
  lemma LastIsLength(items: seq<QueueItem>)
    requires Contiguous(items) && items != []
    ensures items[LastIndex(items)].position == |items|
  {
    PositionTaken(items, |items|);
  }

  // ---------------------------------------------------------------------------
  // Snapshot: GET /queue
  // ---------------------------------------------------------------------------

  /** The username at position `p`. */
  function NameAt(items: seq<QueueItem>, p: int): (name: string)
    requires Contiguous(items) && 1 <= p <= |items|
    ensures forall i :: 0 <= i < |items| && items[i].position == p ==> name == items[i].username
  {
    PositionTaken(items, p);
    items[IndexAt(items, p)].username
  }

  /**
   * `find().sort({position: 1})` mapped to usernames: slot k of the snapshot
   * names the entry at position k + 1.
   */
  function Snapshot(items: seq<QueueItem>): (names: seq<string>)
    requires Contiguous(items)
    ensures |names| == |items|
    ensures forall i :: 0 <= i < |items| ==> names[items[i].position - 1] == items[i].username
  {
    seq(|items|, k requires 0 <= k < |items| => NameAt(items, k + 1))
  }

  /** The snapshot is the only list that puts every entry at its own position. */
  lemma SnapshotUnique(items: seq<QueueItem>, names: seq<string>)
    requires Contiguous(items)
    requires |names| == |items|
    requires forall i :: 0 <= i < |items| ==> names[items[i].position - 1] == items[i].username
    ensures names == Snapshot(items)
  {
    forall k | 0 <= k < |items|
      ensures names[k] == Snapshot(items)[k]
    {
      PositionTaken(items, k + 1);
    }
  }

  /** A user is listed in the snapshot exactly when the user is queued, at the slot of its position. */
  lemma ListedIffQueued(items: seq<QueueItem>, username: string)
    requires Contiguous(items)
    ensures username in Snapshot(items) <==> Queued(items, username)
    ensures Queued(items, username) ==> Snapshot(items)[PositionOf(items, username) - 1] == username
  {
    if username in Snapshot(items) {
      var k :| 0 <= k < |items| && Snapshot(items)[k] == username;
      PositionTaken(items, k + 1);
      var i := IndexAt(items, k + 1);
      assert items[i].username == username;
    }
  }

  /** With unique usernames the snapshot lists nobody twice. */
  lemma SnapshotDistinct(items: seq<QueueItem>)
    requires Consistent(items)
    ensures forall k, m :: 0 <= k < m < |items| ==> Snapshot(items)[k] != Snapshot(items)[m]
  {
    forall k, m | 0 <= k < m < |items|
      ensures Snapshot(items)[k] != Snapshot(items)[m]
    {
      PositionTaken(items, k + 1);
      PositionTaken(items, m + 1);
    }
  }

  /** `find().sort({position: 1}).limit(n)` mapped to usernames. */
  function Top(items: seq<QueueItem>, n: nat): (names: seq<string>)
    requires Contiguous(items)
    ensures |names| == if n < |items| then n else |items|
  {
    if n < |items| then Snapshot(items)[..n] else Snapshot(items)
  }

  /** The first n of the snapshot are exactly the entries at positions 1..n. */
  lemma TopAreLowestPositions(items: seq<QueueItem>, n: nat)
    requires Consistent(items)
    ensures forall i :: 0 <= i < |items| ==> (items[i].username in Top(items, n) <==> items[i].position <= n)
  {
    var names := Snapshot(items);
    forall i | 0 <= i < |items|
      ensures items[i].username in Top(items, n) <==> items[i].position <= n
    {
      var p := items[i].position;
      if p <= n {
        assert Top(items, n)[p - 1] == items[i].username;
      }
      if items[i].username in Top(items, n) {
        var k :| 0 <= k < |Top(items, n)| && Top(items, n)[k] == items[i].username;
        SnapshotDistinct(items);
        assert names[k] == names[p - 1];
      }
    }
  }

  // ---------------------------------------------------------------------------
  // The reindexing updates and their effect
  // ---------------------------------------------------------------------------

  /** The entries without the one at index d (a delete by id). */
  function Without(items: seq<QueueItem>, d: nat): seq<QueueItem>
    requires d < |items|
  {
    items[..d] + items[d + 1..]
  }

  /** One entry under `updateMany({position: {$gt: p}}, {$inc: {position: -1}})`. */
  function Lowered(item: QueueItem, p: int): QueueItem {
    if item.position > p then item.(position := item.position - 1) else item
  }

  /** One entry under `updateMany({position: {$gte: p}}, {$inc: {position: 1}})`. */
  function Raised(item: QueueItem, p: int): QueueItem {
    if item.position >= p then item.(position := item.position + 1) else item
  }

  /** Every entry under the decrementing update above position p. */
  function DecrementedAbove(items: seq<QueueItem>, p: int): (r: seq<QueueItem>)
    ensures |r| == |items|
  {
    seq(|items|, i requires 0 <= i < |items| => Lowered(items[i], p))
  }

  /** Every entry under the incrementing update from position p on. */
  function IncrementedFrom(items: seq<QueueItem>, p: int): (r: seq<QueueItem>)
    ensures |r| == |items|
  {
    seq(|items|, i requires 0 <= i < |items| => Raised(items[i], p))
  }

  /** Deleting the entry at index d and closing the gap above its position keeps positions contiguous. */
  lemma RemovalKeepsContiguous(items: seq<QueueItem>, d: nat)
    requires Consistent(items) && d < |items|
    ensures forall j :: 0 <= j < |items| - 1 ==>
      DecrementedAbove(Without(items, d), items[d].position)[j]
        == Lowered(items[if j < d then j else j + 1], items[d].position)
    ensures Consistent(DecrementedAbove(Without(items, d), items[d].position))
  {
    var p := items[d].position;
    var rest := Without(items, d);
    var after := DecrementedAbove(rest, p);
    assert forall j :: 0 <= j < |rest| ==> rest[j] == items[if j < d then j else j + 1];
    forall j | 0 <= j < |after|
      ensures 1 <= after[j].position <= |after|
    {
      var i := if j < d then j else j + 1;
      assert items[i].position != p;
    }
    forall j, k | 0 <= j < k < |after|
      ensures after[j].position != after[k].position && after[j].username != after[k].username
    {
      var i, m := if j < d then j else j + 1, if k < d then k else k + 1;
      assert i < m;
      assert items[i].position != p && items[m].position != p;
    }
  }

  /**
   * Deleting the entry at index d and closing the gap above its position keeps
   * the waitlist consistent, drops that user from the snapshot and keeps the
   * order of everybody else.
   */
  lemma RemovalKeepsOrder(items: seq<QueueItem>, d: nat)
    requires Consistent(items) && d < |items|
    ensures Consistent(DecrementedAbove(Without(items, d), items[d].position))
    ensures !Queued(DecrementedAbove(Without(items, d), items[d].position), items[d].username)
    ensures Snapshot(DecrementedAbove(Without(items, d), items[d].position))
         == Snapshot(items)[..items[d].position - 1] + Snapshot(items)[items[d].position..]
  {
    var p := items[d].position;
    var after := DecrementedAbove(Without(items, d), p);
    RemovalKeepsContiguous(items, d);
    var old_names := Snapshot(items);
    var names := old_names[..p - 1] + old_names[p..];
    forall j | 0 <= j < |after|
      ensures names[after[j].position - 1] == after[j].username
      ensures after[j].username != items[d].username
    {
      var i := if j < d then j else j + 1;
      assert old_names[items[i].position - 1] == items[i].username;
      assert items[i].position != p;
    }
    SnapshotUnique(after, names);
  }

  /** Raising every entry at or after position p and placing a new user at p keeps the waitlist consistent. */
  lemma InsertionKeepsContiguous(items: seq<QueueItem>, username: string, p: int)
    requires Consistent(items) && !Queued(items, username)
    requires 1 <= p <= |items| + 1
    ensures forall j :: 0 <= j < |items| ==>
      (IncrementedFrom(items, p) + [QueueItem(username, p)])[j] == Raised(items[j], p)
    ensures Consistent(IncrementedFrom(items, p) + [QueueItem(username, p)])
  {
    var after := IncrementedFrom(items, p) + [QueueItem(username, p)];
    assert forall j :: 0 <= j < |items| ==> after[j] == Raised(items[j], p);
    forall j, k | 0 <= j < k < |after|
      ensures after[j].position != after[k].position && after[j].username != after[k].username
    {
      if k == |items| {
        assert after[k] == QueueItem(username, p);
        assert items[j].username != username;
      }
    }
  }

  /**
   * Raising every entry at or after position p and placing a new user at p
   * keeps the waitlist consistent and inserts that user into the snapshot at
   * slot p - 1.
   */
  lemma InsertionKeepsOrder(items: seq<QueueItem>, username: string, p: int)
    requires Consistent(items) && !Queued(items, username)
    requires 1 <= p <= |items| + 1
    ensures Consistent(IncrementedFrom(items, p) + [QueueItem(username, p)])
    ensures Snapshot(IncrementedFrom(items, p) + [QueueItem(username, p)])
         == Snapshot(items)[..p - 1] + [username] + Snapshot(items)[p - 1..]
  {
    var after := IncrementedFrom(items, p) + [QueueItem(username, p)];
    InsertionKeepsContiguous(items, username, p);
    var old_names := Snapshot(items);
    var names := old_names[..p - 1] + [username] + old_names[p - 1..];
    forall j | 0 <= j < |after|
      ensures names[after[j].position - 1] == after[j].username
    {
      if j < |items| {
        assert old_names[items[j].position - 1] == items[j].username;
      }
    }
    SnapshotUnique(after, names);
  }

  /** Appending at position N + 1 is the insertion at the end of the line. */
  lemma AppendKeepsOrder(items: seq<QueueItem>, username: string)
    requires Consistent(items) && !Queued(items, username)
    ensures Consistent(items + [QueueItem(username, |items| + 1)])
    ensures Snapshot(items + [QueueItem(username, |items| + 1)]) == Snapshot(items) + [username]
  {
    InsertionKeepsOrder(items, username, |items| + 1);
    assert IncrementedFrom(items, |items| + 1) == items;
    assert Snapshot(items)[|items|..] == [];
    assert Snapshot(items)[..|items|] == Snapshot(items);
  }
}
