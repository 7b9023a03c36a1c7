/**
 * The queue handlers of server.js as methods of one object that owns the
 * QueueItem collection. Each method is one handler run as an atomic step; the
 * `updateMany` reindexing updates are loops over the stored entries.
 */
module QueueEngine {
  import opened Outcomes
  import opened QueueModel

  /** Why a queue request is refused. */
  datatype QueueError =
    | AlreadyQueued        // the user already has an entry
    | NotQueued            // the user to remove has no entry
    | QueueEmpty           // remove-top on an empty queue
    | InvalidPosition      // the requested position is not an integer or is below 1
    | PositionOutOfBounds  // the requested position is beyond N + 1

  /** JavaScript's `Number.isInteger` on a numeric request field. */
  predicate IsInteger(x: real) {
    x.Floor as real == x
  }

  class Waitlist {
    /** The stored QueueItem documents, in storage order. */
    var items: seq<QueueItem>

    ghost predicate Valid()
      reads this
    {
      Consistent(items)
    }

    constructor ()
      ensures Valid() && items == []
    {
      items := [];
    }

    /** `updateMany({position: {$gt: p}}, {$inc: {position: -1}})`. */
    method DecrementAbove(p: int)
      modifies this
      ensures items == DecrementedAbove(old(items), p)
    {
      var i := 0;
      while i < |items|
        invariant 0 <= i <= |items| == |old(items)|
        invariant forall j :: 0 <= j < i ==> items[j] == Lowered(old(items)[j], p)
        invariant forall j :: i <= j < |items| ==> items[j] == old(items)[j]
      {
        if items[i].position > p {
          items := items[i := items[i].(position := items[i].position - 1)];
        }
        i := i + 1;
      }
    }

    /** `updateMany({position: {$gte: p}}, {$inc: {position: 1}})`. */
    method IncrementFrom(p: int)
      modifies this
      ensures items == IncrementedFrom(old(items), p)
    {
      var i := 0;
      while i < |items|
        invariant 0 <= i <= |items| == |old(items)|
        invariant forall j :: 0 <= j < i ==> items[j] == Raised(old(items)[j], p)
        invariant forall j :: i <= j < |items| ==> items[j] == old(items)[j]
      {
        if items[i].position >= p {
          items := items[i := items[i].(position := items[i].position + 1)];
        }
        i := i + 1;
      }
    }

    /** POST /add: the caller joins the end of the line unless already queued. */
    method Enqueue(username: string) returns (r: Outcome<QueueError>)
      requires Valid()
      modifies this
      ensures Valid()
      ensures r.Fail? <==> username in old(Snapshot(items))
      ensures r.Fail? ==> r.error == AlreadyQueued && items == old(items)
      ensures r.Pass? ==> items == old(items) + [QueueItem(username, |old(items)| + 1)]
      ensures r.Pass? ==> Snapshot(items) == old(Snapshot(items)) + [username]
    {
      ListedIffQueued(items, username);
      if FindByName(items, username) < |items| {
        return Fail(AlreadyQueued);
      }
      var newPosition := 1;
      if items != [] {
        LastIsLength(items);
        newPosition := items[LastIndex(items)].position + 1;
      }
      AppendKeepsOrder(items, username);
      items := items + [QueueItem(username, newPosition)];
      r := Pass;
    }

    /** Deletes the entry at index d and closes the gap above its position. */
    method DeleteAt(d: nat)
      requires Valid() && d < |items|
      modifies this
      ensures Valid()
      ensures items == DecrementedAbove(Without(old(items), d), old(items)[d].position)
      ensures !Queued(items, old(items)[d].username)
      ensures Snapshot(items) == old(Snapshot(items)[..items[d].position - 1] + Snapshot(items)[items[d].position..])
    {
      var gone := items[d];
      RemovalKeepsOrder(items, d);
      items := items[..d] + items[d + 1..];
      DecrementAbove(gone.position);
    }

    /** POST /admin/remove: drop a named user and move everyone behind them up one place. */
    method RemoveByName(username: string) returns (r: Outcome<QueueError>)
      requires Valid()
      modifies this
      ensures Valid()
      ensures r.Fail? <==> username !in old(Snapshot(items))
      ensures r.Fail? ==> r.error == NotQueued && items == old(items)
      ensures r.Pass? ==> old(Queued(items, username)) && !Queued(items, username)
      ensures r.Pass? ==> 1 <= old(PositionOf(items, username)) <= |old(items)|
      ensures r.Pass? ==> old(Snapshot(items)[PositionOf(items, username) - 1]) == username
      ensures r.Pass? ==>
        items == DecrementedAbove(Without(old(items), old(FindByName(items, username))), old(PositionOf(items, username)))
      ensures r.Pass? ==>
        var p := old(PositionOf(items, username));
        Snapshot(items) == old(Snapshot(items))[..p - 1] + old(Snapshot(items))[p..]
    {
      ListedIffQueued(items, username);
      var d := FindByName(items, username);
      if d == |items| {
        return Fail(NotQueued);
      }
      DeleteAt(d);
      r := Pass;
    }

    /** POST /admin/clear: empty the queue. */
    method Clear()
      modifies this
      ensures Valid() && items == [] && Snapshot(items) == []
    {
      items := [];
    }

    /** POST /admin/remove-top: drop the user at position 1 and report who it was. */
    method RemoveTop() returns (r: Result<string, QueueError>)
      requires Valid()
      modifies this
      ensures Valid()
      ensures r.Err? <==> old(items) == []
      ensures r.Err? ==> r.error == QueueEmpty && items == old(items)
      ensures r.Ok? ==> r.value == old(Snapshot(items))[0]
      ensures r.Ok? ==> items == DecrementedAbove(Without(old(items), old(TopIndex(items))), 1)
      ensures r.Ok? ==> Snapshot(items) == old(Snapshot(items))[1..]
    {
      if items == [] {
        return Err(QueueEmpty);
      }
      var top := TopIndex(items);
      TopIsFirst(items);
      r := Ok(items[top].username);
      DeleteAt(top);
    }

    /**
     * POST /admin/add-at-position: check the position, then the user, then the
     * bound; open a slot at `position` and put the user there.
     */
    method InsertAtPosition(username: string, position: real) returns (r: Outcome<QueueError>)
      requires Valid()
      modifies this
      ensures Valid()
      ensures r == Fail(InvalidPosition) <==> !IsInteger(position) || position < 1.0
      ensures r == Fail(AlreadyQueued) <==>
        IsInteger(position) && position >= 1.0 && username in old(Snapshot(items))
      ensures r == Fail(PositionOutOfBounds) <==>
        IsInteger(position) && position >= 1.0 && username !in old(Snapshot(items))
        && position > (|old(items)| + 1) as real
      ensures r.Pass? <==>
        IsInteger(position) && position >= 1.0 && username !in old(Snapshot(items))
        && position <= (|old(items)| + 1) as real
      ensures r.Fail? ==> items == old(items)
      ensures r.Pass? ==>
        var p := position.Floor;
        && 1 <= p <= |old(items)| + 1
        && items == IncrementedFrom(old(items), p) + [QueueItem(username, p)]
        && Snapshot(items) == old(Snapshot(items))[..p - 1] + [username] + old(Snapshot(items))[p - 1..]
    {
      if !IsInteger(position) || position < 1.0 {
        return Fail(InvalidPosition);
      }
      ListedIffQueued(items, username);
      if FindByName(items, username) < |items| {
        return Fail(AlreadyQueued);
      }
      var queueLength := |items|;
      if position > (queueLength + 1) as real {
        return Fail(PositionOutOfBounds);
      }
      var p := position.Floor;
      InsertionKeepsOrder(items, username, p);
      IncrementFrom(p);
      items := items + [QueueItem(username, p)];
      r := Pass;
    }
  }
}
