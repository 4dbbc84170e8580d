/** The bounded priority queue of src/observability/mirror-buffer.ts. */
module MirrorBuffer {
  import opened Sequences
  import opened Wrappers

  datatype Priority = Low | Medium | High

  /** An event to mirror; everything but its priority is payload. */
  datatype Event = Event(priority: Priority, payload: string)

  function Rank(event: Event): nat {
    match event.priority
    case Low => 0
    case Medium => 1
    case High => 2
  }

  /** The first of the lowest-ranked events, if that rank is below the incoming one. */
  ghost predicate IsVictim(queue: seq<Event>, incoming: nat, index: int) {
    if index == -1 then forall event :: event in queue ==> Rank(event) >= incoming
    else
      && 0 <= index < |queue|
      && Rank(queue[index]) < incoming
      && (forall i :: 0 <= i < |queue| ==> Rank(queue[index]) <= Rank(queue[i]))
      && (forall i :: 0 <= i < index ==> Rank(queue[index]) < Rank(queue[i]))
  }

  function RemovableIndex(queue: seq<Event>, incoming: nat): (index: int)
    ensures IsVictim(queue, incoming, index)
  {
    if queue == [] then -1
    else
      var init, last := queue[..|queue| - 1], queue[|queue| - 1];
      var candidate := RemovableIndex(init, incoming);
      assert queue == init + [last];
      if Rank(last) < incoming && (candidate == -1 || Rank(last) < Rank(init[candidate])) then |queue| - 1
        else candidate
  }

  /** What an enqueue leaves, whether it returned true, and what it dropped. */
  datatype Enqueued = Enqueued(queue: seq<Event>, accepted: bool, dropped: Option<Event>)

  function EnqueueResult(queue: seq<Event>, capacity: int, event: Event): Enqueued {
    if |queue| < capacity then Enqueued(queue + [event], true, None)
    else
      var index := RemovableIndex(queue, Rank(event));
      if index == -1 then Enqueued(queue, false, Some(event))
      else Enqueued(RemoveAt(queue, index) + [event], true, Some(queue[index]))
  }

  function SliceFront(queue: seq<Event>, count: nat): seq<Event> {
    if count <= |queue| then queue[..count] else queue
  }

  function DropFront(queue: seq<Event>, count: nat): seq<Event> {
    if count <= |queue| then queue[count..] else []
  }

  function IsLow(event: Event): nat { if event.priority == Low then 1 else 0 }

  class MirrorBuffer {
    const capacity: int
    var queue: seq<Event>
    var droppedEvents: nat
    var droppedLowPriority: nat

    constructor (capacity: int)
      ensures this.capacity == capacity && queue == [] && droppedEvents == 0 && droppedLowPriority == 0
    {
      this.capacity := capacity;
      queue := [];
      droppedEvents, droppedLowPriority := 0, 0;
    }

    method Enqueue(event: Event) returns (accepted: bool)
      modifies this
      ensures var result := EnqueueResult(old(queue), capacity, event);
              && queue == result.queue
              && accepted == result.accepted
              && droppedEvents == old(droppedEvents) + (if result.dropped.Some? then 1 else 0)
              && droppedLowPriority == old(droppedLowPriority)
                + (if result.dropped.Some? then IsLow(result.dropped.value) else 0)
    {
      if |queue| < capacity {
        queue := queue + [event];
        return true;
      }
      var index := FindRemovableIndex(event);
      if index == -1 {
        RecordDrop(event);
        return false;
      }
      var removed := queue[index];
      queue := RemoveAt(queue, index);
      RecordDrop(removed);
      queue := queue + [event];
      return true;
    }

    method FindRemovableIndex(incoming: Event) returns (candidateIndex: int)
      ensures candidateIndex == RemovableIndex(queue, Rank(incoming))
      ensures IsVictim(queue, Rank(incoming), candidateIndex)
    {
      candidateIndex := -1;
      var candidateRank: int := 3; // stands for the source's Infinity: above every rank
      for index := 0 to |queue|
        invariant candidateIndex == RemovableIndex(queue[..index], Rank(incoming))
        invariant candidateRank == if candidateIndex == -1 then 3 else Rank(queue[candidateIndex])
      {
        assert queue[..index + 1][..index] == queue[..index];
        var queuedRank := Rank(queue[index]);
        if queuedRank < Rank(incoming) && queuedRank < candidateRank {
          candidateIndex := index;
          candidateRank := queuedRank;
        }
      }
      assert queue[..|queue|] == queue;
    }

    method RecordDrop(event: Event)
      modifies this`droppedEvents, this`droppedLowPriority
      ensures droppedEvents == old(droppedEvents) + 1
      ensures droppedLowPriority == old(droppedLowPriority) + IsLow(event)
    {
      droppedEvents := droppedEvents + 1;
      if event.priority == Low {
        droppedLowPriority := droppedLowPriority + 1;
      }
    }

    method Peek(maxItems: nat) returns (events: seq<Event>)
      ensures events == SliceFront(queue, maxItems)
    {
      events := if maxItems <= |queue| then queue[..maxItems] else queue;
    }

    method Ack(count: nat) returns (events: seq<Event>)
      modifies this`queue
      ensures events == SliceFront(old(queue), count) && queue == DropFront(old(queue), count)
      ensures events + queue == old(queue)
    {
      events := if count <= |queue| then queue[..count] else queue;
      queue := queue[|events|..];
    }
  }

  // ---------------------------------------------------------------- eviction keeps the best

  function CountAtLeast(events: seq<Event>, rank: nat): nat {
    if events == [] then 0
    else CountAtLeast(events[..|events| - 1], rank) + (if Rank(events[|events| - 1]) >= rank then 1 else 0)
  }

  function CountLow(events: seq<Event>): nat {
    if events == [] then 0 else CountLow(events[..|events| - 1]) + IsLow(events[|events| - 1])
  }

  lemma {:induction false} CountsSplit(a: seq<Event>, b: seq<Event>, rank: nat)
    ensures CountAtLeast(a + b, rank) == CountAtLeast(a, rank) + CountAtLeast(b, rank)
    ensures CountLow(a + b) == CountLow(a) + CountLow(b)
  {
    if b == [] {
      assert a + b == a;
    } else {
      CountsSplit(a, b[..|b| - 1], rank);
      var whole := a + b;
      assert whole[..|whole| - 1] == a + b[..|b| - 1] && whole[|whole| - 1] == b[|b| - 1];
    }
  }

  lemma {:induction false} CountBounds(events: seq<Event>, rank: nat)
    ensures CountAtLeast(events, rank) <= |events| && CountLow(events) <= |events|
    ensures (forall event :: event in events ==> Rank(event) >= rank) ==> CountAtLeast(events, rank) == |events|
  {
    if events != [] { CountBounds(events[..|events| - 1], rank); }
  }

  lemma CountOne(event: Event, rank: nat)
    ensures CountAtLeast([event], rank) == (if Rank(event) >= rank then 1 else 0) && CountLow([event]) == IsLow(event)
  {
    assert [event][..0] == [];
  }

  lemma CountRemove(queue: seq<Event>, index: nat, rank: nat)
    requires index < |queue|
    ensures CountAtLeast(RemoveAt(queue, index), rank)
            == CountAtLeast(queue, rank) - (if Rank(queue[index]) >= rank then 1 else 0)
    ensures CountLow(RemoveAt(queue, index)) == CountLow(queue) - IsLow(queue[index])
  {
    assert queue == queue[..index] + [queue[index]] + queue[index + 1..];
    CountsSplit(queue[..index] + [queue[index]], queue[index + 1..], rank);
    CountsSplit(queue[..index], [queue[index]], rank);
    CountsSplit(queue[..index], queue[index + 1..], rank);
    CountOne(queue[index], rank);
  }

  function Smaller(a: int, b: int): int { if a < b then a else b }

  /** One enqueue: the queue holds as many events of at least each rank as the capacity allows. */
  lemma EnqueueKeepsBest(queue: seq<Event>, capacity: int, event: Event, rank: nat)
    requires |queue| <= capacity
    ensures var result := EnqueueResult(queue, capacity, event);
            && |result.queue| <= capacity
            && CountAtLeast(result.queue, rank)
              == Smaller(capacity, CountAtLeast(queue, rank) + (if Rank(event) >= rank then 1 else 0))
            && |result.queue| + (if result.dropped.Some? then 1 else 0) == |queue| + 1
            && CountLow(result.queue) + (if result.dropped.Some? then IsLow(result.dropped.value) else 0)
              == CountLow(queue) + IsLow(event)
  {
    hide CountAtLeast, CountLow, RemovableIndex;
    CountBounds(queue, rank);
    CountOne(event, rank);
    if |queue| < capacity {
      CountsSplit(queue, [event], rank);
    } else {
      var index := RemovableIndex(queue, Rank(event));
      if index != -1 {
        CountRemove(queue, index, rank);
        CountsSplit(RemoveAt(queue, index), [event], rank);
        CountBounds(RemoveAt(queue, index), rank);
        if Rank(queue[index]) >= rank {
          assert forall e :: e in queue ==> Rank(e) >= rank;
        }
      }
    }
  }

  lemma EnqueueKeepsOrder(queue: seq<Event>, capacity: int, event: Event, arrivals: seq<Event>)
    requires IsSubsequence(queue, arrivals)
    ensures IsSubsequence(EnqueueResult(queue, capacity, event).queue, arrivals + [event])
  {
    hide RemovableIndex, RemoveAt, IsSubsequence;
    SubsequenceSnoc(queue, arrivals, event);
    if |queue| >= capacity {
      var index := RemovableIndex(queue, Rank(event));
      if index != -1 {
        SubsequenceRemove(queue, arrivals, index);
        SubsequenceSnoc(RemoveAt(queue, index), arrivals, event);
      }
    }
  }

  /** The queue and the two drop counters after a run of enqueues. */
  datatype Contents = Contents(queue: seq<Event>, droppedEvents: nat, droppedLowPriority: nat)

  function EnqueueOnto(contents: Contents, capacity: int, event: Event): Contents {
    var result := EnqueueResult(contents.queue, capacity, event);
    Contents(result.queue,
             contents.droppedEvents + (if result.dropped.Some? then 1 else 0),
             contents.droppedLowPriority + (if result.dropped.Some? then IsLow(result.dropped.value) else 0))
  }

  function EnqueueAll(contents: Contents, capacity: int, events: seq<Event>): Contents {
    if events == [] then contents
    else EnqueueOnto(EnqueueAll(contents, capacity, events[..|events| - 1]), capacity, events[|events| - 1])
  }

  /**
   * From any queue within capacity, after any run of enqueues: for every rank the queue holds as many events of at
   * least that rank as were there or were offered, up to the capacity; the queue is the arrivals with some left out, in
   * order; and the drop counters say how many, and how many of low priority, were left out.
   */
  lemma {:induction false} EvictionKeepsBest(contents: Contents, capacity: int, events: seq<Event>, rank: nat)
    requires |contents.queue| <= capacity
    ensures var after := EnqueueAll(contents, capacity, events);
            && |after.queue| <= capacity
            && CountAtLeast(after.queue, rank)
              == Smaller(capacity, CountAtLeast(contents.queue, rank) + CountAtLeast(events, rank))
            && IsSubsequence(after.queue, contents.queue + events)
            && |after.queue| + (after.droppedEvents - contents.droppedEvents) == |contents.queue| + |events|
            && CountLow(after.queue) + (after.droppedLowPriority - contents.droppedLowPriority)
              == CountLow(contents.queue) + CountLow(events)
  {
    hide EnqueueResult, IsSubsequence, CountAtLeast, CountLow;
    if events == [] {
      CountBounds(contents.queue, rank);
      CountBounds(events, rank);
      SubsequenceReflexive(contents.queue);
      assert contents.queue + events == contents.queue;
    } else {
      var init, last := events[..|events| - 1], events[|events| - 1];
      EvictionKeepsBest(contents, capacity, init, rank);
      var before := EnqueueAll(contents, capacity, init);
      CountsSplit(init, [last], rank);
      CountOne(last, rank);
      assert init + [last] == events;
      EnqueueKeepsBest(before.queue, capacity, last, rank);
      EnqueueKeepsOrder(before.queue, capacity, last, contents.queue + init);
      assert contents.queue + init + [last] == contents.queue + events;
    }
  }
}
