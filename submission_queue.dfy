/** The `LinkedBlockingQueue<Submissions>` that `ExecutionQueueService`
    creates and shares with its consumer. Created without a capacity, it
    holds at most `Integer.MAX_VALUE` elements. The ghost fields record
    every submission ever accepted and every one taken, so `Valid()` states
    first-in, first-out order: what has been taken, followed by what is
    waiting, is exactly what was offered. */
module SubmissionQueue {
  import opened Entities

  /** The capacity of a `LinkedBlockingQueue` built with no argument. */
  const Capacity: int := 0x7fff_ffff

  class BlockingQueue {
    var items: seq<Submission>
    ghost var offered: seq<Submission>
    ghost var taken: seq<Submission>

    ghost predicate Valid()
      reads this
    {
      offered == taken + items && |items| <= Capacity
    }

    constructor ()
      ensures Valid() && items == [] && offered == [] && taken == []
    {
      items := [];
      offered := [];
      taken := [];
    }

    /** `offer`: appends at the tail unless the queue is at capacity, and
        says whether it did. */
    method Offer(x: Submission) returns (added: bool)
      requires Valid()
      modifies this
      ensures Valid()
      ensures added <==> |old(items)| < Capacity
      ensures items == if added then old(items) + [x] else old(items)
      ensures offered == if added then old(offered) + [x] else old(offered)
      ensures taken == old(taken)
    {
      added := |items| < Capacity;
      if added {
        items := items + [x];
        offered := offered + [x];
      }
    }

    /** `take` on a non-empty queue: removes and returns the head. (On an
        empty queue the caller blocks; the consumer's step models that.) */
    method Take() returns (x: Submission)
      requires Valid() && items != []
      modifies this
      ensures Valid()
      ensures x == old(items[0]) && items == old(items[1..])
      ensures taken == old(taken) + [x] && offered == old(offered)
    {
      x := items[0];
      items := items[1..];
      taken := taken + [x];
    }
  }
}
