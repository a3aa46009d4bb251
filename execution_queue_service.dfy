/** `ExecutionQueueService`: owns the submission queue, accepts new
    submissions into it and starts one consumer on a single-thread
    executor. */
module ExecutionQueueService {
  import opened Text
  import opened Entities
  import opened SubmissionQueue
  import opened SubmissionProcessor

  const QueueFullMessage: string := "Queue is full. Submission could not be added."

  class Service {
    const queue: BlockingQueue
    /** The tasks handed to the single-thread executor, in order. */
    var submitted: seq<Processor>

    constructor ()
      ensures fresh(queue) && Valid()
      ensures queue.items == [] && queue.offered == [] && queue.taken == []
      ensures submitted == []
    {
      queue := new BlockingQueue();
      submitted := [];
    }

    /** Every task handed to the executor consumes this service's queue. */
    ghost predicate Valid()
      reads this, queue
    {
      queue.Valid() && forall k :: 0 <= k < |submitted| ==> submitted[k].queue == queue
    }

    /** The consumer that runs: a single-thread executor runs its first
        task, whose loop returns only when it stops. */
    ghost function Consumer(): Option<Processor>
      reads this
    {
      if submitted == [] then None else Some(submitted[0])
    }

    /** `addSubmission`: offer at the tail; a refused offer raises the
        queue-full exception and leaves the queue as it was. */
    method AddSubmission(x: Submission) returns (r: Result<(), string>)
      requires Valid()
      modifies queue
      ensures Valid()
      ensures r.Ok? <==> |old(queue.items)| < Capacity
      ensures r.Ok? ==> queue.items == old(queue.items) + [x] && queue.offered == old(queue.offered) + [x]
      ensures r.Err? ==> r.error == QueueFullMessage && queue.items == old(queue.items) && queue.offered == old(queue.offered)
      ensures queue.taken == old(queue.taken)
    {
      var added := queue.Offer(x);
      if !added {
        return Err(QueueFullMessage);
      }
      return Ok(());
    }

    /** `startProcessing`: submit a new consumer over this very queue. After
        it, a consumer runs, and it reads this queue. */
    method StartProcessing() returns (p: Processor)
      requires Valid()
      modifies this
      ensures Valid()
      ensures fresh(p) && p.Valid() && p.queue == queue && p.running
      ensures submitted == old(submitted) + [p]
      ensures Consumer().Some? && Consumer().value.queue == queue
      ensures old(submitted) != [] ==> Consumer() == old(Consumer())
    {
      p := new Processor(queue);
      submitted := submitted + [p];
      assert submitted[0] == if old(submitted) == [] then p else old(submitted)[0];
    }
  }
}
