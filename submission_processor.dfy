/** `SubmissionProcessor`: the single consumer of the submission queue. One
    call of `Step` is one pass of its `while (true)` loop: take the head of
    the queue, load the submission's assignment, store it on the submission,
    save the submission, list the assignment's test cases and hand all of it
    to the execution service. The repositories are inputs (assignments by
    id, the test case table), the saves and the hand-overs are recorded in
    order. */
module SubmissionProcessor {
  import opened Text
  import opened Entities
  import opened SubmissionQueue

  /** One call of `runScriptAsync(fileName, submission, repository,
      testCases)` as the processor makes it. */
  datatype Dispatch = Dispatch(fileName: string, submission: Submission, testCases: seq<TestCase>)

  /** Whether the consumer thread has been interrupted when it reaches
      `take()`. */
  datatype Signal = Proceed | Interrupt

  /** How one pass ended: a submission was handed over; the queue was empty
      and `take()` is still waiting; an InterruptedException ended the loop;
      or another exception escaped and ended the loop. */
  datatype StepResult = Dispatched | Blocked | Stopped | Crashed(message: string)

  /** A repository of assignments: each stored under its own id. */
  predicate KeyedById(assignments: map<Uuid, Assignment>)
  {
    forall id :: id in assignments ==> assignments[id].id == id
  }

  /** Loading the assignment by the id the submission carries, failing with
      the message of the IllegalArgumentException when there is none. */
  function Resolve(x: Submission, assignments: map<Uuid, Assignment>): (r: Result<Submission, string>)
    ensures r.Ok? <==> x.assignment.id in assignments
    ensures r.Ok? ==> r.value.assignment == assignments[x.assignment.id]
    ensures r.Ok? ==> r.value.(assignment := x.assignment) == x
    ensures r.Err? ==> r.error == "Invalid assignment ID"
  {
    if x.assignment.id in assignments then Ok(x.(assignment := assignments[x.assignment.id]))
    else Err("Invalid assignment ID")
  }

  /** `findByAssignmentId`: the test cases of one assignment, in table
      order. */
  function TestCasesFor(table: seq<TestCase>, id: Uuid): (r: seq<TestCase>)
    ensures |r| <= |table|
    ensures forall t :: t in r <==> t in table && t.assignmentId == id
  {
    if table == [] then []
    else if table[0].assignmentId == id then [table[0]] + TestCasesFor(table[1..], id)
    else TestCasesFor(table[1..], id)
  }

  class Processor {
    const queue: BlockingQueue
    /** Length of `queue.taken` when this consumer started. */
    ghost const start: nat
    /** Every submission passed to the submission repository's `save`. */
    var saved: seq<Submission>
    var dispatched: seq<Dispatch>
    /** The loop is still going. */
    var running: bool
    /** The thread's interrupt flag. */
    var interruptFlag: bool
    /** The message of the exception that ended the loop, if one did. */
    var failure: Option<string>

    /** Every submission this consumer took was handed over in the order it
        was taken, unchanged but for its assignment, except for one last
        taken submission whose assignment was missing. */
    ghost predicate Valid()
      reads this, queue
    {
      && queue.Valid()
      && start <= |queue.taken|
      && (failure.None? ==> |queue.taken| - start == |dispatched|)
      && (failure.Some? ==> |queue.taken| - start == |dispatched| + 1 && !running)
      && (forall k :: 0 <= k < |dispatched| ==>
            && dispatched[k].submission.(assignment := queue.taken[start + k].assignment) == queue.taken[start + k]
            && dispatched[k].submission.assignment.id == queue.taken[start + k].assignment.id
            && dispatched[k].fileName == dispatched[k].submission.fileName)
    }

    constructor (q: BlockingQueue)
      requires q.Valid()
      ensures Valid() && queue == q && start == |q.taken|
      ensures saved == [] && dispatched == [] && running && !interruptFlag && failure == None
    {
      queue := q;
      start := |q.taken|;
      saved := [];
      dispatched := [];
      running := true;
      interruptFlag := false;
      failure := None;
    }

    /** One pass of the loop. */
    method Step(signal: Signal, assignments: map<Uuid, Assignment>, testCaseTable: seq<TestCase>)
      returns (r: StepResult)
      requires Valid() && running
      requires KeyedById(assignments)
      modifies this, queue
      ensures Valid()
      ensures queue.offered == old(queue.offered)
      ensures signal == Interrupt ==>
        && r == Stopped && interruptFlag && !running && failure == None
        && queue.items == old(queue.items) && queue.taken == old(queue.taken)
        && saved == old(saved) && dispatched == old(dispatched)
      ensures signal == Proceed && old(queue.items) == [] ==>
        && r == Blocked && running && interruptFlag == old(interruptFlag) && failure == None
        && queue.items == [] && queue.taken == old(queue.taken)
        && saved == old(saved) && dispatched == old(dispatched)
      ensures signal == Proceed && old(queue.items) != [] ==>
        var x := old(queue.items[0]);
        && queue.items == old(queue.items[1..])
        && queue.taken == old(queue.taken) + [x]
        && interruptFlag == old(interruptFlag)
        && match Resolve(x, assignments)
           case Err(m) =>
             r == Crashed(m) && !running && failure == Some(m)
             && saved == old(saved) && dispatched == old(dispatched)
           case Ok(sub) =>
             r == Dispatched && running && failure == None
             && saved == old(saved) + [sub]
             && dispatched == old(dispatched) + [Dispatch(x.fileName, sub, TestCasesFor(testCaseTable, x.assignment.id))]
    {
      if signal == Interrupt {
        interruptFlag := true;
        running := false;
        return Stopped;
      }
      if queue.items == [] {
        return Blocked;
      }
      var submission := queue.Take();
      var assignmentId := submission.assignment.id;
      var resolved := Resolve(submission, assignments);
      match resolved {
        case Err(m) =>
          running := false;
          failure := Some(m);
          return Crashed(m);
        case Ok(sub) =>
          saved := saved + [sub];
          var testCases := TestCasesFor(testCaseTable, assignmentId);
          dispatched := dispatched + [Dispatch(sub.fileName, sub, testCases)];
          return Dispatched;
      }
    }
  }

  /** The test cases handed over with a submission are exactly the stored
      test cases of that submission's own assignment. */
  lemma DispatchedTestCasesBelong(x: Submission, assignments: map<Uuid, Assignment>, table: seq<TestCase>)
    requires KeyedById(assignments)
    requires Resolve(x, assignments).Ok?
    ensures var sub := Resolve(x, assignments).value;
      forall t :: t in TestCasesFor(table, sub.assignment.id) <==> t in table && t.assignmentId == x.assignment.id
  {
  }
}
