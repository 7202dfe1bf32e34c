/** The runner's own code on one thread (kelso/jobs/runner.py): what submitting, trimming
    and draining the queue leave behind. JobQueue interleaves them. */
module JobRunnerObject {
  import opened Wrappers
  import opened Orders
  import opened JobQueue

  /** An exception that is expected of a job, a ValueError or RuntimeError, or another one. */
  datatype Exception = Expected | Unexpected

  /** What building a job's context raises, and what its work then does. */
  datatype Outcome = Outcome(context: Option<Exception>, work: Option<Exception>)

  /** The state a job is left in: as it was when its context raised an expected exception,
      else done when nothing was raised and failed when something was. */
  function Ends(j: Job, o: Outcome): Job {
    if o.context == Some(Expected) then j
    else j.(state := if o == Outcome(None, None) then Done else Failed)
  }

  /** The steps that the worker's thread takes for a job it has taken off the queue. */
  function StepsFor(o: Outcome): seq<Step> {
    [LookUp] + match o.context
               case Some(e) => [NoContext(e == Expected)]
               case None => [Begin, End(o.work == None)]
  }

  /** Where steps lead, if each is enabled. */
  function AfterSteps(s: State, steps: seq<Step>): Option<State>
    decreases |steps|
  {
    if steps == [] then Some(s)
    else if Enabled(s, steps[0]) then AfterSteps(Do(s, steps[0]), steps[1..])
    else None
  }

  /** Those steps are enabled one after another, leave the job as RunJob does, and set the
      worker free. */
  lemma RunJobIsSteps(s: State, id: JobId, o: Outcome)
    requires s.work == Some(Taken(id)) && id in s.jobs
    ensures var t := AfterSteps(s, StepsFor(o));
            && t.Some? && t.value.work == None
            && t.value.jobs == s.jobs[id := Ends(s.jobs[id], o)]
  {
    var steps := StepsFor(o);
    var found := Do(s, LookUp);
    assert AfterSteps(s, steps) == AfterSteps(found, steps[1..]);
    match o.context
    case Some(e) =>
      assert steps[1..] == [NoContext(e == Expected)];
      var t := Do(found, NoContext(e == Expected));
      assert AfterSteps(found, steps[1..]) == AfterSteps(t, []);
      assert e == Expected ==> s.jobs[id := s.jobs[id]] == s.jobs;
    case None =>
      var begun := Do(found, Begin);
      var t := Do(begun, End(o.work == None));
      assert steps[1..] == [Begin, End(o.work == None)] && steps[1..][1..] == [End(o.work == None)];
      assert AfterSteps(found, steps[1..]) == AfterSteps(begun, [End(o.work == None)]) == AfterSteps(t, []);
  }

  // --- a turn of the trimming loop ------------------------------------------------------------

  lemma Removed(before: seq<JobId>, kept: seq<JobId>, id: JobId, rest: seq<JobId>)
    requires before == kept + ([id] + rest) && Distinct(before)
    ensures Distinct(kept + rest) && id !in kept + rest
    ensures forall x :: x in before <==> x in kept + rest || x == id
  {
    var after, n := kept + rest, |kept|;
    assert before[n] == id;
    assert forall i :: 0 <= i < |after| ==> after[i] == before[if i < n then i else i + 1];
    forall x | x in before ensures x in after || x == id {
      var i :| 0 <= i < |before| && before[i] == x;
      assert i < n ==> after[i] == x;
      assert i > n ==> after[i - 1] == x;
    }
  }

  /** Partway through trimming down to `goal`: of the jobs looked at, `kept` are left, and
      `rest` are still to be looked at. */
  ghost predicate Trimming(goal: seq<JobId>, was: map<JobId, Job>, kept: seq<JobId>, rest: seq<JobId>, excess: nat) {
    Distinct(kept + rest) && kept + Dropping(rest, was, excess) == goal && forall x :: x in kept + rest ==> x in was
  }

  lemma TurnKeeps(goal: seq<JobId>, was: map<JobId, Job>, kept: seq<JobId>, id: JobId, rest: seq<JobId>, excess: nat)
    requires Trimming(goal, was, kept, [id] + rest, excess) && excess > 0 && Unfinished(was, id)
    ensures kept + [id] + rest == kept + ([id] + rest) && Trimming(goal, was, kept + [id], rest, excess)
  {
    assert ([id] + rest)[1..] == rest;
    assert kept + [id] + rest == kept + ([id] + rest);
    assert kept + [id] + Dropping(rest, was, excess) == kept + ([id] + Dropping(rest, was, excess));
  }

  lemma TurnDrops(goal: seq<JobId>, was: map<JobId, Job>, kept: seq<JobId>, id: JobId, rest: seq<JobId>, excess: nat)
    requires Trimming(goal, was, kept, [id] + rest, excess) && excess > 0 && !Unfinished(was, id)
    ensures Trimming(goal, was, kept, rest, excess - 1)
    ensures Keep(was, kept + ([id] + rest)) - {id} == Keep(was, kept + rest)
  {
    assert ([id] + rest)[1..] == rest;
    Removed(kept + ([id] + rest), kept, id, rest);
  }

  /** Where the loop is: `left` are the ids it has still to look at. */
  ghost predicate Stage(goal: seq<JobId>, was: map<JobId, Job>, kept: seq<JobId>, left: seq<JobId>, order: seq<JobId>, jobs: map<JobId, Job>) {
    && |order| >= MAX_HISTORY && Trimming(goal, was, kept, left, |order| - MAX_HISTORY)
    && order == kept + left && jobs == Keep(was, order)
  }

  lemma StageStarts(order: seq<JobId>, jobs: map<JobId, Job>)
    requires Distinct(order) && (forall x :: x in jobs <==> x in order) && |order| > MAX_HISTORY
    ensures Stage(Trim(order, jobs), jobs, [], order, order, jobs)
  {
    assert [] + order == order && [] + Trim(order, jobs) == Trim(order, jobs);
  }

  lemma StageHead(goal: seq<JobId>, was: map<JobId, Job>, kept: seq<JobId>, left: seq<JobId>, order: seq<JobId>, jobs: map<JobId, Job>)
    requires Stage(goal, was, kept, left, order, jobs) && left != []
    ensures left[0] in jobs && jobs[left[0]] == was[left[0]]
  {
    assert order[|kept|] == left[0];
  }

  lemma StageKeeps(goal: seq<JobId>, was: map<JobId, Job>, kept: seq<JobId>, left: seq<JobId>, order: seq<JobId>, jobs: map<JobId, Job>)
    requires Stage(goal, was, kept, left, order, jobs) && left != [] && |order| > MAX_HISTORY && Unfinished(was, left[0])
    ensures Stage(goal, was, kept + [left[0]], left[1..], order, jobs)
  {
    assert left == [left[0]] + left[1..];
    TurnKeeps(goal, was, kept, left[0], left[1..], |order| - MAX_HISTORY);
  }

  lemma StageDrops(goal: seq<JobId>, was: map<JobId, Job>, kept: seq<JobId>, left: seq<JobId>, order: seq<JobId>, jobs: map<JobId, Job>)
    requires Stage(goal, was, kept, left, order, jobs) && left != [] && |order| > MAX_HISTORY && !Unfinished(was, left[0])
    ensures Stage(goal, was, kept, left[1..], kept + left[1..], jobs - {left[0]})
  {
    assert left == [left[0]] + left[1..];
    TurnDrops(goal, was, kept, left[0], left[1..], |order| - MAX_HISTORY);
  }

  lemma StageEnds(goal: seq<JobId>, was: map<JobId, Job>, kept: seq<JobId>, left: seq<JobId>, order: seq<JobId>, jobs: map<JobId, Job>)
    requires Stage(goal, was, kept, left, order, jobs) && (left == [] || |order| <= MAX_HISTORY)
    ensures order == goal && jobs == Keep(was, goal) && Distinct(goal) && forall x :: x in jobs <==> x in goal
  {
  }

  /** Trimming after a job has been added takes only finished jobs. */
  lemma TrimAfterAdding(order: seq<JobId>, jobs: map<JobId, Job>, id: JobId, verb: string)
    requires Distinct(order) && (forall x :: x in jobs <==> x in order) && id !in jobs
    ensures var ids, all := order + [id], jobs[id := Job(verb, Queued)];
            var kept := Trim(ids, all);
            && Distinct(ids) && (forall x :: x in all <==> x in ids)
            && id in kept && (forall x :: x in jobs && !Finished(jobs[x]) ==> x in kept)
  {
    var ids, all := order + [id], jobs[id := Job(verb, Queued)];
    assert forall x :: x in ids <==> x in order || x == id;
    DroppingKeeps(ids, all, if |ids| <= MAX_HISTORY then 0 else |ids| - MAX_HISTORY);
    assert id in ids;
  }

  class JobRunner {
    var order: seq<JobId>
    var jobs: map<JobId, Job>
    var queue: seq<JobId>

    ghost predicate Valid()
      reads this
    {
      && Distinct(order) && (forall x :: x in jobs <==> x in order)
      && Distinct(queue) && (forall x :: x in queue ==> x in jobs)
    }

    constructor ()
      ensures Valid() && order == [] && jobs == map[] && queue == []
    {
      order, jobs, queue := [], map[], [];
    }

    /** _trim: drops finished jobs, oldest first, while the history is over budget. */
    method TrimHistory()
      requires Distinct(order) && forall x :: x in jobs <==> x in order
      modifies this`order, this`jobs
      ensures order == Trim(old(order), old(jobs)) && jobs == Keep(old(jobs), order)
      ensures Distinct(order) && forall x :: x in jobs <==> x in order
    {
      if |order| <= MAX_HISTORY {
        assert jobs == Keep(jobs, order);
        return;
      }
      StageStarts(order, jobs);
      DropFinished(Trim(order, jobs));
    }

    /** The loop of _trim, over the ids as they were. */
    method DropFinished(ghost goal: seq<JobId>)
      requires Stage(goal, jobs, [], order, order, jobs)
      modifies this`order, this`jobs
      ensures order == goal && jobs == Keep(old(jobs), goal)
      ensures Distinct(order) && forall x :: x in jobs <==> x in order
    {
      ghost var was := jobs;
      var left := order;
      var kept := [];
      while left != [] && |order| > MAX_HISTORY
        invariant Stage(goal, was, kept, left, order, jobs)
        decreases |left|
      {
        var id := left[0];
        StageHead(goal, was, kept, left, order, jobs);
        if jobs[id].state == Done || jobs[id].state == Failed {
          StageDrops(goal, was, kept, left, order, jobs);
          order := kept + left[1..];
          jobs := jobs - {id};
        } else {
          StageKeeps(goal, was, kept, left, order, jobs);
          kept := kept + [id];
        }
        left := left[1..];
      }
      StageEnds(goal, was, kept, left, order, jobs);
    }

    /** submit, once the job has been prepared: it is in the history and last on the queue. */
    method Submit(id: JobId, verb: string)
      requires Valid() && id !in jobs
      requires forall x :: x in queue ==> !Finished(jobs[x])
      modifies this
      ensures Valid()
      ensures var all := old(jobs)[id := Job(verb, Queued)];
              order == Trim(old(order) + [id], all) && jobs == Keep(all, order)
      ensures queue == old(queue) + [id] && Unfinished(jobs, id) && id in jobs
      ensures forall x :: x in queue ==> !Finished(jobs[x])
      ensures forall x :: x in old(jobs) && !Finished(old(jobs)[x]) ==> x in jobs && jobs[x] == old(jobs)[x]
    {
      TrimAfterAdding(order, jobs, id, verb);
      jobs := jobs[id := Job(verb, Queued)];
      order := order + [id];
      TrimHistory();
      queue := queue + [id];
      assert forall x :: x in queue <==> x in old(queue) || x == id;
    }

    /** execute: the job is running while its work is, then done or failed, and what the
        work raised is raised again. */
    method Execute(id: JobId, work: Option<Exception>) returns (raised: Option<Exception>)
      requires Valid() && id in jobs
      modifies this`jobs
      ensures Valid() && raised == work
      ensures jobs == old(jobs)[id := old(jobs)[id].(state := if work == None then Done else Failed)]
    {
      jobs := jobs[id := jobs[id].(state := Running)];
      var ok := false;
      if work == None {
        ok := true;
      }
      jobs := jobs[id := jobs[id].(state := if ok then Done else Failed)];
      raised := work;
    }

    /** _run: an expected exception is swallowed, another one fails the job; either way the
        worker goes on to the next job. */
    method RunJob(id: JobId, o: Outcome)
      requires Valid()
      modifies this`jobs
      ensures Valid()
      ensures jobs == if id in old(jobs) then old(jobs)[id := Ends(old(jobs)[id], o)] else old(jobs)
    {
      if id !in jobs {
        return;
      }
      var raised := o.context;
      if raised == None {
        raised := Execute(id, o.work);
      }
      match raised
      case None =>
      case Some(Expected) =>
      case Some(Unexpected) =>
        if jobs[id].state != Failed {
          jobs := jobs[id := jobs[id].(state := Failed)];
        }
    }

    /** run_pending: runs every queued job, in order, and leaves the others as they were. */
    method RunPending(outcome: JobId -> Outcome) returns (count: nat)
      requires Valid()
      modifies this`jobs, this`queue
      ensures Valid() && queue == [] && count == |old(queue)|
      ensures jobs.Keys == old(jobs).Keys
      ensures forall x :: x in jobs ==>
                jobs[x] == if x in old(queue) then Ends(old(jobs)[x], outcome(x)) else old(jobs)[x]
    {
      ghost var was := queue;
      count := 0;
      while queue != []
        invariant count <= |was| && queue == was[count..]
        invariant Valid() && jobs.Keys == old(jobs).Keys
        invariant forall x :: x in jobs ==>
                    jobs[x] == if x in was[..count] then Ends(old(jobs)[x], outcome(x)) else old(jobs)[x]
        decreases |was| - count
      {
        var id := queue[0];
        assert id == was[count];
        assert was[..count + 1] == was[..count] + [id];
        queue := queue[1..];
        RunJob(id, outcome(id));
        count := count + 1;
      }
      assert was[..count] == was;
    }
  }
}
