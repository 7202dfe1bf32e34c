/** kelsod's job queue (kelso/jobs/runner.py): a history trimmed as it grows, a queue of
    ids, and one thread that runs them, as an interleaving of steps. */
module JobQueue {
  import opened Wrappers
  import opened Orders

  type JobId = string

  datatype JobState = Queued | Running | Done | Failed

  datatype Job = Job(verb: string, state: JobState)

  const MAX_HISTORY: nat := 200

  predicate Finished(j: Job) { j.state == Done || j.state == Failed }

  /** Unless it is on record as finished. */
  predicate Unfinished(jobs: map<JobId, Job>, x: JobId) { x in jobs ==> !Finished(jobs[x]) }

  function SetState(jobs: map<JobId, Job>, x: JobId, state: JobState): map<JobId, Job> {
    if x in jobs then jobs[x := jobs[x].(state := state)] else jobs
  }

  // --- trimming -----------------------------------------------------------------------------

  /** What is left of a list of jobs, oldest first, once `excess` finished ones are dropped
      from its front, or as many as there are. */
  function Dropping(order: seq<JobId>, jobs: map<JobId, Job>, excess: nat): seq<JobId> {
    if order == [] || excess == 0 then order
    else if Unfinished(jobs, order[0]) then [order[0]] + Dropping(order[1..], jobs, excess)
    else Dropping(order[1..], jobs, excess - 1)
  }

  /** _trim: the history that is left. */
  function Trim(order: seq<JobId>, jobs: map<JobId, Job>): seq<JobId> {
    Dropping(order, jobs, if |order| <= MAX_HISTORY then 0 else |order| - MAX_HISTORY)
  }

  function Keep(jobs: map<JobId, Job>, kept: seq<JobId>): map<JobId, Job> {
    map x | x in jobs && x in kept :: jobs[x]
  }

  /** The jobs that are not finished, in order. */
  function StillOpen(order: seq<JobId>, jobs: map<JobId, Job>): seq<JobId> {
    if order == [] then []
    else (if Unfinished(jobs, order[0]) then [order[0]] else []) + StillOpen(order[1..], jobs)
  }

  /** One job more in front, of which what is left is told by what is left of the others. */
  lemma LeftStep(order: seq<JobId>, jobs: map<JobId, Job>, left: seq<JobId>, k: nat)
    requires 0 < k <= |order| && left == StillOpen(order[1..][..k - 1], jobs) + order[k..]
    ensures (if Unfinished(jobs, order[0]) then [order[0]] else []) + left == StillOpen(order[..k], jobs) + order[k..]
  {
    var first := if Unfinished(jobs, order[0]) then [order[0]] else [];
    assert order[..k][1..] == order[1..][..k - 1];
    assert StillOpen(order[..k], jobs) == first + StillOpen(order[1..][..k - 1], jobs);
  }

  lemma {:induction false} DroppingMeans(order: seq<JobId>, jobs: map<JobId, Job>, excess: nat) returns (k: nat)
    ensures k <= |order| && Dropping(order, jobs, excess) == StillOpen(order[..k], jobs) + order[k..]
    ensures |Dropping(order, jobs, excess)| >= |order| - excess
    ensures |Dropping(order, jobs, excess)| == |order| - excess || k == |order|
  {
    if order == [] || excess == 0 {
      k := 0;
    } else {
      var less := if Unfinished(jobs, order[0]) then excess else excess - 1;
      var k' := DroppingMeans(order[1..], jobs, less);
      k := k' + 1;
      assert order[k..] == order[1..][k'..];
      LeftStep(order, jobs, Dropping(order[1..], jobs, less), k);
    }
  }

  /** Trimming takes only finished jobs, the oldest first, until no more than 200 jobs are
      left or none of them is finished: the first `k` jobs lose all their finished ones and
      the others stay. */
  lemma TrimMeans(order: seq<JobId>, jobs: map<JobId, Job>) returns (k: nat)
    ensures k <= |order| && Trim(order, jobs) == StillOpen(order[..k], jobs) + order[k..]
    ensures |order| <= 200 ==> Trim(order, jobs) == order
    ensures |order| > 200 ==> |Trim(order, jobs)| >= 200
    ensures |Trim(order, jobs)| <= 200 || Trim(order, jobs) == StillOpen(order, jobs)
  {
    k := DroppingMeans(order, jobs, if |order| <= MAX_HISTORY then 0 else |order| - MAX_HISTORY);
    if k == |order| {
      assert order[..k] == order && order[k..] == [];
    }
  }

  lemma {:induction false} DroppingKeeps(order: seq<JobId>, jobs: map<JobId, Job>, excess: nat)
    requires Distinct(order)
    ensures Distinct(Dropping(order, jobs, excess))
    ensures forall x :: x in Dropping(order, jobs, excess) ==> x in order
    ensures forall x :: x in order && Unfinished(jobs, x) ==> x in Dropping(order, jobs, excess)
  {
    if order != [] && excess != 0 {
      var open, rest := Unfinished(jobs, order[0]), order[1..];
      assert order == [order[0]] + rest;
      assert forall i :: 0 <= i < |rest| ==> rest[i] == order[i + 1];
      DroppingKeeps(rest, jobs, if open then excess else excess - 1);
    }
  }

  // --- the steps ----------------------------------------------------------------------------

  /** What the worker is doing with a job: it took the id off the queue, found the job, or
      is executing it. */
  datatype Work = Taken(id: JobId) | Found(id: JobId) | Executing(id: JobId)

  /** `order` is the history's order of insertion and `putting` the jobs that are in it but
      not yet on the queue. The last four say what has happened: the ids taken off the queue
      and those executed, in order, and those whose context could not be built, by the kind
      of exception that was raised. */
  datatype State = State(
    order: seq<JobId>, jobs: map<JobId, Job>, putting: set<JobId>, queue: seq<JobId>, work: Option<Work>,
    taken: seq<JobId>, begun: seq<JobId>, stranded: set<JobId>, broken: set<JobId>)

  datatype Step =
    | Submit(id: JobId, verb: string)  // insert and trim, under the lock
    | Put(id: JobId)
    | Take
    | LookUp
    | NoContext(swallowed: bool)       // a ValueError or RuntimeError is swallowed
    | Begin
    | End(ok: bool)

  /** Every id ever submitted. */
  predicate Used(s: State, x: JobId) { x in s.putting || x in s.queue || x in s.taken }

  predicate Enabled(s: State, step: Step) {
    match step
    case Submit(id, _) => !Used(s, id)
    case Put(id) => id in s.putting
    case Take => s.work == None && s.queue != []
    case LookUp => s.work.Some? && s.work.value.Taken?
    case NoContext(_) => s.work.Some? && s.work.value.Found?
    case Begin => s.work.Some? && s.work.value.Found?
    case End(_) => s.work.Some? && s.work.value.Executing?
  }

  function Do(s: State, step: Step): State
    requires Enabled(s, step)
  {
    match step
    case Submit(id, verb) =>
      var jobs := s.jobs[id := Job(verb, Queued)];
      var kept := Trim(s.order + [id], jobs);
      s.(order := kept, jobs := Keep(jobs, kept), putting := s.putting + {id})
    case Put(id) => s.(putting := s.putting - {id}, queue := s.queue + [id])
    case Take => s.(queue := s.queue[1..], work := Some(Taken(s.queue[0])), taken := s.taken + [s.queue[0]])
    case LookUp =>
      var id := s.work.value.id;
      s.(work := if id in s.jobs then Some(Found(id)) else None)
    case NoContext(swallowed) =>
      var id := s.work.value.id;
      if swallowed then s.(work := None, stranded := s.stranded + {id})
      else s.(work := None, broken := s.broken + {id}, jobs := SetState(s.jobs, id, Failed))
    case Begin =>
      var id := s.work.value.id;
      s.(work := Some(Executing(id)), jobs := SetState(s.jobs, id, Running), begun := s.begun + [id])
    case End(ok) =>
      s.(work := None, jobs := SetState(s.jobs, s.work.value.id, if ok then Done else Failed))
  }

  function Empty(): State { State([], map[], {}, [], None, [], [], {}, {}) }

  predicate Run(states: seq<State>, steps: seq<Step>) {
    && |states| == |steps| + 1 && states[0] == Empty()
    && forall i :: 0 <= i < |steps| ==> Enabled(states[i], steps[i]) && states[i + 1] == Do(states[i], steps[i])
  }

  // --- what stays true ----------------------------------------------------------------------

  predicate Listed(s: State) {
    Distinct(s.order) && (forall x :: x in s.jobs ==> x in s.order) && (forall x :: x in s.order ==> x in s.jobs)
  }

  /** Every id is put once and taken once, and the worker has the last one taken. */
  predicate Lined(s: State) {
    && Distinct(s.taken + s.queue)
    && (forall x :: x in s.putting ==> x !in s.taken && x !in s.queue)
    && (s.work.Some? ==> s.taken != [] && s.work.value.id == s.taken[|s.taken| - 1])
  }

  predicate Has(s: State, x: JobId, state: JobState) { x in s.jobs && s.jobs[x].state == state }

  predicate Held(s: State, x: JobId) { s.work.Some? && s.work.value.id == x }

  /** Where each job is, its state in the history says. */
  predicate Placed(s: State, x: JobId) {
    && (x in s.putting || x in s.queue ==> Has(s, x, Queued))
    && (x in s.broken ==> x in s.taken && !Held(s, x))
    && (Held(s, x) ==> x !in s.stranded && Has(s, x, if s.work.value.Executing? then Running else Queued))
    && (x in s.stranded ==> x in s.taken && Has(s, x, Queued))
    && (x in s.taken && !Held(s, x) && x !in s.stranded && x in s.jobs ==> Finished(s.jobs[x]))
    && (x in s.jobs ==> Used(s, x))
  }

  ghost predicate AllPlaced(s: State) { forall x :: Placed(s, x) }

  /** The ids not in `out`, in order. */
  function Without(xs: seq<JobId>, out: set<JobId>): seq<JobId> {
    if xs == [] then []
    else Without(xs[..|xs| - 1], out) + if xs[|xs| - 1] in out then [] else [xs[|xs| - 1]]
  }

  /** The ids taken that have not begun. */
  function NotBegun(s: State): set<JobId> {
    s.stranded + s.broken + if s.work.Some? && !s.work.value.Executing? then {s.work.value.id} else {}
  }

  /** Jobs begin in the order of the queue. */
  predicate BegunOk(s: State) {
    && s.begun == Without(s.taken, NotBegun(s))
    && forall x :: x in NotBegun(s) ==> x in s.taken
  }

  ghost predicate Inv(s: State) { Listed(s) && Lined(s) && AllPlaced(s) && BegunOk(s) }

  /** What a submission leaves of the history: only finished jobs go. */
  lemma SubmitKeeps(s: State, id: JobId, verb: string)
    requires !Used(s, id) && Inv(s)
    ensures var t := Do(s, Submit(id, verb));
            && Listed(t) && Has(t, id, Queued)
            && (forall x :: x in t.jobs && x != id ==> x in s.jobs && t.jobs[x] == s.jobs[x])
            && (forall x :: x in s.jobs && !Finished(s.jobs[x]) ==> x in t.jobs && t.jobs[x] == s.jobs[x])
  {
    var order, jobs := s.order + [id], s.jobs[id := Job(verb, Queued)];
    assert Placed(s, id);
    assert forall x :: x in order <==> x in s.order || x == id;
    DroppingKeeps(order, jobs, if |order| <= MAX_HISTORY then 0 else |order| - MAX_HISTORY);
  }

  lemma StepKeepsListed(s: State, step: Step)
    requires Enabled(s, step) && Inv(s)
    ensures Listed(Do(s, step))
  {
    if step.Submit? {
      SubmitKeeps(s, step.id, step.verb);
    }
  }

  lemma StepKeepsLined(s: State, step: Step)
    requires Enabled(s, step) && Lined(s)
    ensures Lined(Do(s, step))
  {
    var t := Do(s, step);
    match step
    case Put(id) => assert t.taken + t.queue == (s.taken + s.queue) + [id];
    case Take => assert t.taken + t.queue == s.taken + s.queue;
    case _ =>
  }

  lemma SubmitPlaces(s: State, id: JobId, verb: string, x: JobId)
    requires !Used(s, id) && Inv(s)
    ensures Placed(Do(s, Submit(id, verb)), x)
  {
    assert Placed(s, id) && Placed(s, x);
    SubmitKeeps(s, id, verb);
  }

  lemma StepPlaces(s: State, step: Step, x: JobId)
    requires Enabled(s, step) && !step.Submit? && Inv(s)
    ensures Placed(Do(s, step), x)
  {
    assert Placed(s, x);
    var t := Do(s, step);
    if step.Take? {
      assert Placed(s, s.queue[0]);
      assert s.queue == [s.queue[0]] + s.queue[1..];
      NotTwice(s.taken, s.queue);
    } else if step.Put? {
      assert x in t.queue <==> x in s.queue || x == step.id;
    } else {
      assert Placed(s, s.work.value.id);
      HeldIsOff(s);
    }
  }

  /** What the worker holds is off the queue. */
  lemma HeldIsOff(s: State)
    requires Lined(s) && s.work.Some?
    ensures var id := s.work.value.id; id in s.taken && id !in s.queue && id !in s.putting
  {
    var all, n := s.taken + s.queue, |s.taken| - 1;
    assert all[n] == s.work.value.id;
    forall i | 0 <= i < |s.queue| ensures s.queue[i] != s.work.value.id {
      assert all[|s.taken| + i] == s.queue[i];
    }
  }

  lemma NotTwice(taken: seq<JobId>, queue: seq<JobId>)
    requires Distinct(taken + queue) && queue != []
    ensures queue[0] !in taken && queue[0] !in queue[1..]
  {
    var all := taken + queue;
    assert all[|taken|] == queue[0];
    forall i | 0 <= i < |taken| ensures taken[i] != queue[0] { assert all[i] == taken[i]; }
    forall i | 0 <= i < |queue| - 1 ensures queue[1..][i] != queue[0] { assert all[|taken| + i + 1] == queue[i + 1]; }
  }

  lemma {:induction false} WithoutMore(xs: seq<JobId>, out: set<JobId>, x: JobId)
    requires x !in xs
    ensures Without(xs, out + {x}) == Without(xs, out)
  {
    if xs != [] {
      WithoutMore(xs[..|xs| - 1], out, x);
    }
  }

  lemma StepKeepsBegun(s: State, step: Step)
    requires Enabled(s, step) && Inv(s)
    ensures BegunOk(Do(s, step))
  {
    var t := Do(s, step);
    match step
    case Take =>
      NotTwice(s.taken, s.queue);
      WithoutMore(s.taken, NotBegun(s), s.queue[0]);
      assert NotBegun(t) == NotBegun(s) + {s.queue[0]};
      assert t.taken[..|t.taken| - 1] == s.taken;
    case LookUp => assert Placed(s, s.work.value.id);
    case NoContext(_) => assert NotBegun(t) == NotBegun(s);
    case Begin =>
      assert Placed(s, s.work.value.id);
      BeginBegins(s);
    case _ => assert NotBegun(t) == NotBegun(s);
  }

  lemma BeginBegins(s: State)
    requires Enabled(s, Begin) && Inv(s) && s.work.value.id !in s.broken
    ensures BegunOk(Do(s, Begin))
  {
    var id, t, n := s.work.value.id, Do(s, Begin), |s.taken| - 1;
    assert Placed(s, id);
    assert NotBegun(s) == NotBegun(t) + {id};
    assert s.taken == s.taken[..n] + [id];
    assert (s.taken + s.queue)[n] == id;
    assert forall i :: 0 <= i < n ==> s.taken[i] == (s.taken + s.queue)[i];
    WithoutMore(s.taken[..n], NotBegun(t), id);
  }

  lemma {:induction false} RunKeeps(states: seq<State>, steps: seq<Step>, n: nat)
    requires Run(states, steps) && n < |states|
    ensures Inv(states[n])
  {
    if n > 0 {
      RunKeeps(states, steps, n - 1);
      var s, step := states[n - 1], steps[n - 1];
      StepKeepsListed(s, step);
      StepKeepsLined(s, step);
      StepKeepsBegun(s, step);
      forall x ensures Placed(Do(s, step), x) {
        if step.Submit? { SubmitPlaces(s, step.id, step.verb, x); } else { StepPlaces(s, step, x); }
      }
    }
  }

  // --- what every run guarantees ------------------------------------------------------------

  /** How often an id is on the queue. */
  function OnQueue(s: State, x: JobId): nat { multiset(s.queue)[x] }

  lemma {:induction false} DistinctOnce(xs: seq<JobId>, x: JobId)
    requires Distinct(xs)
    ensures multiset(xs)[x] == if x in xs then 1 else 0
  {
    if xs != [] {
      assert xs == [xs[0]] + xs[1..];
      assert forall i :: 0 <= i < |xs[1..]| ==> xs[1..][i] == xs[i + 1];
      DistinctOnce(xs[1..], x);
    }
  }

  /** No submitted job is lost: it is in the history, and either about to be put on the
      queue, or on it exactly once, or the one the worker has, or finished, or one whose
      context could not be built; and only a finished one leaves the history. */
  lemma NoJobIsLost(states: seq<State>, steps: seq<Step>, n: nat, x: JobId)
    requires Run(states, steps) && n < |states| && Used(states[n], x)
    ensures x in states[n].jobs && !Finished(states[n].jobs[x]) ==>
              x in states[n].putting || OnQueue(states[n], x) == 1 || Held(states[n], x) || x in states[n].stranded
    ensures x in states[n].putting || OnQueue(states[n], x) > 0 || Held(states[n], x) || x in states[n].stranded ==>
              x in states[n].jobs && !Finished(states[n].jobs[x])
    ensures x !in states[n].jobs ==> x in states[n].begun || x in states[n].broken
  {
    RunKeeps(states, steps, n);
    var s := states[n];
    assert Placed(s, x);
    var all := s.taken + s.queue;
    assert forall i :: 0 <= i < |s.queue| ==> s.queue[i] == all[|s.taken| + i];
    DistinctOnce(s.queue, x);
    if x in s.taken && x !in NotBegun(s) {
      WithoutHas(s.taken, NotBegun(s), x);
    }
  }

  lemma {:induction false} WithoutHas(xs: seq<JobId>, out: set<JobId>, x: JobId)
    requires x in xs && x !in out
    ensures x in Without(xs, out)
  {
    var n := |xs| - 1;
    if xs[n] != x {
      assert xs == xs[..n] + [xs[n]];
      WithoutHas(xs[..n], out, x);
    }
  }

  /** A job is running exactly when it is the one the worker is executing. */
  lemma OneRunsAtATime(states: seq<State>, steps: seq<Step>, n: nat, x: JobId)
    requires Run(states, steps) && n < |states|
    ensures Has(states[n], x, Running) <==> states[n].work == Some(Executing(x))
  {
    RunKeeps(states, steps, n);
    assert Placed(states[n], x);
  }

  /** The job the worker takes is always still in the history. */
  lemma LookUpFinds(states: seq<State>, steps: seq<Step>, n: nat)
    requires Run(states, steps) && n < |states| && states[n].work.Some?
    ensures states[n].work.value.id in states[n].jobs
  {
    RunKeeps(states, steps, n);
    assert Placed(states[n], states[n].work.value.id);
  }

  lemma {:induction false} WithoutKeepsOrder(xs: seq<JobId>, out: set<JobId>, k: nat) returns (i: nat)
    requires k < |Without(xs, out)|
    ensures i < |xs| && xs[i] == Without(xs, out)[k] && xs[i] !in out && k <= i
    ensures Without(xs[..i], out) == Without(xs, out)[..k]
  {
    var n := |xs| - 1;
    var rest := Without(xs[..n], out);
    if k == |rest| {
      i := n;
      WithoutShorter(xs[..n], out);
    } else {
      i := WithoutKeepsOrder(xs[..n], out, k);
      assert xs[..n][..i] == xs[..i];
      assert Without(xs, out)[..k] == rest[..k];
    }
  }

  lemma {:induction false} WithoutShorter(xs: seq<JobId>, out: set<JobId>)
    ensures |Without(xs, out)| <= |xs|
  {
    if xs != [] { WithoutShorter(xs[..|xs| - 1], out); }
  }

  /** Every job is executed at most once, and jobs are executed in the order they were put
      on the queue: what is executed `j`-th was put before what is executed `k`-th. */
  lemma RunsOnceInOrder(states: seq<State>, steps: seq<Step>, n: nat, j: nat, k: nat) returns (a: nat, b: nat)
    requires Run(states, steps) && n < |states| && j < k < |states[n].begun|
    ensures states[n].begun[j] != states[n].begun[k]
    ensures a < b < |states[n].taken| && states[n].taken[a] == states[n].begun[j] && states[n].taken[b] == states[n].begun[k]
  {
    RunKeeps(states, steps, n);
    var s := states[n];
    b := WithoutKeepsOrder(s.taken, NotBegun(s), k);
    assert s.begun[j] == Without(s.taken[..b], NotBegun(s))[j];
    a := WithoutKeepsOrder(s.taken[..b], NotBegun(s), j);
    assert (s.taken + s.queue)[a] == s.taken[a] && (s.taken + s.queue)[b] == s.taken[b];
  }

  /** What has been taken and what is on the queue grow only at the queue's end. */
  lemma {:induction false} QueueOnlyGrows(states: seq<State>, steps: seq<Step>, a: nat, b: nat)
    requires Run(states, steps) && a <= b < |states|
    ensures states[a].taken + states[a].queue <= states[b].taken + states[b].queue
    decreases b - a
  {
    if a < b {
      QueueOnlyGrows(states, steps, a, b - 1);
      var s, t := states[b - 1], states[b];
      if steps[b - 1].Put? {
        assert t.taken + t.queue == (s.taken + s.queue) + [steps[b - 1].id];
      } else {
        assert t.taken + t.queue == s.taken + s.queue;
      }
    }
  }

  /** _busy_with. */
  predicate BusyWith(jobs: map<JobId, Job>, verb: string) {
    exists x :: x in jobs && jobs[x].verb == verb && (jobs[x].state == Queued || jobs[x].state == Running)
  }

  /** A verb is busy while a job of its is not finished. */
  lemma BusyMeans(jobs: map<JobId, Job>, verb: string)
    ensures BusyWith(jobs, verb) <==> exists x :: x in jobs && jobs[x].verb == verb && jobs[x].state != Done && jobs[x].state != Failed
  {
  }

  predicate StrandedJob(s: State, x: JobId, verb: string) {
    x in s.stranded && x in s.jobs && s.jobs[x].verb == verb
  }

  lemma StaysStranded(s: State, step: Step, x: JobId, verb: string)
    requires Enabled(s, step) && Inv(s) && StrandedJob(s, x, verb)
    ensures StrandedJob(Do(s, step), x, verb)
  {
    assert Placed(s, x);
    if step.Submit? {
      SubmitKeeps(s, step.id, step.verb);
    }
  }

  lemma {:induction false} StrandedStays(states: seq<State>, steps: seq<Step>, a: nat, b: nat, x: JobId, verb: string)
    requires Run(states, steps) && a <= b < |states| && StrandedJob(states[a], x, verb)
    ensures StrandedJob(states[b], x, verb)
    decreases b - a
  {
    if a < b {
      StrandedStays(states, steps, a, b - 1, x, verb);
      RunKeeps(states, steps, b - 1);
      assert Enabled(states[b - 1], steps[b - 1]) && states[b] == Do(states[b - 1], steps[b - 1]);
      StaysStranded(states[b - 1], steps[b - 1], x, verb);
    }
  }

  /** A job whose context could not be built, by a ValueError or RuntimeError, stays queued
      for good, so its verb looks busy ever after and is not scheduled again. */
  lemma StrandedForGood(states: seq<State>, steps: seq<Step>, a: nat, b: nat, x: JobId, verb: string)
    requires Run(states, steps) && a <= b < |states| && StrandedJob(states[a], x, verb)
    ensures Has(states[b], x, Queued) && BusyWith(states[b].jobs, verb)
  {
    StrandedStays(states, steps, a, b, x, verb);
    RunKeeps(states, steps, b);
    assert Placed(states[b], x);
  }

  /** A run that strands a job: its context could not be built and the exception was swallowed. */
  lemma StrandingRun() returns (states: seq<State>, steps: seq<Step>)
    ensures Run(states, steps) && StrandedJob(states[|steps|], "a", "up")
  {
    var jobs := map["a" := Job("up", Queued)];
    var s1 := State(["a"], jobs, {"a"}, [], None, [], [], {}, {});
    var s2 := s1.(putting := {}, queue := ["a"]);
    var s3 := s2.(queue := [], work := Some(Taken("a")), taken := ["a"]);
    var s4 := s3.(work := Some(Found("a")));
    var s5 := s4.(work := None, stranded := {"a"});
    steps := [Submit("a", "up"), Put("a"), Take, LookUp, NoContext(true)];
    states := [Empty(), s1, s2, s3, s4, s5];
    assert Keep(jobs, ["a"]) == jobs && map["a" := Job("up", Queued)] == map[]["a" := Job("up", Queued)];
    assert [] + ["a"] == ["a"];
    assert Do(Empty(), Submit("a", "up")) == s1;
    assert Do(s1, Put("a")) == s2;
    assert ["a"][1..] == [];
    assert Do(s2, Take) == s3;
    assert Do(s3, LookUp) == s4;
    assert Do(s4, NoContext(true)) == s5;
  }

  /** Nothing gets stuck: a job handed in can be queued, an idle worker takes the next one,
      and a busy one can go on, however its context and the job itself turn out. */
  lemma NeverStuck(s: State)
    ensures forall id, verb :: !Used(s, id) ==> Enabled(s, Submit(id, verb))
    ensures forall id :: id in s.putting ==> Enabled(s, Put(id))
    ensures s.work == None && s.queue != [] ==> Enabled(s, Take)
    ensures s.work.Some? ==>
              match s.work.value
              case Taken(_) => Enabled(s, LookUp)
              case Found(_) => Enabled(s, Begin) && forall swallowed :: Enabled(s, NoContext(swallowed))
              case Executing(_) => forall ok :: Enabled(s, End(ok))
  {
  }
}
