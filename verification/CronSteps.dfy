/** Cron ticks as an interleaving of steps (kelso/lib/lifecycle/cron.py): the clock and
    the rest of the host go on between any two of them. Instants are microseconds. */
module CronSteps {
  import opened Wrappers
  import opened Orders
  import opened CronSearch

  const SECOND: int := 1_000_000
  const MINUTE: int := 60 * SECOND

  datatype Job = Job(app: string, name: string)

  /** A loaded app's cron job, as a tick finds it: its manifest's schedule, when the app
      was loaded, and whether the unit its command runs in is up. */
  datatype Entry = Entry(job: Job, schedule: CronSchedule, loadedAt: Option<nat>, runnable: bool)

  /** A job's next run: the first scheduled minute after the instant `since`. */
  datatype CronRun = CronRun(job: Job, schedule: CronSchedule, since: nat, nextAt: nat, runnable: bool)

  /** The first scheduled minute after an instant (_next), or none: a ValueError. */
  function Next(s: CronSchedule, since: nat): Option<nat> {
    FirstAfter(s, since / MINUTE)
  }

  /** What a job waits from: when it last ran, or else when its app was loaded. `last`
      holds whole seconds, as they are written to the activity log. */
  function Since(e: Entry, last: map<Job, nat>, now: nat): nat {
    if e.job in last then last[e.job] * SECOND
    else if e.loadedAt.Some? then e.loadedAt.value
    else now
  }

  function NextRun(e: Entry, last: map<Job, nat>, now: nat): Option<CronRun> {
    var since := Since(e, last, now);
    var next := Next(e.schedule, since);
    if next.None? then None else Some(CronRun(e.job, e.schedule, since, next.value, e.runnable))
  }

  /** The next runs in the order the jobs were found, unless one of them raises. */
  function NextRuns(entries: seq<Entry>, last: map<Job, nat>, now: nat): Option<seq<CronRun>> {
    if entries == [] then Some([])
    else
      var before := NextRuns(entries[..|entries| - 1], last, now);
      var next := NextRun(entries[|entries| - 1], last, now);
      if before.None? || next.None? then None else Some(before.value + [next.value])
  }

  /** Soonest first, then by app and name. */
  predicate RunsBefore(a: CronRun, b: CronRun) {
    if a.nextAt != b.nextAt then a.nextAt < b.nextAt
    else if a.job.app != b.job.app then LexLeq(a.job.app, b.job.app)
    else LexLeq(a.job.name, b.job.name)
  }

  /** Of two runs the sooner comes before; at the same minute the one of the app that comes
      first by name, and of one app's the job that does. */
  lemma RunsBeforeMeans(a: CronRun, b: CronRun)
    ensures RunsBefore(a, b) <==>
            || a.nextAt < b.nextAt
            || (a.nextAt == b.nextAt && ComesAfter(b.job.app, a.job.app))
            || (a.nextAt == b.nextAt && a.job.app == b.job.app && !ComesAfter(a.job.name, b.job.name))
  {
    LexMeans(a.job.app, b.job.app);
    LexMeans(a.job.name, b.job.name);
    LexMeans(b.job.name, a.job.name);
    LexTotal(a.job.name, b.job.name);
  }

  /** cron_runs: every job's next run, soonest first. One schedule that never matches
      leaves none of them. */
  function CronRuns(entries: seq<Entry>, last: map<Job, nat>, now: nat): Option<seq<CronRun>> {
    var runs := NextRuns(entries, last, now);
    if runs.None? then None else Some(Sort(runs.value, RunsBefore))
  }

  /** Each app is looked at once, and its manifest names each of its jobs once. */
  predicate DistinctJobs(entries: seq<Entry>) {
    forall i, j :: 0 <= i < j < |entries| ==> entries[i].job != entries[j].job
  }

  predicate Due(r: CronRun, now: nat) { r.nextAt * MINUTE <= now && r.runnable }

  // --- the steps ----------------------------------------------------------------------------

  /** Where the tick that holds the cron lock has got to. */
  datatype Tick =
    | Locked
    | Listing(now: nat)
    | Working(now: nat, todo: seq<CronRun>)
    | Running(now: nat, todo: seq<CronRun>, job: Job)

  /** A run that was recorded: by which tick, at what time, and the time the tick took as now. */
  datatype Fired = Fired(run: CronRun, at: nat, now: nat, tick: nat)

  /** `last` is what the activity log says of each job; `ticks` counts the ticks begun. */
  datatype State = State(clock: nat, last: map<Job, nat>, tick: Option<Tick>, ticks: nat, fired: seq<Fired>)

  datatype Step =
    | Wait(d: nat)                   // the clock goes on
    | TryTick                        // a tick that finds another one running does nothing
    | SampleNow
    | List(entries: seq<Entry>)      // whatever the host then shows
    | TakeNext(recorded: bool)       // `recorded`: both locks were got and the log was written
    | JobEnds                        // with whatever exit status, or by raising
    | TickEnds
    | Crash

  predicate Enabled(s: State, step: Step) {
    match step
    case Wait(_) => true
    case TryTick => true
    case SampleNow => s.tick == Some(Locked)
    case List(entries) => s.tick.Some? && s.tick.value.Listing? && DistinctJobs(entries)
    case TakeNext(_) => s.tick.Some? && s.tick.value.Working? && s.tick.value.todo != []
    case JobEnds => s.tick.Some? && s.tick.value.Running?
    case TickEnds => s.tick.Some? && s.tick.value.Working? && s.tick.value.todo == []
    case Crash => true
  }

  function Do(s: State, step: Step): State
    requires Enabled(s, step)
  {
    match step
    case Wait(d) => s.(clock := s.clock + d)
    case TryTick => if s.tick.Some? then s else s.(tick := Some(Locked), ticks := s.ticks + 1)
    case SampleNow => s.(tick := Some(Listing(s.clock)))
    case List(entries) =>
      var runs := CronRuns(entries, s.last, s.clock);
      s.(tick := if runs.None? then None else Some(Working(s.tick.value.now, runs.value)))
    case TakeNext(recorded) =>
      var Working(now, todo) := s.tick.value;
      var r := todo[0];
      if !Due(r, now) || !recorded then s.(tick := Some(Working(now, todo[1..])))
      else s.(tick := Some(Running(now, todo[1..], r.job)),
              last := s.last[r.job := s.clock / SECOND],
              fired := s.fired + [Fired(r, s.clock, now, s.ticks)])
    case JobEnds => s.(tick := Some(Working(s.tick.value.now, s.tick.value.todo)))
    case TickEnds => s.(tick := None)
    case Crash => s.(tick := None)
  }

  /** A run from a host where no tick is going and nothing has run yet; `before` is what
      the activity log held. */
  predicate Run(before: map<Job, nat>, states: seq<State>, steps: seq<Step>) {
    && |states| == |steps| + 1
    && states[0].tick == None && states[0].fired == [] && states[0].ticks == 0 && states[0].last == before
    && forall i :: 0 <= i < |steps| ==> Enabled(states[i], steps[i]) && states[i + 1] == Do(states[i], steps[i])
  }

  // --- what stays true ----------------------------------------------------------------------

  /** What the activity log says after the recorded runs. */
  function Recorded(before: map<Job, nat>, fired: seq<Fired>): map<Job, nat> {
    if fired == [] then before
    else
      var f := fired[|fired| - 1];
      Recorded(before, fired[..|fired| - 1])[f.run.job := f.at / SECOND]
  }

  /** The run is at the first scheduled minute after the instant it waited from. */
  predicate FromSince(r: CronRun) { Next(r.schedule, r.since) == Some(r.nextAt) }

  /** And that instant is the job's last recorded run, if it has one. */
  predicate FromLast(r: CronRun, last: map<Job, nat>) {
    r.job in last ==> r.since == last[r.job] * SECOND
  }

  predicate TodoJobs(todo: seq<CronRun>) {
    forall i, j :: 0 <= i < j < |todo| ==> todo[i].job != todo[j].job
  }

  predicate FromLog(todo: seq<CronRun>, last: map<Job, nat>) {
    forall i :: 0 <= i < |todo| ==> FromSince(todo[i]) && FromLast(todo[i], last)
  }

  /** What the going tick has recorded comes before what it has still to do. */
  predicate Ahead(fired: seq<Fired>, tick: nat, todo: seq<CronRun>) {
    forall i, k :: 0 <= i < |fired| && fired[i].tick == tick && 0 <= k < |todo| ==>
      fired[i].run.job != todo[k].job && RunsBefore(fired[i].run, todo[k])
  }

  predicate TodoOk(s: State, now: nat, todo: seq<CronRun>) {
    now <= s.clock && TodoJobs(todo) && FromLog(todo, s.last)
  }

  predicate TickOk(s: State) {
    s.tick.Some? ==>
      match s.tick.value
      case Locked => true
      case Listing(now) => now <= s.clock
      case Working(now, todo) => TodoOk(s, now, todo)
      case Running(now, todo, _) => TodoOk(s, now, todo)
  }

  /** Each recorded run was due when its tick began, at the time the log then gave. */
  predicate FiredOk(before: map<Job, nat>, fired: seq<Fired>, i: nat)
    requires i < |fired|
  {
    var f := fired[i];
    && FromSince(f.run) && FromLast(f.run, Recorded(before, fired[..i]))
    && Due(f.run, f.now) && f.now <= f.at
  }

  predicate InTime(fired: seq<Fired>, clock: nat) {
    && (forall i, j :: 0 <= i < j < |fired| ==> fired[i].at <= fired[j].at)
    && (forall i :: 0 <= i < |fired| ==> fired[i].at <= clock)
  }

  predicate LogOk(before: map<Job, nat>, s: State) {
    && s.last == Recorded(before, s.fired)
    && InTime(s.fired, s.clock)
    && forall i :: 0 <= i < |s.fired| ==> FiredOk(before, s.fired, i)
  }

  function Todo(s: State): seq<CronRun> {
    if s.tick.None? then []
    else match s.tick.value
         case Working(_, todo) => todo
         case Running(_, todo, _) => todo
         case _ => []
  }

  ghost predicate TodoSorted(s: State) { Sorted(Todo(s), RunsBefore) }

  /** Within each tick, no job runs twice and the runs are in the order of their times. */
  predicate InOrder(fired: seq<Fired>) {
    forall i, j :: 0 <= i < j < |fired| && fired[i].tick == fired[j].tick ==>
      fired[i].run.job != fired[j].run.job && RunsBefore(fired[i].run, fired[j].run)
  }

  predicate TicksCounted(s: State) {
    && (forall i :: 0 <= i < |s.fired| ==> s.fired[i].tick <= s.ticks)
    && (s.tick.Some? && !(s.tick.value.Working? || s.tick.value.Running?) ==>
         forall i :: 0 <= i < |s.fired| ==> s.fired[i].tick < s.ticks)
  }

  ghost predicate OrderOk(s: State) {
    TicksCounted(s) && TodoSorted(s) && Ahead(s.fired, s.ticks, Todo(s)) && InOrder(s.fired)
  }

  // --- the list a tick works through ----------------------------------------------------------

  lemma RunsBeforeIsOrder()
    ensures KeyOrder(RunsBefore)
  {
    forall a, b ensures RunsBefore(a, b) || RunsBefore(b, a) {
      LexTotal(a.job.app, b.job.app);
      LexTotal(a.job.name, b.job.name);
    }
    forall a, b, c | RunsBefore(a, b) && RunsBefore(b, c) ensures RunsBefore(a, c) {
      RunsBeforeTransitive(a, b, c);
    }
  }

  lemma RunsBeforeTransitive(a: CronRun, b: CronRun, c: CronRun)
    requires RunsBefore(a, b) && RunsBefore(b, c)
    ensures RunsBefore(a, c)
  {
    if a.nextAt == b.nextAt == c.nextAt {
      if a.job.app == b.job.app == c.job.app {
        LexTransitive(a.job.name, b.job.name, c.job.name);
      } else if a.job.app != b.job.app && b.job.app != c.job.app {
        LexTransitive(a.job.app, b.job.app, c.job.app);
        LexTotal(a.job.app, b.job.app);
      }
    }
  }

  /** `r` is the job's next run, going by the log. */
  predicate Follows(r: CronRun, last: map<Job, nat>) { FromSince(r) && FromLast(r, last) }

  /** The run that an entry leads to. */
  /** `r` is the job's next run: at the first minute of its schedule after it last ran, or
      else after its app was loaded, or else after now. */
  predicate RunOf(e: Entry, r: CronRun, last: map<Job, nat>, now: nat) {
    && r.job == e.job && r.schedule == e.schedule && r.runnable == e.runnable
    && r.since == (if e.job in last then last[e.job] * 1_000_000 else if e.loadedAt.Some? then e.loadedAt.value else now)
    && Next(e.schedule, r.since) == Some(r.nextAt)
  }

  lemma NextRunIs(e: Entry, r: CronRun, last: map<Job, nat>, now: nat)
    ensures NextRun(e, last, now) == Some(r) <==> RunOf(e, r, last, now)
  {
  }

  lemma RunFollows(e: Entry, r: CronRun, last: map<Job, nat>, now: nat)
    requires RunOf(e, r, last, now)
    ensures r.job == e.job && Follows(r, last)
  {
  }

  /** The next runs are those of the entries, one each. */
  lemma {:induction false} NextRunsAre(entries: seq<Entry>, last: map<Job, nat>, now: nat)
    requires NextRuns(entries, last, now).Some?
    ensures var runs := NextRuns(entries, last, now).value;
            |runs| == |entries| && forall i :: 0 <= i < |runs| ==> RunOf(entries[i], runs[i], last, now)
  {
    if entries != [] {
      NextRunsAre(entries[..|entries| - 1], last, now);
    }
  }

  lemma RunsFollow(entries: seq<Entry>, runs: seq<CronRun>, last: map<Job, nat>, now: nat)
    requires DistinctJobs(entries)
    requires |runs| == |entries| && forall i :: 0 <= i < |runs| ==> RunOf(entries[i], runs[i], last, now)
    ensures TodoJobs(runs) && forall r :: r in runs ==> Follows(r, last)
  {
    forall i | 0 <= i < |runs| ensures runs[i].job == entries[i].job && Follows(runs[i], last) {
      RunFollows(entries[i], runs[i], last, now);
    }
  }

  lemma SortedRuns(runs: seq<CronRun>, last: map<Job, nat>)
    requires TodoJobs(runs) && forall r :: r in runs ==> Follows(r, last)
    ensures var todo := Sort(runs, RunsBefore);
            && Sorted(todo, RunsBefore) && TodoJobs(todo) && FromLog(todo, last)
            && forall r :: r in runs <==> r in todo
  {
    var todo := Sort(runs, RunsBefore);
    RunsBeforeIsOrder();
    SortSorts(runs, RunsBefore);
    SortedJobs(runs, todo);
    forall r ensures r in runs <==> r in todo {
      assert r in runs <==> r in multiset(runs);
      assert r in todo <==> r in multiset(todo);
    }
    forall i | 0 <= i < |todo| ensures FromSince(todo[i]) && FromLast(todo[i], last) {
      assert todo[i] in todo;
    }
  }

  /** The list has the job's next run. */
  ghost predicate HasRun(todo: seq<CronRun>, e: Entry, last: map<Job, nat>, now: nat) {
    exists r :: r in todo && RunOf(e, r, last, now)
  }

  lemma ListedRuns(entries: seq<Entry>, runs: seq<CronRun>, todo: seq<CronRun>, last: map<Job, nat>, now: nat)
    requires |runs| == |entries| && forall i :: 0 <= i < |runs| ==> RunOf(entries[i], runs[i], last, now)
    requires forall r :: r in runs <==> r in todo
    ensures forall i :: 0 <= i < |entries| ==> HasRun(todo, entries[i], last, now)
    ensures forall r :: r in todo ==> exists i :: 0 <= i < |entries| && RunOf(entries[i], r, last, now)
  {
    forall i | 0 <= i < |entries| ensures HasRun(todo, entries[i], last, now) {
      assert runs[i] in runs;
      assert runs[i] in todo && RunOf(entries[i], runs[i], last, now);
    }
    forall r | r in todo ensures exists i :: 0 <= i < |entries| && RunOf(entries[i], r, last, now) {
      var i :| 0 <= i < |runs| && runs[i] == r;
      assert RunOf(entries[i], r, last, now);
    }
  }

  /** What a tick lists: the next run of every job found, soonest first. */
  lemma ListIs(entries: seq<Entry>, last: map<Job, nat>, now: nat)
    requires DistinctJobs(entries) && CronRuns(entries, last, now).Some?
    ensures var todo := CronRuns(entries, last, now).value;
            && Sorted(todo, RunsBefore) && TodoJobs(todo) && FromLog(todo, last)
            && (forall i :: 0 <= i < |entries| ==> HasRun(todo, entries[i], last, now))
            && (forall r :: r in todo ==> exists i :: 0 <= i < |entries| && RunOf(entries[i], r, last, now))
  {
    var runs := NextRuns(entries, last, now).value;
    NextRunsAre(entries, last, now);
    RunsFollow(entries, runs, last, now);
    SortedRuns(runs, last);
    ListedRuns(entries, runs, CronRuns(entries, last, now).value, last, now);
  }

  /** Rearranging runs of different jobs leaves runs of different jobs. */
  lemma SortedJobs(runs: seq<CronRun>, todo: seq<CronRun>)
    requires TodoJobs(runs) && multiset(runs) == multiset(todo)
    ensures TodoJobs(todo)
  {
    forall i, j | 0 <= i < j < |todo| ensures todo[i].job != todo[j].job {
      if todo[i].job == todo[j].job {
        assert todo[i] in multiset(runs) && todo[j] in multiset(runs);
        assert todo[i] == todo[j];
        assert todo == todo[..i] + [todo[i]] + todo[i + 1..j] + [todo[j]] + todo[j + 1..];
        assert multiset(todo)[todo[i]] >= 2;
        Twice(runs, todo[i]);
      }
    }
  }

  lemma {:induction false} Twice(runs: seq<CronRun>, r: CronRun)
    requires multiset(runs)[r] >= 2
    ensures exists i, j :: 0 <= i < j < |runs| && runs[i] == r && runs[j] == r
  {
    assert runs == [runs[0]] + runs[1..];
    if runs[0] == r {
      assert r in multiset(runs[1..]);
      var j :| 0 <= j < |runs[1..]| && runs[1..][j] == r;
      assert runs[0] == r && runs[j + 1] == r;
    } else {
      Twice(runs[1..], r);
      var i, j :| 0 <= i < j < |runs[1..]| && runs[1..][i] == r && runs[1..][j] == r;
      assert runs[i + 1] == r && runs[j + 1] == r;
    }
  }

  // --- each step keeps it ---------------------------------------------------------------------

  lemma OneMoreFired(before: map<Job, nat>, fired: seq<Fired>, f: Fired)
    requires forall i :: 0 <= i < |fired| ==> FiredOk(before, fired, i)
    requires FromSince(f.run) && FromLast(f.run, Recorded(before, fired)) && Due(f.run, f.now) && f.now <= f.at
    ensures forall i :: 0 <= i < |fired + [f]| ==> FiredOk(before, fired + [f], i)
  {
    var all := fired + [f];
    forall i | 0 <= i < |all| ensures FiredOk(before, all, i) {
      assert all[..i] == if i < |fired| then fired[..i] else fired;
      if i < |fired| { assert FiredOk(before, fired, i); }
    }
  }

  /** One run more in the record, of a job that was due by what the log said. */
  lemma LogWithOneMore(before: map<Job, nat>, s: State, t: State, f: Fired)
    requires LogOk(before, s) && FromSince(f.run) && FromLast(f.run, s.last) && Due(f.run, f.now) && f.now <= f.at == s.clock
    requires t.fired == s.fired + [f] && t.clock == s.clock && t.last == s.last[f.run.job := f.at / SECOND]
    ensures LogOk(before, t)
  {
    assert t.fired[..|t.fired| - 1] == s.fired;
    OneMoreFired(before, s.fired, f);
  }

  /** No run more. */
  lemma LogAsBefore(before: map<Job, nat>, s: State, t: State)
    requires LogOk(before, s) && t.fired == s.fired && t.last == s.last && s.clock <= t.clock
    ensures LogOk(before, t)
  {
  }

  lemma StepKeepsLog(before: map<Job, nat>, s: State, step: Step)
    requires Enabled(s, step) && TickOk(s) && LogOk(before, s)
    ensures LogOk(before, Do(s, step))
  {
    var t := Do(s, step);
    if step == TakeNext(true) && Due(s.tick.value.todo[0], s.tick.value.now) {
      LogWithOneMore(before, s, t, Fired(s.tick.value.todo[0], s.clock, s.tick.value.now, s.ticks));
    } else {
      LogAsBefore(before, s, t);
    }
  }

  lemma StepKeepsTick(s: State, step: Step)
    requires Enabled(s, step) && TickOk(s)
    ensures TickOk(Do(s, step))
  {
    match step
    case List(entries) =>
      if CronRuns(entries, s.last, s.clock).Some? {
        ListIs(entries, s.last, s.clock);
      }
    case TakeNext(_) =>
      var todo := s.tick.value.todo;
      assert forall i :: 0 <= i < |todo[1..]| ==> todo[1..][i] == todo[i + 1];
    case _ =>
  }

  lemma FirstIsSoonest(fired: seq<Fired>, tick: nat, todo: seq<CronRun>, f: Fired)
    requires todo != [] && TodoJobs(todo) && Sorted(todo, RunsBefore) && Ahead(fired, tick, todo) && InOrder(fired)
    requires forall i :: 0 <= i < |fired| ==> fired[i].tick <= tick
    requires f.run == todo[0] && f.tick == tick
    ensures Sorted(todo[1..], RunsBefore) && Ahead(fired, tick, todo[1..])
    ensures Ahead(fired + [f], tick, todo[1..]) && InOrder(fired + [f])
  {
    assert forall i :: 0 <= i < |todo[1..]| ==> todo[1..][i] == todo[i + 1];
  }

  lemma StepKeepsOrder(s: State, step: Step)
    requires Enabled(s, step) && TickOk(s) && OrderOk(s)
    ensures OrderOk(Do(s, step))
  {
    if step.List? {
      if CronRuns(step.entries, s.last, s.clock).Some? {
        ListIs(step.entries, s.last, s.clock);
      }
    } else if step.TakeNext? {
      var todo := s.tick.value.todo;
      FirstIsSoonest(s.fired, s.ticks, todo, Fired(todo[0], s.clock, s.tick.value.now, s.ticks));
    }
  }

  lemma {:induction false} RunKeeps(before: map<Job, nat>, states: seq<State>, steps: seq<Step>, n: nat)
    requires Run(before, states, steps) && n < |states|
    ensures TickOk(states[n]) && LogOk(before, states[n]) && OrderOk(states[n])
  {
    if n > 0 {
      RunKeeps(before, states, steps, n - 1);
      StepKeepsLog(before, states[n - 1], steps[n - 1]);
      StepKeepsTick(states[n - 1], steps[n - 1]);
      StepKeepsOrder(states[n - 1], steps[n - 1]);
    }
  }

  /** Nothing gets stuck: a tick that holds the lock can go on, taking its jobs in turn and
      then ending, whatever it lists; time passes and ticks begin and die at any time. */
  lemma NeverStuck(s: State)
    ensures forall d :: Enabled(s, Wait(d))
    ensures Enabled(s, TryTick) && Enabled(s, Crash)
    ensures s.tick.Some? ==>
              match s.tick.value
              case Locked => Enabled(s, SampleNow)
              case Listing(_) => forall entries :: Enabled(s, List(entries)) <==> DistinctJobs(entries)
              case Working(_, todo) => if todo == [] then Enabled(s, TickEnds) else forall recorded :: Enabled(s, TakeNext(recorded))
              case Running(_, _, _) => Enabled(s, JobEnds)
  {
  }

  /** A tick that begins takes the time, lists and goes on with what there is to do. */
  lemma TickLists(s: State, entries: seq<Entry>, todo: seq<CronRun>)
    requires s.tick == None && DistinctJobs(entries) && CronRuns(entries, s.last, s.clock) == Some(todo)
    ensures var t1 := Do(s, TryTick);
            Enabled(t1, SampleNow) &&
            var t2 := Do(t1, SampleNow);
            Enabled(t2, List(entries)) &&
            Do(t2, List(entries)) == s.(tick := Some(Working(s.clock, todo)), ticks := s.ticks + 1)
  {
  }
}
