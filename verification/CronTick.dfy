/** What every run of cron ticks guarantees, and a tick's own loop
    (kelso/lib/lifecycle/cron.py). */
module CronTick {
  import opened Wrappers
  import opened Orders
  import opened CronSearch
  import opened CronSteps

  // --- a scheduled minute for every run -----------------------------------------------------

  /** Between the log's state after one run and after a later one, it never goes back. */
  lemma {:induction false} LogMovesOn(before: map<Job, nat>, fired: seq<Fired>, clock: nat, i: nat)
    requires InTime(fired, clock) && i < |fired|
    ensures fired[i].run.job in Recorded(before, fired)
    ensures fired[i].at / SECOND <= Recorded(before, fired)[fired[i].run.job]
  {
    var n := |fired| - 1;
    if i < n {
      LogMovesOn(before, fired[..n], clock, i);
      assert fired[..n][i] == fired[i];
      assert fired[i].at <= fired[n].at;
    }
  }

  /** Past the whole second an instant is in, the next minute is past the instant. */
  lemma PastTheSecond(at: nat, minute: nat)
    requires minute * MINUTE > at / SECOND * SECOND
    ensures minute * MINUTE > at
  {
    assert minute * MINUTE == minute * 60 * SECOND;
    assert minute * 60 > at / SECOND;
    assert minute * 60 >= at / SECOND + 1;
  }

  lemma MinuteAfter(since: nat, n: nat)
    ensures since < n * MINUTE <==> since / MINUTE + 1 <= n
  {
  }

  /** The first scheduled minute after an instant is after it, and none before it is. */
  lemma NextIsFirst(s: CronSchedule, since: nat)
    requires Next(s, since).Some?
    ensures var next := Next(s, since).value;
            Fits(s, next) && since < next * MINUTE && Skippable(s, since / MINUTE + 1, next)
  {
    MinuteAfter(since, Next(s, since).value);
  }

  lemma NoneSooner(s: CronSchedule, since: nat, n: nat)
    requires Next(s, since).Some? && Fits(s, n) && since < n * MINUTE
    ensures Next(s, since).value <= n
  {
    NextIsFirst(s, since);
    MinuteAfter(since, n);
  }

  /** Two runs of one job have a scheduled minute of its between them: after the first,
      and no later than the time the second one's tick began. */
  lemma MinuteBetweenRuns(before: map<Job, nat>, states: seq<State>, steps: seq<Step>, n: nat, i: nat, k: nat)
    requires Run(before, states, steps) && n < |states| && i < k < |states[n].fired|
    requires states[n].fired[i].run.job == states[n].fired[k].run.job
    ensures var first, second := states[n].fired[i], states[n].fired[k];
            && Fits(second.run.schedule, second.run.nextAt)
            && first.at < second.run.nextAt * MINUTE <= second.now <= second.at
  {
    RunKeeps(before, states, steps, n);
    var fired := states[n].fired;
    var second := fired[k];
    assert FiredOk(before, fired, k);
    assert fired[..k][i] == fired[i];
    LogMovesOn(before, fired[..k], states[n].clock, i);
    NextIsFirst(second.run.schedule, second.run.since);
    PastTheSecond(fired[i].at, second.run.nextAt);
  }

  /** So a missed stretch runs once: having run, a job does not run again on a schedule
      with no minute since. */
  lemma MissedStretchRunsOnce(before: map<Job, nat>, states: seq<State>, steps: seq<Step>, n: nat, i: nat, k: nat)
    requires Run(before, states, steps) && n < |states| && i < k < |states[n].fired|
    requires forall m: nat :: Fits(states[n].fired[k].run.schedule, m) && states[n].fired[i].at < m * MINUTE ==>
                                states[n].fired[k].at < m * MINUTE
    ensures states[n].fired[i].run.job != states[n].fired[k].run.job
  {
    if states[n].fired[i].run.job == states[n].fired[k].run.job {
      MinuteBetweenRuns(before, states, steps, n, i, k);
      assert false;
    }
  }

  /** Within one tick no job runs twice, and jobs run in the order of their times. */
  lemma OncePerTickInOrder(before: map<Job, nat>, states: seq<State>, steps: seq<Step>, n: nat, i: nat, k: nat)
    requires Run(before, states, steps) && n < |states| && i < k < |states[n].fired|
    requires states[n].fired[i].tick == states[n].fired[k].tick
    ensures states[n].fired[i].run.job != states[n].fired[k].run.job
    ensures RunsBefore(states[n].fired[i].run, states[n].fired[k].run)
  {
    RunKeeps(before, states, steps, n);
  }

  /** The recorded runs of a job. */
  function RunsOf(fired: seq<Fired>, job: Job): seq<Fired> {
    if fired == [] then []
    else
      var rest, f := RunsOf(fired[..|fired| - 1], job), fired[|fired| - 1];
      if f.run.job == job then rest + [f] else rest
  }

  lemma {:induction false} RunsOfAre(fired: seq<Fired>, job: Job, k: nat) returns (i: nat)
    requires k < |RunsOf(fired, job)|
    ensures i < |fired| && fired[i] == RunsOf(fired, job)[k] && fired[i].run.job == job
  {
    var n := |fired| - 1;
    if fired[n].run.job == job && k == |RunsOf(fired[..n], job)| {
      i := n;
    } else {
      i := RunsOfAre(fired[..n], job, k);
    }
  }

  lemma MinutesWithin(lo: nat, hi: nat)
    ensures forall m: nat :: lo < m * MINUTE <= hi ==> lo / MINUTE <= m <= hi / MINUTE
  {
  }

  /** The scheduled minutes after one instant and up to another. */
  function Scheduled(s: CronSchedule, lo: nat, hi: nat): (minutes: set<nat>)
    ensures forall m: nat :: m in minutes <==> lo < m * MINUTE <= hi && Fits(s, m)
  {
    MinutesWithin(lo, hi);
    set m: nat | lo / MINUTE <= m <= hi / MINUTE && lo < m * MINUTE <= hi && Fits(s, m)
  }

  /** Runs whose minutes increase are no more than the minutes there are. */
  lemma {:induction false} NoMoreThan(runs: seq<Fired>, minutes: set<nat>)
    requires forall i, k :: 0 <= i < k < |runs| ==> runs[i].run.nextAt < runs[k].run.nextAt
    requires forall i :: 0 <= i < |runs| ==> runs[i].run.nextAt in minutes
    ensures |runs| <= |minutes|
  {
    if runs != [] {
      var last := runs[|runs| - 1].run.nextAt;
      NoMoreThan(runs[..|runs| - 1], minutes - {last});
    }
  }

  /** A run of the job as the run account has it: on this schedule, not waiting from before `lo`. */
  predicate OnSchedule(fired: seq<Fired>, job: Job, s: CronSchedule, lo: nat) {
    forall i :: 0 <= i < |fired| && fired[i].run.job == job ==> fired[i].run.schedule == s && lo <= fired[i].run.since
  }

  predicate MinutesGrow(fired: seq<Fired>) {
    forall i, k :: 0 <= i < k < |fired| && fired[i].run.job == fired[k].run.job ==>
      fired[i].run.nextAt < fired[k].run.nextAt
  }

  predicate WithinScheduled(fired: seq<Fired>, job: Job, s: CronSchedule, lo: nat, hi: nat) {
    forall i :: 0 <= i < |fired| && fired[i].run.job == job ==> fired[i].run.nextAt in Scheduled(s, lo, hi)
  }

  lemma {:induction false} RunsGrow(fired: seq<Fired>, job: Job)
    requires MinutesGrow(fired)
    ensures forall i, k :: 0 <= i < k < |RunsOf(fired, job)| ==>
              RunsOf(fired, job)[i].run.nextAt < RunsOf(fired, job)[k].run.nextAt
  {
    if fired != [] {
      var n := |fired| - 1;
      RunsGrow(fired[..n], job);
      var runs := RunsOf(fired[..n], job);
      if fired[n].run.job == job {
        forall i | 0 <= i < |runs| ensures runs[i].run.nextAt < fired[n].run.nextAt {
          var at := RunsOfAre(fired[..n], job, i);
          assert fired[at].run.job == fired[n].run.job;
        }
      }
    }
  }

  lemma FiredGrow(before: map<Job, nat>, states: seq<State>, steps: seq<Step>, n: nat)
    requires Run(before, states, steps) && n < |states|
    ensures MinutesGrow(states[n].fired)
  {
    var fired := states[n].fired;
    forall i, k | 0 <= i < k < |fired| && fired[i].run.job == fired[k].run.job
      ensures fired[i].run.nextAt < fired[k].run.nextAt
    {
      MinuteBetweenRuns(before, states, steps, n, i, k);
      RunKeeps(before, states, steps, n);
      assert FiredOk(before, fired, i);
      assert fired[i].run.nextAt * MINUTE < fired[k].run.nextAt * MINUTE;
    }
  }

  lemma FiredWithin(before: map<Job, nat>, states: seq<State>, steps: seq<Step>, n: nat, job: Job, s: CronSchedule, lo: nat)
    requires Run(before, states, steps) && n < |states| && OnSchedule(states[n].fired, job, s, lo)
    ensures WithinScheduled(states[n].fired, job, s, lo, states[n].clock)
  {
    RunKeeps(before, states, steps, n);
    var fired := states[n].fired;
    forall i | 0 <= i < |fired| && fired[i].run.job == job
      ensures fired[i].run.nextAt in Scheduled(s, lo, states[n].clock)
    {
      assert FiredOk(before, fired, i);
      var r := fired[i].run;
      NextIsFirst(s, r.since);
      InScheduled(s, lo, states[n].clock, r.nextAt);
    }
  }

  lemma InScheduled(s: CronSchedule, lo: nat, hi: nat, m: nat)
    requires lo < m * MINUTE <= hi && Fits(s, m)
    ensures m in Scheduled(s, lo, hi)
  {
  }

  /** Runs never outnumber scheduled minutes: a job whose schedule stays the same and that
      never waited from before `lo` has run no more often than it was scheduled since. */
  lemma NeverMoreThanScheduled(before: map<Job, nat>, states: seq<State>, steps: seq<Step>, n: nat, job: Job, s: CronSchedule, lo: nat)
    requires Run(before, states, steps) && n < |states| && OnSchedule(states[n].fired, job, s, lo)
    ensures |RunsOf(states[n].fired, job)| <= |Scheduled(s, lo, states[n].clock)|
  {
    FiredGrow(before, states, steps, n);
    FiredWithin(before, states, steps, n, job, s, lo);
    var fired := states[n].fired;
    RunsGrow(fired, job);
    forall i | 0 <= i < |RunsOf(fired, job)|
      ensures RunsOf(fired, job)[i].run.nextAt in Scheduled(s, lo, states[n].clock)
    {
      var at := RunsOfAre(fired, job, i);
    }
    NoMoreThan(RunsOf(fired, job), Scheduled(s, lo, states[n].clock));
  }

  // --- what is due runs ---------------------------------------------------------------------

  /** A job is due exactly once a scheduled time has passed since it last ran, by the whole
      second on record, or else since it was loaded, or else since the tick looked. */
  lemma DueExactly(e: Entry, last: map<Job, nat>, listedAt: nat, now: nat)
    requires NextRun(e, last, listedAt).Some?
    ensures NextRun(e, last, listedAt).value.nextAt * MINUTE <= now <==>
            exists m: nat :: Fits(e.schedule, m) && m * MINUTE <= now && m * MINUTE >
              (if e.job in last then last[e.job] * 1_000_000 else if e.loadedAt.Some? then e.loadedAt.value else listedAt)
  {
    DueSince(e.schedule, Since(e, last, listedAt), now);
  }

  lemma DueSince(s: CronSchedule, since: nat, now: nat)
    requires Next(s, since).Some?
    ensures Next(s, since).value * MINUTE <= now <==> exists m: nat :: Fits(s, m) && m * MINUTE <= now && m * MINUTE > since
  {
    NextIsFirst(s, since);
    var next := Next(s, since).value;
    if next * MINUTE <= now {
      assert Fits(s, next) && since < next * MINUTE;
    }
    if m: nat :| Fits(s, m) && m * MINUTE <= now && m * MINUTE > since {
      NoneSooner(s, since, m);
      NoLater(next, m);
    }
  }

  lemma NoLater(a: nat, b: nat)
    requires a <= b
    ensures a * MINUTE <= b * MINUTE
  {
  }

  /** A job that never ran and has no time it was loaded at is not due. */
  lemma WithoutLoadTimeNotDue(e: Entry, last: map<Job, nat>, listedAt: nat, now: nat)
    requires e.job !in last && e.loadedAt == None && now <= listedAt
    requires NextRun(e, last, listedAt).Some?
    ensures !Due(NextRun(e, last, listedAt).value, now)
  {
    NextIsFirst(e.schedule, listedAt);
  }

  /** What has run was due and could run when its tick began, and its record is no earlier. */
  lemma OnlyDueRuns(before: map<Job, nat>, states: seq<State>, steps: seq<Step>, n: nat, i: nat)
    requires Run(before, states, steps) && n < |states| && i < |states[n].fired|
    ensures var f := states[n].fired[i];
            f.run.runnable && f.run.nextAt * 60_000_000 <= f.now <= f.at <= states[n].clock
  {
    RunKeeps(before, states, steps, n);
    assert FiredOk(before, states[n].fired, i);
  }

  /** The tick numbered `tick` is going, and has `r` still to do or has recorded it. */
  predicate InHand(s: State, tick: nat, r: CronRun) {
    && s.tick.Some? && s.ticks == tick
    && (r in Todo(s) || exists i :: 0 <= i < |s.fired| && s.fired[i].run == r && s.fired[i].tick == tick)
  }

  /** The step does not break off the tick, or miss recording `r`. */
  predicate Serves(s: State, step: Step, r: CronRun) {
    && step != Crash
    && (step == TakeNext(false) ==> Todo(s) != [] && Todo(s)[0] != r)
  }

  /** The tick that took `now` as its time is working through its list. */
  predicate Going(s: State, now: nat) {
    s.tick.Some? && (s.tick.value.Working? || s.tick.value.Running?) && s.tick.value.now == now
  }

  lemma StillInHand(s: State, step: Step, now: nat, r: CronRun)
    requires Enabled(s, step) && Going(s, now) && Due(r, now)
    requires InHand(s, s.ticks, r) && Serves(s, step, r) && step != TickEnds
    ensures InHand(Do(s, step), s.ticks, r) && Going(Do(s, step), now)
  {
    var t := Do(s, step);
    if i :| 0 <= i < |s.fired| && s.fired[i].run == r && s.fired[i].tick == s.ticks {
      assert t.fired[i] == s.fired[i];
    } else if step.TakeNext? {
      var todo := Todo(s);
      assert todo == [todo[0]] + todo[1..];
      if todo[0] == r {
        assert t.fired[|s.fired|].run == r;
      }
    }
  }

  lemma {:induction false} StaysInHand(before: map<Job, nat>, states: seq<State>, steps: seq<Step>, a: nat, b: nat, now: nat, r: CronRun)
    requires Run(before, states, steps) && a <= b < |states|
    requires Going(states[a], now) && r in Todo(states[a]) && Due(r, now)
    requires forall i :: a <= i < b ==> Serves(states[i], steps[i], r) && steps[i] != TickEnds
    ensures Going(states[b], now) && InHand(states[b], states[a].ticks, r)
    decreases b - a
  {
    if a < b {
      StaysInHand(before, states, steps, a, b - 1, now, r);
      assert Enabled(states[b - 1], steps[b - 1]) && states[b] == Do(states[b - 1], steps[b - 1]);
      StillInHand(states[b - 1], steps[b - 1], now, r);
    }
  }

  /** What a tick lists, is due and can run has been recorded by the time the tick ends,
      unless a lock could not be got for it. */
  lemma DueIsRun(before: map<Job, nat>, states: seq<State>, steps: seq<Step>, a: nat, b: nat, now: nat, r: CronRun)
    requires Run(before, states, steps) && a <= b < |steps| && steps[b] == TickEnds
    requires Going(states[a], now) && r in Todo(states[a]) && Due(r, now)
    requires forall i :: a <= i < b ==> Serves(states[i], steps[i], r) && steps[i] != TickEnds
    ensures exists i :: 0 <= i < |states[b].fired| && states[b].fired[i].run == r && states[b].fired[i].tick == states[a].ticks
  {
    StaysInHand(before, states, steps, a, b, now, r);
    assert Enabled(states[b], steps[b]);
    assert Todo(states[b]) == [];
  }

  /** A step that records no run of a job leaves what the log says of it. */
  lemma {:induction false} UnrecordedStays(before: map<Job, nat>, states: seq<State>, steps: seq<Step>, a: nat, b: nat, job: Job)
    requires Run(before, states, steps) && a <= b < |states|
    requires forall i :: |states[a].fired| <= i < |states[b].fired| ==> states[b].fired[i].run.job != job
    ensures states[a].fired <= states[b].fired && states[a].clock <= states[b].clock
    ensures job in states[a].last <==> job in states[b].last
    ensures job in states[a].last ==> states[b].last[job] == states[a].last[job]
    decreases b - a
  {
    if a < b {
      assert states[b - 1].fired <= states[b].fired;
      UnrecordedStays(before, states, steps, a, b - 1, job);
      var n := |states[b - 1].fired|;
      assert n < |states[b].fired| ==> states[b].fired[n].run.job != job;
    }
  }

  /** A job whose next run has come stays so, for the same minute, until it has run:
      skipping it, its unit being down, failing to lock it or breaking off a tick loses
      nothing. */
  lemma SkippedStaysDue(before: map<Job, nat>, states: seq<State>, steps: seq<Step>, a: nat, b: nat, e: Entry)
    requires Run(before, states, steps) && a <= b < |states|
    requires NextRun(e, states[a].last, states[a].clock).Some?
    requires NextRun(e, states[a].last, states[a].clock).value.nextAt * MINUTE <= states[a].clock
    requires forall i :: |states[a].fired| <= i < |states[b].fired| ==> states[b].fired[i].run.job != e.job
    ensures NextRun(e, states[b].last, states[b].clock) == NextRun(e, states[a].last, states[a].clock)
    ensures NextRun(e, states[b].last, states[b].clock).value.nextAt * MINUTE <= states[b].clock
  {
    UnrecordedStays(before, states, steps, a, b, e.job);
    NextIsFirst(e.schedule, Since(e, states[a].last, states[a].clock));
    assert Since(e, states[a].last, states[a].clock) == Since(e, states[b].last, states[b].clock);
  }

  // --- the loops themselves -------------------------------------------------------------------

  /** The jobs of a list that a tick begun at `now` goes on to run. */
  function DueOf(todo: seq<CronRun>, now: nat): seq<CronRun> {
    if todo == [] then []
    else
      var rest, r := DueOf(todo[..|todo| - 1], now), todo[|todo| - 1];
      if Due(r, now) then rest + [r] else rest
  }

  /** When a run is recorded, or none when one of its locks cannot be got. */
  type Attempts = CronRun -> Option<nat>

  /** What the log says of a job after the runs in `ran`. */
  ghost predicate LogAfter(was: map<Job, nat>, log: map<Job, nat>, ran: seq<CronRun>, attempt: Attempts) {
    && (forall i :: 0 <= i < |ran| && attempt(ran[i]).Some? ==>
          ran[i].job in log && log[ran[i].job] == attempt(ran[i]).value / SECOND)
    && (forall j: Job :: j in was || j in log ==>
          (exists i :: 0 <= i < |ran| && ran[i].job == j && attempt(ran[i]).Some?) || (j in was && j in log && log[j] == was[j]))
  }

  lemma {:induction false} DueOfAre(todo: seq<CronRun>, now: nat)
    ensures forall r :: r in DueOf(todo, now) <==> r in todo && Due(r, now)
  {
    if todo != [] {
      DueOfAre(todo[..|todo| - 1], now);
      assert todo == todo[..|todo| - 1] + [todo[|todo| - 1]];
    }
  }

  class Ticker {
    var last: map<Job, nat>

    constructor ()
      ensures last == map[]
    {
      last := map[];
    }

    /** cron_runs: builds the list job by job, then sorts it. */
    method ListRuns(entries: seq<Entry>, now: nat) returns (r: Option<seq<CronRun>>)
      ensures r == CronRuns(entries, last, now)
    {
      var runs := [];
      for k := 0 to |entries|
        invariant NextRuns(entries[..k], last, now) == Some(runs)
      {
        var next := NextRun(entries[k], last, now);
        assert entries[..k + 1][..k] == entries[..k];
        if next.None? {
          Raises(entries, last, now, k);
          return None;
        }
        runs := runs + [next.value];
      }
      assert entries[..|entries|] == entries;
      return Some(Sort(runs, RunsBefore));
    }

    /** tick: each job that is due and can run is recorded, then run; one that fails does
        not end the tick. */
    method Tick(todo: seq<CronRun>, now: nat, attempt: Attempts) returns (ran: seq<CronRun>)
      requires TodoJobs(todo)
      modifies this
      ensures ran == DueOf(todo, now)
      ensures forall r :: r in ran <==> r in todo && r.nextAt * 60_000_000 <= now && r.runnable
      ensures LogAfter(old(last), last, ran, attempt)
    {
      ran := [];
      for k := 0 to |todo|
        invariant ran == DueOf(todo[..k], now)
        invariant LogAfter(old(last), last, ran, attempt)
      {
        var r := todo[k];
        assert todo[..k + 1][..k] == todo[..k];
        DueOfAre(todo[..k], now);
        if Due(r, now) {
          forall i | 0 <= i < |ran| ensures ran[i].job != r.job {
            assert ran[i] in todo[..k];
          }
          Record(r, attempt, ran, old(last));
          ran := ran + [r];
        }
      }
      assert todo[..|todo|] == todo;
      DueOfAre(todo, now);
    }

    /** _run: the record is written before the command is run. */
    method Record(r: CronRun, attempt: Attempts, ghost ran: seq<CronRun>, ghost was: map<Job, nat>)
      requires LogAfter(was, last, ran, attempt) && forall i :: 0 <= i < |ran| ==> ran[i].job != r.job
      modifies this
      ensures last == if attempt(r).Some? then old(last)[r.job := attempt(r).value / SECOND] else old(last)
      ensures LogAfter(was, last, ran + [r], attempt)
    {
      ghost var all := ran + [r];
      assert all[|ran|] == r;
      if attempt(r).Some? {
        last := last[r.job := attempt(r).value / SECOND];
      }
      forall j: Job | j in was || j in last
        ensures (exists i :: 0 <= i < |all| && all[i].job == j && attempt(all[i]).Some?) || (j in was && j in last && last[j] == was[j])
      {
        if i :| 0 <= i < |ran| && ran[i].job == j && attempt(ran[i]).Some? {
          assert all[i] == ran[i];
        }
      }
    }
  }

  /** One schedule that raises leaves no list. */
  lemma {:induction false} Raises(entries: seq<Entry>, last: map<Job, nat>, now: nat, k: nat)
    requires k < |entries| && NextRun(entries[k], last, now) == None
    ensures CronRuns(entries, last, now) == None
    decreases |entries|
  {
    if k < |entries| - 1 {
      Raises(entries[..|entries| - 1], last, now, k);
    }
  }
}
