/** What every run of kproxy's engine guarantees. */
module EngineTheorems {
  import opened Wrappers
  import opened RuleTable
  import opened EngineSteps
  import opened EngineInvariant
  import T = RulesText

  // --- along a run --------------------------------------------------------------------

  lemma {:induction false} SnapsGrow(cfg: Config, states: seq<State>, steps: seq<Step>, a: nat, b: nat)
    requires Run(cfg, states, steps) && a <= b < |states|
    ensures states[a].snaps != [] && Extends(states[a].snaps, states[b].snaps)
    decreases b - a
  {
    RunChannels(cfg, states, steps, a);
    if a < b {
      SnapsGrow(cfg, states, steps, a, b - 1);
      StepExtends(cfg, states[b - 1], steps[b - 1]);
      ExtendsTransitive(states[a].snaps, states[b - 1].snaps, states[b].snaps);
    }
  }

  /** A call keeps its host, and which snapshot was current when it was made. */
  lemma {:induction false} CallStays(cfg: Config, states: seq<State>, steps: seq<Step>, a: nat, b: nat, id: nat)
    requires Run(cfg, states, steps) && a <= b < |states| && id in states[a].checks
    ensures id in states[b].checks
    ensures states[b].checks[id].host == states[a].checks[id].host
    ensures states[b].checks[id].since == states[a].checks[id].since
    decreases b - a
  {
    if a < b {
      CallStays(cfg, states, steps, a, b - 1, id);
    }
  }

  /** How many rule sets are published between two states of a run. */
  function Publishes(steps: seq<Step>, a: nat, b: nat): nat
    requires a <= b <= |steps|
    decreases b - a
  {
    if a == b then 0
    else Publishes(steps, a, b - 1) + (if steps[b - 1] == Change(Swap) then 1 else 0)
  }

  lemma {:induction false} PublishesCounted(cfg: Config, states: seq<State>, steps: seq<Step>, a: nat, b: nat)
    requires Run(cfg, states, steps) && a <= b < |states|
    ensures states[a].snaps != [] && states[b].snaps != []
    ensures Current(states[b]) == Current(states[a]) + Publishes(steps, a, b)
    decreases b - a
  {
    RunChannels(cfg, states, steps, a);
    if a < b {
      PublishesCounted(cfg, states, steps, a, b - 1);
      StepCurrent(cfg, states[b - 1], steps[b - 1]);
    }
  }

  /** Every snapshot from one state's current to a later one's was current in between. */
  lemma {:induction false} WasCurrent(cfg: Config, states: seq<State>, steps: seq<Step>, a: nat, b: nat, v: nat)
      returns (k: nat)
    requires Run(cfg, states, steps) && a <= b < |states|
    requires states[a].snaps != [] && states[b].snaps != [] && Current(states[a]) <= v <= Current(states[b])
    ensures a <= k <= b && states[k].snaps != [] && Current(states[k]) == v
    decreases b - a
  {
    if Current(states[b]) == v {
      k := b;
    } else {
      StepCurrent(cfg, states[b - 1], steps[b - 1]);
      k := WasCurrent(cfg, states, steps, a, b - 1, v);
    }
  }

  // --- the answer a check gives -------------------------------------------------------

  /** A check starts out with the snapshot that was current when it was called. */
  lemma CallIsFresh(cfg: Config, states: seq<State>, steps: seq<Step>, a: nat, id: nat)
    requires Run(cfg, states, steps) && 0 < a < |states| && steps[a - 1].Call? && steps[a - 1].id == id
    ensures id in states[a].checks && states[a].checks[id].host == steps[a - 1].host
    ensures states[a].snaps != [] && states[a].checks[id].since == Current(states[a])
  {
    assert Enabled(cfg, states[a - 1], steps[a - 1]) && states[a] == Do(cfg, states[a - 1], steps[a - 1]);
  }

  /** A check that is allowed or denied got exactly the decision of rules that were
      current at some moment between its call and its return: allowed to a target if the
      longest name covering its host is allowed there, or none covers it and all is
      allowed; denied if that name is denied, or none covers it and all is denied. */
  lemma DecisionWasCurrent(cfg: Config, states: seq<State>, steps: seq<Step>, a: nat, b: nat, id: nat)
      returns (k: nat)
    requires Run(cfg, states, steps) && 0 < a <= b < |states|
    requires steps[a - 1].Call? && steps[a - 1].id == id
    requires id in states[b].checks && states[b].checks[id].pc.Returned? && states[b].checks[id].pc.answer != TimedOut
    ensures a <= k <= b && states[k].snaps != [] && LiveRules(states[k]).Some?
    ensures match states[b].checks[id].pc.answer
            case Allowed(t) => LetThrough(LiveRules(states[k]).value, steps[a - 1].host, t)
            case Denied => TurnedAway(LiveRules(states[k]).value, steps[a - 1].host)
            case TimedOut => false
  {
    CallIsFresh(cfg, states, steps, a, id);
    CallStays(cfg, states, steps, a, b, id);
    RunCheck(cfg, states, steps, b, id);
    RunChannels(cfg, states, steps, b);
    var c := states[b].checks[id];
    k := WasCurrent(cfg, states, steps, a, b, c.seen[|c.seen| - 1]);
    SnapsGrow(cfg, states, steps, k, b);
    DecisionMeans(LiveRules(states[k]).value, c.host);
  }

  lemma {:induction false} IncreasingSpan(xs: seq<nat>, lo: nat, hi: nat)
    requires Increasing(xs) && forall i :: 0 <= i < |xs| ==> lo <= xs[i] <= hi
    ensures xs != [] ==> |xs| <= xs[|xs| - 1] - lo + 1
  {
    if |xs| > 1 {
      IncreasingSpan(xs[..|xs| - 1], lo, hi);
    }
  }

  /** The snapshots one check loads strictly increase, so it goes round at most once
      more than there are publishes while it runs. */
  lemma LoadsAreBounded(cfg: Config, states: seq<State>, steps: seq<Step>, a: nat, b: nat, id: nat)
    requires Run(cfg, states, steps) && 0 < a <= b < |states|
    requires steps[a - 1].Call? && steps[a - 1].id == id
    ensures id in states[b].checks
    ensures Increasing(states[b].checks[id].seen)
    ensures |states[b].checks[id].seen| <= 1 + Publishes(steps, a, b)
  {
    CallIsFresh(cfg, states, steps, a, id);
    CallStays(cfg, states, steps, a, b, id);
    RunCheck(cfg, states, steps, b, id);
    PublishesCounted(cfg, states, steps, a, b);
    var c := states[b].checks[id];
    IncreasingSpan(c.seen, c.since, Current(states[b]));
  }

  /** A check says it was held exactly when it waited: whenever it times out, and when
      it was decided only after a snapshot other than its first. */
  lemma HeldMeansWaited(cfg: Config, states: seq<State>, steps: seq<Step>, i: nat, id: nat)
    requires Run(cfg, states, steps) && i < |states|
    requires id in states[i].checks && states[i].checks[id].pc.Returned?
    ensures states[i].checks[id].pc.answer == TimedOut ==> states[i].checks[id].held
    ensures states[i].checks[id].pc.answer != TimedOut ==>
              (states[i].checks[id].held <==> |states[i].checks[id].seen| > 1)
  {
    RunCheck(cfg, states, steps, i, id);
  }

  // --- channels -----------------------------------------------------------------------

  /** No channel is closed twice, the current one is open, and a superseded one is
      open only while its publisher stands between swap and close. */
  lemma ChannelsClosedOnce(cfg: Config, states: seq<State>, steps: seq<Step>, i: nat, v: nat)
    requires Run(cfg, states, steps) && i < |states| && v < |states[i].snaps|
    ensures states[i].snaps[v].closes <= 1
    ensures states[i].snaps[v].closes == 0 <==>
            v == Current(states[i]) || (states[i].writer.Some? && states[i].writer.value.pc == Closing(v))
  {
    RunChannels(cfg, states, steps, i);
  }

  /** No lost wakeup: with no rule change under way, a waiting check that nothing can
      wake waits on the current rules, and they give it no answer. */
  lemma NoLostWakeup(cfg: Config, states: seq<State>, steps: seq<Step>, i: nat, id: nat)
    requires Run(cfg, states, steps) && i < |states| && states[i].writer == None
    requires id in states[i].checks && states[i].checks[id].pc.Waiting?
    ensures states[i].snaps != []
    ensures !Enabled(cfg, states[i], Advance(id, Wake)) <==> states[i].checks[id].pc.v == Current(states[i])
    ensures !Enabled(cfg, states[i], Advance(id, Wake)) ==>
              HoldsBack(states[i].snaps[Current(states[i])], states[i].checks[id].host)
  {
    RunChannels(cfg, states, steps, i);
    RunCheck(cfg, states, steps, i, id);
  }

  /** When a timeout can hide a decision: a check that times out on the current snapshot
      has rules that hold its host back; so if the current rules decide the host, the check
      waits on a superseded snapshot, whose channel is closed but for the moment in which
      its publisher stands between swap and close. */
  lemma TimeoutHidesOnlyLateDecisions(cfg: Config, states: seq<State>, steps: seq<Step>, i: nat, id: nat)
    requires Run(cfg, states, steps) && i < |steps| && steps[i] == Advance(id, TimeOut)
    ensures id in states[i].checks && states[i].checks[id].pc.Waiting? && states[i].snaps != []
    ensures var v, s := states[i].checks[id].pc.v, states[i];
            && v <= Current(s)
            && (v == Current(s) ==> HoldsBack(s.snaps[v], s.checks[id].host))
            && (Decided(s, s.checks[id].host) ==> v < Current(s))
            && (v < Current(s) ==> (s.snaps[v].closes > 0 <==> !(s.writer.Some? && s.writer.value.pc == Closing(v))))
  {
    assert Enabled(cfg, states[i], steps[i]);
    RunChannels(cfg, states, steps, i);
    RunCheck(cfg, states, steps, i, id);
  }

  /** Nothing gets stuck: a change under way can take its next step, and so can every check
      that has not returned, but for one that is about to mark while a change holds the mutex. */
  lemma NeverStuck(cfg: Config, states: seq<State>, steps: seq<Step>, i: nat)
    requires Run(cfg, states, steps) && i < |states|
    ensures states[i].writer.Some? ==> exists write :: Enabled(cfg, states[i], Change(write))
    ensures states[i].writer == None ==> forall req :: Enabled(cfg, states[i], Acquire(req)) <==> ValidRequest(cfg, req)
    ensures forall id :: id in states[i].checks && !states[i].checks[id].pc.Returned? ==>
              (states[i].checks[id].pc.Marking? && states[i].writer.Some?) || exists move :: Enabled(cfg, states[i], Advance(id, move))
    ensures forall id, host :: id !in states[i].checks ==> Enabled(cfg, states[i], Call(id, host))
    ensures forall d :: Enabled(cfg, states[i], Tick(d))
    ensures Enabled(cfg, states[i], Change(PersistFails)) <==> Enabled(cfg, states[i], Change(PersistDone)) && cfg.persisting
  {
    RunChannels(cfg, states, steps, i);
    RunWriter(cfg, states, steps, i);
    if states[i].writer.Some? {
      WriterGoesOn(cfg, states[i]);
    }
    forall id | id in states[i].checks && !states[i].checks[id].pc.Returned? && !(states[i].checks[id].pc.Marking? && states[i].writer.Some?)
      ensures exists move :: Enabled(cfg, states[i], Advance(id, move))
    {
      RunCheck(cfg, states, steps, i, id);
      CheckGoesOn(cfg, states[i], id);
    }
  }

  lemma WriterGoesOn(cfg: Config, s: State)
    requires ChannelsOk(s) && WriterOk(s) && s.writer.Some?
    ensures exists write :: Enabled(cfg, s, Change(write))
  {
    var write := match s.writer.value.pc
                 case Deciding => Compute
                 case Persisting(_) => PersistDone
                 case Pruning(_) => PruneList
                 case Swapping(_) => Swap
                 case Closing(_) => Close;
    assert Enabled(cfg, s, Change(write));
  }

  lemma CheckGoesOn(cfg: Config, s: State, id: nat)
    requires ChannelsOk(s) && id in s.checks && CheckOk(s.checks[id], s.snaps)
    requires !s.checks[id].pc.Returned? && (s.checks[id].pc.Marking? ==> s.writer == None)
    ensures exists move :: Enabled(cfg, s, Advance(id, move))
  {
    var move := match s.checks[id].pc
                case Loading => Load
                case Evaluating(_) => Evaluate
                case Marking(_) => Mark
                case Arming(_) => Arm
                case _ => TimeOut;
    assert Enabled(cfg, s, Advance(id, move));
  }

  // --- the pending list ---------------------------------------------------------------

  /** The list is bounded, and a host's hits are at most the checks that marked it. */
  lemma PendingIsBounded(cfg: Config, states: seq<State>, steps: seq<Step>, i: nat)
    requires Run(cfg, states, steps) && i < |states|
    ensures |states[i].pending| <= 1000
    ensures forall h :: h in states[i].pending ==>
              1 <= states[i].pending[h].hits <= |Markers(states[i].checks, h)|
  {
    RunListed(cfg, states, steps, i);
    forall h | h in states[i].pending ensures 1 <= states[i].pending[h].hits <= |Markers(states[i].checks, h)| {
      assert ListedOk(states[i], h);
    }
  }

  /** A check that has marked goes on having marked. */
  lemma {:induction false} MarkStays(cfg: Config, states: seq<State>, steps: seq<Step>, a: nat, b: nat, id: nat)
    requires Run(cfg, states, steps) && a <= b < |states|
    requires id in states[a].checks && states[a].checks[id].markedAt.Some?
    ensures id in states[b].checks && states[b].checks[id].markedAt.Some?
    decreases b - a
  {
    if a < b {
      MarkStays(cfg, states, steps, a, b - 1, id);
    }
  }

  /** A check marks at most once in all its run. */
  lemma MarksOnce(cfg: Config, states: seq<State>, steps: seq<Step>, a: nat, b: nat, id: nat)
    requires Run(cfg, states, steps) && a < b < |steps|
    ensures !(steps[a] == Advance(id, Mark) && steps[b] == Advance(id, Mark))
  {
    if steps[a] == Advance(id, Mark) && steps[b] == Advance(id, Mark) {
      assert states[a + 1] == Do(cfg, states[a], steps[a]);
      MarkStays(cfg, states, steps, a + 1, b, id);
      RunCheck(cfg, states, steps, b, id);
    }
  }

  /** The current rules decide the host. */
  predicate Decided(s: State, h: string) {
    s.snaps != [] && !HoldsBack(s.snaps[Current(s)], h)
  }

  /** Step `k` marks the host for a check that holds a superseded snapshot. */
  ghost predicate LateMark(states: seq<State>, steps: seq<Step>, k: nat, h: string) {
    && k < |steps| && k < |states| && steps[k].Advance? && steps[k].move == Mark
    && steps[k].id in states[k].checks
    && var c := states[k].checks[steps[k].id];
       c.host == h && c.pc.Marking? && states[k].snaps != [] && c.pc.v < Current(states[k])
  }

  /** A host that a step lists although the rules then current decide it was marked by
      that step, and late. */
  lemma ListedByLateMark(cfg: Config, s: State, step: Step, h: string)
    requires ChannelsOk(s) && ChecksOk(s) && WriterOk(s) && Enabled(cfg, s, step)
    requires h in Do(cfg, s, step).pending && Decided(Do(cfg, s, step), h)
    requires !(step.Advance? && step.move == Mark && s.checks[step.id].host == h)
    ensures h in s.pending && Decided(s, h) && step != Change(Swap)
  {
    if step != Change(Swap) {
      StepCurrent(cfg, s, step);
      StepExtends(cfg, s, step);
    }
  }

  lemma MarkOfDecidedIsLate(cfg: Config, s: State, id: nat)
    requires ChannelsOk(s) && ChecksOk(s) && Enabled(cfg, s, Advance(id, Mark))
    requires Decided(Do(cfg, s, Advance(id, Mark)), s.checks[id].host)
    ensures s.checks[id].pc.Marking? && s.checks[id].pc.v < Current(s)
  {
    assert CheckOk(s.checks[id], s.snaps);
  }

  /** A run's state with a host listed has a step before it, from an orderly state. */
  lemma LastStep(cfg: Config, states: seq<State>, steps: seq<Step>, i: nat)
    requires Run(cfg, states, steps) && i < |states| && states[i].pending != map[]
    ensures i > 0 && Enabled(cfg, states[i - 1], steps[i - 1]) && states[i] == Do(cfg, states[i - 1], steps[i - 1])
    ensures ChannelsOk(states[i - 1]) && ChecksOk(states[i - 1]) && WriterOk(states[i - 1])
  {
    RunKeeps(cfg, states, steps, i - 1);
  }

  /** A listed host that the current rules decide was marked late, by a check that held a
      snapshot already superseded, and no rules have been published since. */
  lemma {:induction false} StaleHostWasMarkedLate(cfg: Config, states: seq<State>, steps: seq<Step>, i: nat, h: string)
      returns (k: nat)
    requires Run(cfg, states, steps) && i < |states|
    requires h in states[i].pending && Decided(states[i], h)
    ensures k < i && LateMark(states, steps, k, h)
    ensures Current(states[k]) == Current(states[i])
  {
    LastStep(cfg, states, steps, i);
    var s, step := states[i - 1], steps[i - 1];
    StepCurrent(cfg, s, step);
    if step.Advance? && step.move == Mark && s.checks[step.id].host == h {
      MarkOfDecidedIsLate(cfg, s, step.id);
      k := i - 1;
    } else {
      ListedByLateMark(cfg, s, step, h);
      k := StaleHostWasMarkedLate(cfg, states, steps, i - 1, h);
    }
  }

  lemma CloseKeepsRules(cfg: Config, s: State)
    requires Enabled(cfg, s, Change(Close)) && WriterOk(s)
    ensures var s' := Do(cfg, s, Change(Close));
            s'.snaps != [] && LiveRules(s') == LiveRules(s) && s'.pending == s.pending
  {
  }

  /** Right after pruning, and until the publisher lets go of the mutex, every listed
      host is one the published rules ask about. */
  lemma PublishLeavesOnlyUndecided(cfg: Config, states: seq<State>, steps: seq<Step>, i: nat)
    requires Run(cfg, states, steps) && i < |steps| && steps[i] == Change(Close)
    ensures states[i + 1].snaps != [] && LiveRules(states[i + 1]).Some?
    ensures AllUndecided(states[i + 1].pending, LiveRules(states[i + 1]).value)
  {
    RunWriter(cfg, states, steps, i);
    CloseKeepsRules(cfg, states[i]);
  }

  /** A step that marks a host which the rules decide, with room for it in the list. */
  predicate ListsDecided(s: State, step: Step, r: Rules) {
    && step.Advance? && step.move == Mark && step.id in s.checks
    && var h := s.checks[step.id].host;
       Decide(r, h) != Undecided && (h in s.pending || |s.pending| < MAX_PENDING)
  }

  /** A host once listed stays on the list until the list is pruned; */
  lemma ListedStays(cfg: Config, s: State, step: Step)
    requires Enabled(cfg, s, step) && step != Change(PruneList)
    ensures s.pending.Keys <= Do(cfg, s, step).pending.Keys
  {
  }

  /** and one step adds a decided host only by marking it. */
  lemma OneStepLists(cfg: Config, s: State, step: Step, r: Rules)
    requires Enabled(cfg, s, step) && step != Change(PruneList)
    ensures AllUndecided(Do(cfg, s, step).pending, r) <==> AllUndecided(s.pending, r) && !ListsDecided(s, step, r)
  {
    var s' := Do(cfg, s, step);
    ListedStays(cfg, s, step);
    if ListsDecided(s, step, r) {
      assert s.checks[step.id].host in s'.pending;
    }
  }

  /** The current rules stay until others are published. */
  lemma {:induction false} RulesStay(cfg: Config, states: seq<State>, steps: seq<Step>, a: nat, b: nat)
    requires Run(cfg, states, steps) && a <= b < |states|
    requires forall k :: a <= k < b ==> steps[k] != Change(Swap)
    ensures states[a].snaps != [] && states[b].snaps != [] && LiveRules(states[b]) == LiveRules(states[a])
    decreases b - a
  {
    RunChannels(cfg, states, steps, a);
    if a < b {
      RulesStay(cfg, states, steps, a, b - 1);
      StepCurrent(cfg, states[b - 1], steps[b - 1]);
      StepExtends(cfg, states[b - 1], steps[b - 1]);
    }
  }

  /** From a state where the current rules leave all listed hosts to ask about, and until
      other rules are pruned for and published, only marking lists a decided host, and it
      does whenever there is room: the list holds one if and only if a step marked one. */
  lemma OnlyLateMarksListDecided(cfg: Config, states: seq<State>, steps: seq<Step>, a: nat, b: nat, r: Rules)
    requires Run(cfg, states, steps) && a <= b < |states|
    requires states[a].snaps != [] && LiveRules(states[a]) == Some(r) && AllUndecided(states[a].pending, r)
    requires forall k :: a <= k < b ==> steps[k] != Change(PruneList) && steps[k] != Change(Swap)
    ensures states[b].snaps != [] && LiveRules(states[b]) == Some(r)
    ensures AllUndecided(states[b].pending, r) <==> forall k :: a <= k < b ==> !ListsDecided(states[k], steps[k], r)
    ensures forall k :: a <= k < b && ListsDecided(states[k], steps[k], r) ==>
              LateMark(states, steps, k, states[k].checks[steps[k].id].host)
  {
    RulesStay(cfg, states, steps, a, b);
    forall k | a <= k < b ensures OneListed(states, steps, k, r) {
      OneStepLists(cfg, states[k], steps[k], r);
    }
    OnlyMarksList(states, steps, a, b, r);
    forall k | a <= k < b && ListsDecided(states[k], steps[k], r)
      ensures LateMark(states, steps, k, states[k].checks[steps[k].id].host)
    {
      MarkIsLate(cfg, states, steps, a, k, r);
    }
  }

  /** Step `k` leaves all listed hosts undecided if they were and it marks no other. */
  predicate OneListed(states: seq<State>, steps: seq<Step>, k: nat, r: Rules)
    requires k < |steps| && |states| == |steps| + 1
  {
    AllUndecided(states[k + 1].pending, r) <==> AllUndecided(states[k].pending, r) && !ListsDecided(states[k], steps[k], r)
  }

  lemma {:induction false} HoldsUntil(holds: nat -> bool, ends: nat -> bool, a: nat, b: nat)
    requires a <= b && holds(a) && forall k :: a <= k < b ==> (holds(k + 1) <==> holds(k) && !ends(k))
    ensures holds(b) <==> forall k :: a <= k < b ==> !ends(k)
    decreases b - a
  {
    if a < b {
      HoldsUntil(holds, ends, a, b - 1);
      assert holds(b - 1 + 1) <==> holds(b - 1) && !ends(b - 1);
    }
  }

  lemma OnlyMarksList(states: seq<State>, steps: seq<Step>, a: nat, b: nat, r: Rules)
    requires |states| == |steps| + 1 && a <= b < |states| && AllUndecided(states[a].pending, r)
    requires forall k :: a <= k < b ==> OneListed(states, steps, k, r)
    ensures AllUndecided(states[b].pending, r) <==> forall k :: a <= k < b ==> !ListsDecided(states[k], steps[k], r)
  {
    var holds := (k: nat) => k < |states| && AllUndecided(states[k].pending, r);
    var ends := (k: nat) => k < |steps| && ListsDecided(states[k], steps[k], r);
    forall k | a <= k < b ensures holds(k + 1) <==> holds(k) && !ends(k) {
      assert OneListed(states, steps, k, r);
    }
    HoldsUntil(holds, ends, a, b);
    assert forall k :: a <= k < b ==> (ends(k) <==> ListsDecided(states[k], steps[k], r));
  }

  lemma MarkIsLate(cfg: Config, states: seq<State>, steps: seq<Step>, a: nat, k: nat, r: Rules)
    requires Run(cfg, states, steps) && a <= k < |steps| && ListsDecided(states[k], steps[k], r)
    requires states[a].snaps != [] && LiveRules(states[a]) == Some(r)
    requires forall j :: a <= j < k ==> steps[j] != Change(Swap)
    ensures LateMark(states, steps, k, states[k].checks[steps[k].id].host)
  {
    RulesStay(cfg, states, steps, a, k);
    RunChannels(cfg, states, steps, k);
    RunCheck(cfg, states, steps, k, steps[k].id);
  }

  // --- the file -----------------------------------------------------------------------

  /** At every step the rules file reads as the current rules, or as the next ones
      while their publisher stands between persisting and swapping them. */
  lemma RestartRecovers(cfg: Config, states: seq<State>, steps: seq<Step>, i: nat)
    requires Run(cfg, states, steps) && i < |states| && cfg.persisting
    ensures LoadFile(states[i].file, cfg).Ok? && states[i].snaps != []
    ensures var found := LoadFile(states[i].file, cfg).value;
            || LiveRules(states[i]) == Some(found)
            || (&& states[i].writer.Some?
                && (states[i].writer.value.pc == Pruning(found) || states[i].writer.value.pc == Swapping(found)))
  {
    RunFile(cfg, states, steps, i);
  }

  /** The mutex is held by a change that has published nothing yet. */
  predicate NothingYet(s: State) {
    s.writer.Some? && (s.writer.value.pc.Deciding? || s.writer.value.pc.Persisting?)
  }

  predicate SameRules(s: State, t: State) {
    s.snaps == t.snaps && s.pending == t.pending && s.file == t.file
  }

  /** The change under way is the same one, and has published nothing from `s` to `t`. */
  predicate StillNothing(s: State, t: State) {
    NothingYet(s) && NothingYet(t) && SameRules(s, t) && s.ledger == t.ledger && s.writer.value.req == t.writer.value.req
  }

  /** Before such a state came one like it, unless the mutex was taken just then; the
      mutex shuts marks out. */
  lemma NothingBefore(cfg: Config, s: State, step: Step)
    requires Enabled(cfg, s, step) && NothingYet(Do(cfg, s, step)) && !step.Acquire?
    ensures StillNothing(s, Do(cfg, s, step))
  {
  }

  lemma {:induction false} NothingAlong(states: seq<State>, a: nat, b: nat)
    requires a <= b < |states| && NothingYet(states[b])
    requires forall k :: a <= k < b && NothingYet(states[k + 1]) ==> StillNothing(states[k], states[k + 1])
    ensures StillNothing(states[a], states[b])
    decreases b - a
  {
    if a < b {
      assert StillNothing(states[b - 1], states[b - 1 + 1]);
      NothingAlong(states, a, b - 1);
    }
  }

  lemma NothingSince(cfg: Config, states: seq<State>, steps: seq<Step>, a: nat, b: nat)
    requires Run(cfg, states, steps) && a <= b < |states| && NothingYet(states[b])
    requires forall k :: a <= k < b ==> !steps[k].Acquire?
    ensures StillNothing(states[a], states[b])
  {
    forall k | a <= k < b && NothingYet(states[k + 1]) ensures StillNothing(states[k], states[k + 1]) {
      NothingBefore(cfg, states[k], steps[k]);
    }
    NothingAlong(states, a, b);
  }

  /** A change whose persist fails leaves rules, channels, pending list and file as they
      were when it took the mutex, whatever checks do meanwhile; it is in the ledger as
      failed and has let go of the mutex. */
  lemma FailedPersistChangesNothing(cfg: Config, states: seq<State>, steps: seq<Step>, a: nat, b: nat)
    requires Run(cfg, states, steps) && a < b < |steps|
    requires steps[a].Acquire? && steps[b] == Change(PersistFails)
    requires forall k :: a < k < b ==> !steps[k].Acquire?
    ensures SameRules(states[a], states[b + 1]) && states[b + 1].writer == None
    ensures states[b + 1].ledger == states[a].ledger + [Entry(steps[a].req, PersistFailed)]
  {
    assert Enabled(cfg, states[b], steps[b]) && states[b + 1] == Do(cfg, states[b], steps[b]);
    assert Enabled(cfg, states[a], steps[a]) && states[a + 1] == Do(cfg, states[a], steps[a]);
    NothingSince(cfg, states, steps, a + 1, b);
  }

  /** The requests of a ledger. */
  function Reqs(ledger: seq<Entry>): seq<Request> {
    seq(|ledger|, i requires 0 <= i < |ledger| => ledger[i].req)
  }

  /** What the change under way asks for. */
  function UnderWay(s: State): seq<Request> {
    if s.writer.Some? then [s.writer.value.req] else []
  }

  /** The changes asked for, in the order in which they took the mutex. */
  function Asked(steps: seq<Step>): seq<Request> {
    if steps == [] then []
    else
      var last := steps[|steps| - 1];
      Asked(steps[..|steps| - 1]) + if last.Acquire? then [last.req] else []
  }

  lemma ReleaseAsked(s: State, outcome: Outcome)
    requires s.writer.Some?
    ensures Reqs(Release(s, outcome).ledger) + UnderWay(Release(s, outcome)) == Reqs(s.ledger) + UnderWay(s)
  {
  }

  lemma ChangeAsked(cfg: Config, s: State, write: Write)
    requires Enabled(cfg, s, Change(write))
    ensures Reqs(Written(cfg, s, write).ledger) + UnderWay(Written(cfg, s, write)) == Reqs(s.ledger) + UnderWay(s)
  {
    match write
    case Compute =>
      if Requested(LiveRules(s), s.writer.value.req).Err? {
        ReleaseAsked(s, Refused(Requested(LiveRules(s), s.writer.value.req).error));
      }
    case PersistFails => ReleaseAsked(s, PersistFailed);
    case Close => ReleaseAsked(s, Published);
    case _ =>
  }

  lemma StepAsked(cfg: Config, s: State, step: Step)
    requires Enabled(cfg, s, step)
    ensures Reqs(Do(cfg, s, step).ledger) + UnderWay(Do(cfg, s, step)) ==
            Reqs(s.ledger) + UnderWay(s) + if step.Acquire? then [step.req] else []
  {
    if step.Change? {
      ChangeAsked(cfg, s, step.write);
    }
  }

  /** The ledger holds the changes in the order in which they took the mutex, but for the
      one under way. */
  lemma {:induction false} LedgerIsAsked(cfg: Config, states: seq<State>, steps: seq<Step>, i: nat)
    requires Run(cfg, states, steps) && i < |states|
    ensures Reqs(states[i].ledger) + UnderWay(states[i]) == Asked(steps[..i])
  {
    if i > 0 {
      LedgerIsAsked(cfg, states, steps, i - 1);
      StepAsked(cfg, states[i - 1], steps[i - 1]);
      assert steps[..i][..i - 1] == steps[..i - 1];
    }
  }

  /** Concurrent changes come to what they would, one after another in the order they
      took the mutex: the same rules, and the same outcome for each. */
  lemma ChangesAreSequential(cfg: Config, states: seq<State>, steps: seq<Step>, i: nat)
    requires Run(cfg, states, steps) && i < |states| && states[i].writer == None
    ensures states[i].snaps != []
    ensures Reqs(states[i].ledger) == Asked(steps[..i])
    ensures LiveRules(states[i]) == Replay(InitialRules(cfg, states[0]), states[i].ledger)
    ensures Honest(cfg, InitialRules(cfg, states[0]), states[i].ledger)
    ensures cfg.persisting ==>
              Replay(InitialRules(cfg, states[0]), states[i].ledger).Some? &&
              LoadFile(states[i].file, cfg) == Ok(Replay(InitialRules(cfg, states[0]), states[i].ledger).value)
  {
    LedgerIsAsked(cfg, states, steps, i);
    RunFile(cfg, states, steps, i);
    RunLedger(cfg, states, steps, i);
  }

  // --- what does not hold -------------------------------------------------------------

  /** Where steps lead, if each is enabled. */
  ghost function End(cfg: Config, s: State, steps: seq<Step>): Option<State>
    decreases |steps|
  {
    if steps == [] then Some(s)
    else
      match End(cfg, s, steps[..|steps| - 1])
      case None => None
      case Some(t) =>
        if Enabled(cfg, t, steps[|steps| - 1]) then Some(Do(cfg, t, steps[|steps| - 1])) else None
  }

  lemma EndStep(cfg: Config, s: State, steps: seq<Step>, t: State, step: Step)
    requires End(cfg, s, steps) == Some(t) && Enabled(cfg, t, step)
    ensures End(cfg, s, steps + [step]) == Some(Do(cfg, t, step))
  {
    assert (steps + [step])[..|steps|] == steps;
  }

  lemma {:induction false} EndIsRun(cfg: Config, s: State, steps: seq<Step>) returns (states: seq<State>)
    requires T.IpText(cfg.ip) && Init(cfg, s) && End(cfg, s, steps).Some?
    ensures Run(cfg, states, steps) && states[|steps|] == End(cfg, s, steps).value
    decreases |steps|
  {
    if steps == [] {
      states := [s];
    } else {
      var front, last := steps[..|steps| - 1], steps[|steps| - 1];
      states := EndIsRun(cfg, s, front);
      states := states + [Do(cfg, states[|front|], last)];
      forall i | 0 <= i < |steps|
        ensures Enabled(cfg, states[i], steps[i]) && states[i + 1] == Do(cfg, states[i], steps[i])
      {
        if i < |front| { assert steps[i] == front[i]; }
      }
    }
  }

  lemma AskedFor(cfg: Config, s: State, steps: seq<Step>, t: State, next: Rules)
    requires End(cfg, s, steps) == Some(t) && t.snaps != [] && t.writer == None && T.Canonical(next, cfg.ip)
    ensures End(cfg, s, steps + [Acquire(Replace(next))] + [Change(Compute)])
         == Some(t.(writer := Some(Writer(Replace(next), Persisting(next)))))
  {
    var t1 := t.(writer := Some(Writer(Replace(next), Deciding)));
    EndStep(cfg, s, steps, t, Acquire(Replace(next)));
    EndStep(cfg, s, steps + [Acquire(Replace(next))], t1, Change(Compute));
  }

  lemma WrittenDown(cfg: Config, s: State, steps: seq<Step>, t: State, w: Writer) returns (file: Option<string>)
    requires End(cfg, s, steps) == Some(t) && t.snaps != [] && t.writer == Some(w) && w.pc.Persisting?
    ensures End(cfg, s, steps + [Change(PersistDone)] + [Change(PruneList)])
         == Some(t.(file := file, pending := Prune(t.pending, w.pc.next), writer := Some(w.(pc := Swapping(w.pc.next)))))
  {
    var t1 := Do(cfg, t, Change(PersistDone));
    file := t1.file;
    EndStep(cfg, s, steps, t, Change(PersistDone));
    EndStep(cfg, s, steps + [Change(PersistDone)], t1, Change(PruneList));
    assert Do(cfg, t1, Change(PruneList))
        == t.(file := t1.file, pending := Prune(t.pending, w.pc.next), writer := Some(w.(pc := Swapping(w.pc.next))));
  }

  lemma MadeCurrent(cfg: Config, s: State, steps: seq<Step>, t: State, w: Writer) returns (r: State)
    requires End(cfg, s, steps) == Some(t) && t.snaps != [] && t.writer == Some(w) && w.pc.Swapping?
    ensures End(cfg, s, steps + [Change(Swap)] + [Change(Close)]) == Some(r)
    ensures r.writer == None && r.snaps != [] && LiveRules(r) == Some(w.pc.next)
    ensures r.pending == t.pending && r.checks == t.checks
    ensures |t.snaps| < |r.snaps| && r.snaps[|t.snaps| - 1].closes > 0
  {
    var t1 := Do(cfg, t, Change(Swap));
    EndStep(cfg, s, steps, t, Change(Swap));
    EndStep(cfg, s, steps + [Change(Swap)], t1, Change(Close));
    r := Do(cfg, t1, Change(Close));
  }

  /** A whole rule change, with nothing in between. */
  lemma Publishing(cfg: Config, s: State, steps: seq<Step>, t: State, next: Rules) returns (more: seq<Step>, u: State)
    requires End(cfg, s, steps) == Some(t) && t.snaps != [] && t.writer == None && T.Canonical(next, cfg.ip)
    ensures End(cfg, s, more) == Some(u)
    ensures u.writer == None && u.checks == t.checks && u.pending == Prune(t.pending, next)
    ensures |t.snaps| < |u.snaps| && u.snaps[|t.snaps| - 1].closes > 0 && LiveRules(u) == Some(next)
  {
    AskedFor(cfg, s, steps, t, next);
    more := steps + [Acquire(Replace(next))] + [Change(Compute)];
    var w := Writer(Replace(next), Persisting(next));
    var t1 := t.(writer := Some(w));
    var file := WrittenDown(cfg, s, more, t1, w);
    more := more + [Change(PersistDone)] + [Change(PruneList)];
    var t2 := t1.(file := file, pending := Prune(t.pending, next), writer := Some(w.(pc := Swapping(next))));
    u := MadeCurrent(cfg, s, more, t2, w.(pc := Swapping(next)));
    more := more + [Change(Swap)] + [Change(Close)];
  }

  /** A call that has read ask rules and is about to mark its host. */
  lemma AboutToMark(cfg: Config, s: State, host: string)
    requires s.snaps == [Snapshot(None, 1), Snapshot(Some(Rules(Ask, map[])), 0)] && s.checks == map[]
    ensures End(cfg, s, [] + [Call(0, host)] + [Advance(0, Load)] + [Advance(0, Evaluate)])
         == Some(s.(checks := map[0 := Check(host, Marking(1), false, None, [1], 1)]))
  {
    UndecidedMeans(Rules(Ask, map[]), host);
    var c1 := Check(host, Loading, false, None, [], 1);
    var c2 := Check(host, Evaluating(1), false, None, [1], 1);
    var c3 := Check(host, Marking(1), false, None, [1], 1);
    assert c1.seen + [1] == [1];
    assert s.checks[0 := c1] == map[0 := c1] && map[0 := c1][0 := c2] == map[0 := c2] && map[0 := c2][0 := c3] == map[0 := c3];
    EndStep(cfg, s, [], s, Call(0, host));
    EndStep(cfg, s, [] + [Call(0, host)], s.(checks := map[0 := c1]), Advance(0, Load));
    EndStep(cfg, s, [] + [Call(0, host)] + [Advance(0, Load)], s.(checks := map[0 := c2]), Advance(0, Evaluate));
  }

  /** Not every listed host is one the current rules ask about: a check can read ask
      rules, lose the race to a publish that denies its host, and mark it then. */
  lemma DecidedHostCanBeListed() returns (cfg: Config, states: seq<State>, steps: seq<Step>)
    ensures Run(cfg, states, steps)
    ensures var s := states[|states| - 1];
            s.snaps != [] && s.writer == None && LiveRules(s).Some? &&
            !AllUndecided(s.pending, LiveRules(s).value)
  {
    cfg := Config(true, Ask, _ => T.NotAnIp);
    var next := Rules(DenyByDefault, map[]);
    var s0 := State([Snapshot(None, 1), Snapshot(Some(Rules(Ask, map[])), 0)], map[], map[], None, None, 0, []);
    var c := Check("a", Marking(1), false, None, [1], 1);
    AboutToMark(cfg, s0, "a");
    steps := [] + [Call(0, "a")] + [Advance(0, Load)] + [Advance(0, Evaluate)];
    var u;
    steps, u := Publishing(cfg, s0, steps, s0.(checks := map[0 := c]), next);
    EndStep(cfg, s0, steps, u, Advance(0, Mark));
    LateMarkLists(cfg, u, 0, next);
    steps := steps + [Advance(0, Mark)];
    states := EndIsRun(cfg, s0, steps);
  }

  lemma LateMarkLists(cfg: Config, s: State, id: nat, deny: Rules)
    requires Enabled(cfg, s, Advance(id, Mark)) && s.pending == map[]
    requires LiveRules(s) == Some(deny) && deny == Rules(DenyByDefault, map[])
    ensures var s' := Do(cfg, s, Advance(id, Mark));
            s'.snaps != [] && LiveRules(s') == Some(deny) && !AllUndecided(s'.pending, deny)
  {
    var h := s.checks[id].host;
    UndecidedMeans(deny, h);
    assert h in Do(cfg, s, Advance(id, Mark)).pending;
  }

  /** A call that has marked its host and waits. */
  lemma MarkedAndWaiting(cfg: Config, s: State, steps: seq<Step>, t: State, c: Check) returns (r: State)
    requires End(cfg, s, steps) == Some(t) && t.snaps != [] && t.writer == None && t.checks == map[0 := c] && c.pc.Marking?
    ensures End(cfg, s, steps + [Advance(0, Mark)] + [Advance(0, Arm)]) == Some(r)
    ensures r == t.(pending := r.pending, checks := r.checks)
    ensures r.checks == map[0 := c.(pc := Waiting(c.pc.v), held := true, markedAt := Some(c.pc.v))]
  {
    EndStep(cfg, s, steps, t, Advance(0, Mark));
    var t1 := Do(cfg, t, Advance(0, Mark));
    EndStep(cfg, s, steps + [Advance(0, Mark)], t1, Advance(0, Arm));
    r := Do(cfg, t1, Advance(0, Arm));
  }

  /** Timing out does not mean that nobody decided: with its channel closed and the current
      rules allowing its host, a check can still take its timeout first. */
  lemma TimeoutCanBeatWakeup() returns (cfg: Config, states: seq<State>, steps: seq<Step>)
    ensures Run(cfg, states, steps) && |steps| > 0 && steps[|steps| - 1] == Advance(0, TimeOut)
    ensures var s := states[|steps| - 1];
            0 in s.checks && Ready(s.checks[0], s.snaps, Wake) && s.writer == None &&
            s.snaps != [] && LiveRules(s).Some? && Decide(LiveRules(s).value, s.checks[0].host) == Permit("")
    ensures 0 in states[|steps|].checks && states[|steps|].checks[0].pc == Returned(TimedOut)
  {
    cfg := Config(true, Ask, _ => T.NotAnIp);
    var next := Rules(AllowByDefault, map[]);
    var s0 := State([Snapshot(None, 1), Snapshot(Some(Rules(Ask, map[])), 0)], map[], map[], None, None, 0, []);
    EmptyFileStarts(cfg, s0);
    var u;
    steps, u := WaitingOnOldRules(cfg, s0, next);
    NoRuleAllows(next, "a");
    states := RunAndStep(cfg, s0, steps, u, Advance(0, TimeOut));
    steps := steps + [Advance(0, TimeOut)];
  }

  lemma RunAndStep(cfg: Config, s: State, steps: seq<Step>, u: State, step: Step) returns (states: seq<State>)
    requires T.IpText(cfg.ip) && Init(cfg, s) && End(cfg, s, steps) == Some(u) && Enabled(cfg, u, step)
    ensures Run(cfg, states, steps + [step]) && states[|steps|] == u && states[|steps| + 1] == Do(cfg, u, step)
  {
    states := EndIsRun(cfg, s, steps);
    assert (steps + [step])[..|steps|] == steps;
    OneStepMore(cfg, states, steps + [step]);
    states := states + [Do(cfg, u, step)];
  }

  /** A host with no rules file yet starts with ask rules. */
  lemma EmptyFileStarts(cfg: Config, s: State)
    requires cfg == Config(true, Ask, cfg.ip) && (forall h {:trigger cfg.ip(h)} :: cfg.ip(h) == T.NotAnIp)
    requires s == State([Snapshot(None, 1), Snapshot(Some(Rules(Ask, map[])), 0)], map[], map[], None, None, 0, [])
    ensures T.IpText(cfg.ip) && Init(cfg, s)
  {
  }

  lemma WaitingOnOldRules(cfg: Config, s: State, next: Rules) returns (steps: seq<Step>, u: State)
    requires s.snaps == [Snapshot(None, 1), Snapshot(Some(Rules(Ask, map[])), 0)] && s.checks == map[] && s.writer == None
    requires next.domains == map[]
    ensures End(cfg, s, steps) == Some(u) && u.writer == None && |u.snaps| > 2 && u.snaps[1].closes > 0 && LiveRules(u) == Some(next)
    ensures u.checks == map[0 := Check("a", Waiting(1), true, Some(1), [1], 1)]
  {
    var t;
    steps, t := WaitingRun(cfg, s);
    steps, u := Publishing(cfg, s, steps, t, next);
  }

  lemma WaitingRun(cfg: Config, s: State) returns (steps: seq<Step>, t: State)
    requires s.snaps == [Snapshot(None, 1), Snapshot(Some(Rules(Ask, map[])), 0)] && s.checks == map[] && s.writer == None
    ensures End(cfg, s, steps) == Some(t) && t.snaps == s.snaps && t.writer == None
    ensures t.checks == map[0 := Check("a", Waiting(1), true, Some(1), [1], 1)]
  {
    var c := Check("a", Marking(1), false, None, [1], 1);
    AboutToMark(cfg, s, "a");
    steps := [] + [Call(0, "a")] + [Advance(0, Load)] + [Advance(0, Evaluate)];
    t := MarkedAndWaiting(cfg, s, steps, s.(checks := map[0 := c]), c);
    steps := steps + [Advance(0, Mark)] + [Advance(0, Arm)];
  }

  lemma NoRuleAllows(r: Rules, host: string)
    requires r == Rules(AllowByDefault, map[])
    ensures Decide(r, host) == Permit("")
  {
    WalkFindsLongest(r.domains, host);
  }

  lemma OneStepMore(cfg: Config, before: seq<State>, steps: seq<Step>)
    requires |steps| > 0 && Run(cfg, before, steps[..|steps| - 1])
    requires Enabled(cfg, before[|steps| - 1], steps[|steps| - 1])
    ensures Run(cfg, before + [Do(cfg, before[|steps| - 1], steps[|steps| - 1])], steps)
  {
    var n := |steps| - 1;
    var states := before + [Do(cfg, before[n], steps[n])];
    forall i | 0 <= i < |steps|
      ensures Enabled(cfg, states[i], steps[i]) && states[i + 1] == Do(cfg, states[i], steps[i])
    {
      if i < n { assert steps[i] == steps[..n][i]; }
    }
  }
}
