/** Every step of the engine keeps its invariant. */
module EngineInvariant {
  import opened Wrappers
  import opened RuleTable
  import opened EngineSteps
  import opened Sums
  import T = RulesText

  /** The rules a run starts from. */
  function InitialRules(cfg: Config, s: State): Option<Rules> {
    if s.snaps != [] then LiveRules(s) else None
  }

  lemma InitKeeps(cfg: Config, s: State)
    requires T.IpText(cfg.ip) && Init(cfg, s)
    ensures Inv(cfg, InitialRules(cfg, s), s)
  {
    if cfg.persisting && s.file.Some? {
      T.AcceptedIsCanonical(s.file.value, cfg.fallback, cfg.ip);
    }
  }

  lemma ChannelsKept(cfg: Config, s: State, step: Step)
    requires ChannelsOk(s) && Enabled(cfg, s, step)
    ensures ChannelsOk(Do(cfg, s, step))
  {
  }

  // --- checks -----------------------------------------------------------------------

  /** What can happen to snapshots while a check looks on. */
  predicate Extends(snaps: seq<Snapshot>, snaps': seq<Snapshot>) {
    && |snaps| <= |snaps'|
    && forall v :: 0 <= v < |snaps| ==> snaps'[v].rules == snaps[v].rules && snaps[v].closes <= snaps'[v].closes
  }

  lemma StepExtends(cfg: Config, s: State, step: Step)
    requires Enabled(cfg, s, step)
    ensures Extends(s.snaps, Do(cfg, s, step).snaps)
  {
  }

  lemma CheckKept(c: Check, snaps: seq<Snapshot>, snaps': seq<Snapshot>)
    requires CheckOk(c, snaps) && Extends(snaps, snaps')
    ensures CheckOk(c, snaps')
  {
  }

  lemma LoadedOk(c: Check, snaps: seq<Snapshot>)
    requires CheckOk(c, snaps) && c.pc.Loading?
    ensures CheckOk(c.(pc := Evaluating(|snaps| - 1), seen := c.seen + [|snaps| - 1]), snaps)
  {
    var seen := c.seen + [|snaps| - 1];
    forall i, j | 0 <= i < j < |seen| ensures seen[i] < seen[j] {
      if j == |c.seen| && i < |c.seen| - 1 {
        assert c.seen[i] < c.seen[|c.seen| - 1];
      }
    }
  }

  lemma EvaluatedOk(c: Check, snaps: seq<Snapshot>)
    requires CheckOk(c, snaps) && c.pc.Evaluating?
    ensures CheckOk(c.(pc := AfterReading(c, c.pc.v, snaps[c.pc.v].rules)), snaps)
  {
  }

  lemma MarkedOk(c: Check, snaps: seq<Snapshot>)
    requires CheckOk(c, snaps) && c.pc.Marking?
    ensures CheckOk(c.(pc := Arming(c.pc.v), markedAt := Some(c.pc.v)), snaps)
  {
  }

  lemma ArmedOk(c: Check, snaps: seq<Snapshot>)
    requires CheckOk(c, snaps) && c.pc.Arming?
    ensures CheckOk(c.(pc := Waiting(c.pc.v), held := true), snaps)
  {
  }

  /** A closed channel is a superseded snapshot's, so a woken check will load a later one. */
  lemma WokenOk(c: Check, snaps: seq<Snapshot>)
    requires CheckOk(c, snaps) && c.pc.Waiting? && c.pc.v + 1 < |snaps|
    ensures CheckOk(c.(pc := Loading), snaps)
  {
  }

  lemma TimedOutOk(c: Check, snaps: seq<Snapshot>)
    requires CheckOk(c, snaps) && c.pc.Waiting?
    ensures CheckOk(c.(pc := Returned(TimedOut)), snaps)
  {
  }

  /** A check that moves stays in order. */
  lemma MovedOk(c: Check, snaps: seq<Snapshot>, move: Move)
    requires snaps != [] && CheckOk(c, snaps) && Ready(c, snaps, move)
    requires forall v :: 0 <= v < |snaps| && snaps[v].closes > 0 ==> v + 1 < |snaps|
    ensures CheckOk(Moved(c, snaps, move), snaps)
  {
    match move
    case Load => LoadedOk(c, snaps);
    case Evaluate => EvaluatedOk(c, snaps);
    case Mark => MarkedOk(c, snaps);
    case Arm => ArmedOk(c, snaps);
    case Wake => WokenOk(c, snaps);
    case TimeOut => TimedOutOk(c, snaps);
  }

  lemma ChecksMoved(s: State, id: nat, move: Move)
    requires ChannelsOk(s) && ChecksOk(s) && id in s.checks && Ready(s.checks[id], s.snaps, move)
    ensures CheckOk(Moved(s.checks[id], s.snaps, move), s.snaps)
  {
    MovedOk(s.checks[id], s.snaps, move);
  }

  lemma ChecksKept(cfg: Config, s: State, step: Step)
    requires ChannelsOk(s) && ChecksOk(s) && Enabled(cfg, s, step)
    ensures ChecksOk(Do(cfg, s, step))
  {
    var s' := Do(cfg, s, step);
    StepExtends(cfg, s, step);
    forall id | id in s'.checks ensures CheckOk(s'.checks[id], s'.snaps) {
      if step.Advance? && step.id == id {
        ChecksMoved(s, id, step.move);
      } else if id in s.checks {
        CheckKept(s.checks[id], s.snaps, s'.snaps);
      }
    }
  }

  // --- the pending list ---------------------------------------------------------------

  /** A check that has marked a host goes on having marked it. */
  predicate MarksStay(before: map<nat, Check>, after: map<nat, Check>) {
    forall id :: id in before && before[id].markedAt.Some? ==>
      id in after && after[id].host == before[id].host && after[id].markedAt.Some?
  }

  lemma StepMarksStay(cfg: Config, s: State, step: Step)
    requires Enabled(cfg, s, step)
    ensures MarksStay(s.checks, Do(cfg, s, step).checks)
  {
  }

  lemma MarkersGrow(before: map<nat, Check>, after: map<nat, Check>, h: string)
    requires MarksStay(before, after)
    ensures Markers(before, h) <= Markers(after, h) && |Markers(before, h)| <= |Markers(after, h)|
  {
    SubsetSize(Markers(before, h), Markers(after, h));
  }

  lemma MarkAddsMarker(before: map<nat, Check>, after: map<nat, Check>, id: nat)
    requires MarksStay(before, after) && id in before && id in after
    requires before[id].markedAt == None && after[id].markedAt.Some? && after[id].host == before[id].host
    ensures |Markers(before, before[id].host)| + 1 <= |Markers(after, before[id].host)|
  {
    var h := before[id].host;
    MarkersGrow(before, after, h);
    assert Markers(before, h) + {id} <= Markers(after, h) && id !in Markers(before, h);
    SubsetSize(Markers(before, h) + {id}, Markers(after, h));
  }

  /** A step that marks nothing lists no host and gives none a hit. */
  lemma UnmarkedList(cfg: Config, s: State, step: Step)
    requires Enabled(cfg, s, step) && !(step.Advance? && step.move == Mark)
    ensures forall h :: h in Do(cfg, s, step).pending ==> h in s.pending && Do(cfg, s, step).pending[h] == s.pending[h]
  {
  }

  lemma FewerListed(s: State, t: State)
    requires PendingOk(s) && MarksStay(s.checks, t.checks)
    requires forall h :: h in t.pending ==> h in s.pending && t.pending[h] == s.pending[h]
    ensures PendingOk(t)
  {
    assert t.pending.Keys <= s.pending.Keys;
    SubsetSize(t.pending.Keys, s.pending.Keys);
    forall h | h in t.pending ensures ListedOk(t, h) {
      assert ListedOk(s, h);
      MarkersGrow(s.checks, t.checks, h);
    }
  }

  lemma MoreListed(s: State, t: State, id: nat, now: int)
    requires PendingOk(s) && MarksStay(s.checks, t.checks) && id in s.checks && id in t.checks
    requires s.checks[id].markedAt == None && t.checks[id].markedAt.Some? && t.checks[id].host == s.checks[id].host
    requires t.pending == MarkPending(s.pending, s.checks[id].host, now)
    ensures PendingOk(t)
  {
    MarkAddsMarker(s.checks, t.checks, id);
    forall h | h in t.pending ensures ListedOk(t, h) {
      assert h in s.pending ==> ListedOk(s, h);
      MarkersGrow(s.checks, t.checks, h);
    }
  }

  lemma PendingKept(cfg: Config, s: State, step: Step)
    requires ChecksOk(s) && PendingOk(s) && Enabled(cfg, s, step)
    ensures PendingOk(Do(cfg, s, step))
  {
    StepMarksStay(cfg, s, step);
    if step.Advance? && step.move == Mark {
      assert CheckOk(s.checks[step.id], s.snaps);
      MoreListed(s, Do(cfg, s, step), step.id, s.now);
    } else {
      UnmarkedList(cfg, s, step);
      FewerListed(s, Do(cfg, s, step));
    }
  }

  // --- writers ------------------------------------------------------------------------

  /** A change asked for in normal form makes rules in normal form. */
  lemma RequestedCanonical(cfg: Config, cur: Option<Rules>, req: Request)
    requires ValidRequest(cfg, req) && (cur.Some? ==> T.Canonical(cur.value, cfg.ip))
    ensures Requested(cur, req).Ok? ==> T.Canonical(Requested(cur, req).value, cfg.ip)
  {
    if cur.Some? && req.SetVerdict? {
      T.VerdictKeepsCanonical(cur.value, req.domain, req.verdict, cfg.ip);
    } else if cur.Some? && req.Remove? {
      T.RemovalKeepsCanonical(cur.value, req.domain, cfg.ip);
    }
  }

  /** Pruning leaves exactly the hosts the new rules leave to ask about. */
  lemma PruneKeepsUndecided(pending: map<string, PendingHost>, r: Rules)
    ensures AllUndecided(Prune(pending, r), r)
    ensures forall h :: h in Prune(pending, r) <==> h in pending && Decide(r, h) == Undecided
    ensures forall h :: h in Prune(pending, r) ==> Prune(pending, r)[h] == pending[h]
  {
  }

  lemma SnapsCanonicalKept(cfg: Config, s: State, step: Step)
    requires Enabled(cfg, s, step)
    requires SnapsCanonical(cfg, s) && (s.writer.Some? ==> NextCanonical(cfg, s.writer.value))
    ensures SnapsCanonical(cfg, Do(cfg, s, step))
  {
    var s' := Do(cfg, s, step);
    forall v | 0 <= v < |s'.snaps| && s'.snaps[v].rules.Some? ensures T.Canonical(s'.snaps[v].rules.value, cfg.ip) {
      assert v < |s.snaps| ==> s'.snaps[v].rules == s.snaps[v].rules;
    }
  }

  lemma ChangeCanonical(cfg: Config, s: State, write: Write)
    requires Enabled(cfg, s, Change(write)) && NextCanonical(cfg, s.writer.value)
    requires LiveRules(s).Some? ==> T.Canonical(LiveRules(s).value, cfg.ip)
    ensures var s' := Written(cfg, s, write); s'.writer.Some? ==> NextCanonical(cfg, s'.writer.value)
  {
    match write
    case Compute => RequestedCanonical(cfg, LiveRules(s), s.writer.value.req);
    case _ =>
  }

  lemma NextCanonicalKept(cfg: Config, s: State, step: Step)
    requires Enabled(cfg, s, step) && (s.writer.Some? ==> NextCanonical(cfg, s.writer.value))
    requires LiveRules(s).Some? ==> T.Canonical(LiveRules(s).value, cfg.ip)
    ensures var s' := Do(cfg, s, step); s'.writer.Some? ==> NextCanonical(cfg, s'.writer.value)
  {
    if step.Change? {
      ChangeCanonical(cfg, s, step.write);
    }
  }

  lemma CanonicalKept(cfg: Config, s: State, step: Step)
    requires Enabled(cfg, s, step)
    requires SnapsCanonical(cfg, s) && (s.writer.Some? ==> NextCanonical(cfg, s.writer.value))
    ensures var s' := Do(cfg, s, step);
            SnapsCanonical(cfg, s') && (s'.writer.Some? ==> NextCanonical(cfg, s'.writer.value))
  {
    SnapsCanonicalKept(cfg, s, step);
    NextCanonicalKept(cfg, s, step);
  }

  lemma WriterKept(cfg: Config, s: State, step: Step)
    requires s.snaps != [] && WriterOk(s) && Enabled(cfg, s, step)
    ensures Do(cfg, s, step).snaps != [] && WriterOk(Do(cfg, s, step))
  {
    if step == Change(PruneList) {
      PruneKeepsUndecided(s.pending, s.writer.value.pc.next);
    }
  }

  /** Only writing the file changes it, or what it should hold. */
  lemma DurableStays(cfg: Config, s: State, step: Step)
    requires s.snaps != [] && WriterOk(s) && Enabled(cfg, s, step) && step != Change(PersistDone)
    ensures var s' := Do(cfg, s, step); s'.snaps != [] && s'.file == s.file && Durable(s') == Durable(s)
  {
  }

  lemma FileKept(cfg: Config, s: State, step: Step)
    requires T.IpText(cfg.ip) && ChannelsOk(s) && WriterOk(s) && FileOk(cfg, s) && Enabled(cfg, s, step)
    requires s.writer.Some? ==> NextCanonical(cfg, s.writer.value)
    ensures FileOk(cfg, Do(cfg, s, step))
  {
    if step == Change(PersistDone) {
      if cfg.persisting {
        T.ParseUndoesFormat(s.writer.value.pc.next, cfg.fallback, cfg.ip);
      }
    } else {
      DurableStays(cfg, s, step);
    }
  }

  lemma LedgerStep(cfg: Config, initial: Option<Rules>, ledger: seq<Entry>, e: Entry)
    requires Honest(cfg, initial, ledger)
    requires match e.outcome
             case Published => Requested(Replay(initial, ledger), e.req).Ok?
             case Refused(why) => Requested(Replay(initial, ledger), e.req) == Err(why)
             case PersistFailed => cfg.persisting && Requested(Replay(initial, ledger), e.req).Ok?
    ensures Honest(cfg, initial, ledger + [e])
    ensures Replay(initial, ledger + [e]) ==
            if e.outcome == Published then Some(Requested(Replay(initial, ledger), e.req).value)
            else Replay(initial, ledger)
  {
    assert (ledger + [e])[..|ledger + [e]| - 1] == ledger;
  }

  lemma ComputeLedger(cfg: Config, initial: Option<Rules>, s: State)
    requires ChannelsOk(s) && LedgerOk(cfg, initial, s) && WriteReady(cfg, s, Compute)
    ensures LedgerOk(cfg, initial, ComputeNext(s))
  {
    var req := s.writer.value.req;
    if Requested(LiveRules(s), req).Err? {
      LedgerStep(cfg, initial, s.ledger, Entry(req, Refused(Requested(LiveRules(s), req).error)));
    }
  }

  lemma FailLedger(cfg: Config, initial: Option<Rules>, s: State)
    requires ChannelsOk(s) && WriterOk(s) && LedgerOk(cfg, initial, s) && WriteReady(cfg, s, PersistFails)
    ensures LedgerOk(cfg, initial, Release(s, PersistFailed))
  {
    LedgerStep(cfg, initial, s.ledger, Entry(s.writer.value.req, PersistFailed));
  }

  lemma CloseLedger(cfg: Config, initial: Option<Rules>, s: State)
    requires ChannelsOk(s) && WriterOk(s) && LedgerOk(cfg, initial, s) && WriteReady(cfg, s, Close)
    ensures LedgerOk(cfg, initial, Written(cfg, s, Close))
  {
    LedgerStep(cfg, initial, s.ledger, Entry(s.writer.value.req, Published));
  }

  /** Any other step adds nothing to the ledger, and settles nothing. */
  lemma LedgerStays(cfg: Config, initial: Option<Rules>, s: State, step: Step)
    requires ChannelsOk(s) && Enabled(cfg, s, step)
    requires step != Change(Compute) && step != Change(PersistFails) && step != Change(Close)
    ensures var s' := Do(cfg, s, step); s'.snaps != [] && s'.ledger == s.ledger && Settled(s') == Settled(s)
  {
  }

  lemma LedgerKept(cfg: Config, initial: Option<Rules>, s: State, step: Step)
    requires ChannelsOk(s) && WriterOk(s) && LedgerOk(cfg, initial, s) && Enabled(cfg, s, step)
    ensures ChannelsOk(Do(cfg, s, step)) && LedgerOk(cfg, initial, Do(cfg, s, step))
  {
    ChannelsKept(cfg, s, step);
    if step == Change(Compute) {
      ComputeLedger(cfg, initial, s);
    } else if step == Change(PersistFails) {
      FailLedger(cfg, initial, s);
    } else if step == Change(Close) {
      CloseLedger(cfg, initial, s);
    } else {
      LedgerStays(cfg, initial, s, step);
    }
  }

  lemma StepKeeps(cfg: Config, initial: Option<Rules>, s: State, step: Step)
    requires T.IpText(cfg.ip) && Inv(cfg, initial, s) && Enabled(cfg, s, step)
    ensures Inv(cfg, initial, Do(cfg, s, step))
  {
    ChannelsKept(cfg, s, step);
    ChecksKept(cfg, s, step);
    PendingKept(cfg, s, step);
    CanonicalKept(cfg, s, step);
    WriterKept(cfg, s, step);
    FileKept(cfg, s, step);
    LedgerKept(cfg, initial, s, step);
  }

  /** The invariant holds in every state of every run. */
  lemma {:induction false} RunKeeps(cfg: Config, states: seq<State>, steps: seq<Step>, i: nat)
    requires Run(cfg, states, steps) && i < |states|
    ensures Inv(cfg, InitialRules(cfg, states[0]), states[i])
  {
    if i == 0 {
      InitKeeps(cfg, states[0]);
    } else {
      RunKeeps(cfg, states, steps, i - 1);
      StepKeeps(cfg, InitialRules(cfg, states[0]), states[i - 1], steps[i - 1]);
    }
  }

  // --- its parts, for use one at a time -----------------------------------------------

  lemma RunChannels(cfg: Config, states: seq<State>, steps: seq<Step>, i: nat)
    requires Run(cfg, states, steps) && i < |states|
    ensures ChannelsOk(states[i])
  {
    RunKeeps(cfg, states, steps, i);
  }

  lemma RunCheck(cfg: Config, states: seq<State>, steps: seq<Step>, i: nat, id: nat)
    requires Run(cfg, states, steps) && i < |states| && id in states[i].checks
    ensures CheckOk(states[i].checks[id], states[i].snaps)
  {
    RunKeeps(cfg, states, steps, i);
  }

  lemma RunListed(cfg: Config, states: seq<State>, steps: seq<Step>, i: nat)
    requires Run(cfg, states, steps) && i < |states|
    ensures PendingOk(states[i])
  {
    RunKeeps(cfg, states, steps, i);
  }

  lemma RunWriter(cfg: Config, states: seq<State>, steps: seq<Step>, i: nat)
    requires Run(cfg, states, steps) && i < |states|
    ensures states[i].snaps != [] && WriterOk(states[i])
  {
    RunKeeps(cfg, states, steps, i);
  }

  lemma RunFile(cfg: Config, states: seq<State>, steps: seq<Step>, i: nat)
    requires Run(cfg, states, steps) && i < |states|
    ensures states[i].snaps != [] && FileOk(cfg, states[i])
  {
    RunKeeps(cfg, states, steps, i);
  }

  lemma RunLedger(cfg: Config, states: seq<State>, steps: seq<Step>, i: nat)
    requires Run(cfg, states, steps) && i < |states|
    ensures states[i].snaps != [] && LedgerOk(cfg, InitialRules(cfg, states[0]), states[i])
  {
    RunKeeps(cfg, states, steps, i);
  }

  lemma ExtendsTransitive(s1: seq<Snapshot>, s2: seq<Snapshot>, s3: seq<Snapshot>)
    requires Extends(s1, s2) && Extends(s2, s3)
    ensures Extends(s1, s3)
  {
  }

  /** Only a swap makes another snapshot current. */
  lemma StepCurrent(cfg: Config, s: State, step: Step)
    requires Enabled(cfg, s, step)
    ensures Do(cfg, s, step).snaps != []
    ensures Current(Do(cfg, s, step)) == Current(s) + if step == Change(Swap) then 1 else 0
  {
  }
}
