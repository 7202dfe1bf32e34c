/** kproxy's decision engine as a step system: any number of checks, running
    without a lock against the current snapshot, interleaved with rule changes
    that a mutex puts in a line (kproxy/engine.go).

    A snapshot is known by its position in `snaps`; the last one is current. The
    step a check or a writer takes next is its program counter. */
module EngineSteps {
  import opened Wrappers
  import opened RuleTable
  import T = RulesText

  const MAX_PENDING: nat := 1000

  datatype PendingHost = PendingHost(firstSeen: int, hits: nat)

  /** `closes` counts how often the channel has been closed; once is closed, twice is a panic. */
  datatype Snapshot = Snapshot(rules: Option<Rules>, closes: nat)

  // --- what the pieces of code compute ----------------------------------------------

  function MarkPending(pending: map<string, PendingHost>, host: string, now: int): map<string, PendingHost> {
    if host in pending then pending[host := pending[host].(hits := pending[host].hits + 1)]
    else if |pending| >= MAX_PENDING then pending
    else pending[host := PendingHost(now, 1)]
  }

  /** Publishing drops the hosts the new rules decide. */
  function Prune(pending: map<string, PendingHost>, r: Rules): map<string, PendingHost> {
    map h | h in pending && !(Answer(r, h).Some? || r.default != Ask) :: pending[h]
  }

  datatype Request =
    | Replace(rules: Rules)
    | SetVerdict(domain: string, verdict: Verdict)
    | Remove(domain: string)

  datatype Refusal = NotLoaded | NoSuchRule

  /** The rules a request asks to publish, given the current ones. */
  function Requested(cur: Option<Rules>, req: Request): Result<Rules, Refusal> {
    match req
    case Replace(r) => Ok(r)
    case SetVerdict(d, v) =>
      if cur == None then Err(NotLoaded)
      else Ok(cur.value.(domains := cur.value.domains[d := Rule(v, "")]))
    case Remove(d) =>
      if cur == None then Err(NotLoaded)
      else if d !in cur.value.domains then Err(NoSuchRule)
      else Ok(cur.value.(domains := cur.value.domains - {d}))
  }

  // --- the state --------------------------------------------------------------------

  datatype Reply = Allowed(target: string) | Denied | TimedOut

  datatype CheckPc =
    | Loading
    | Evaluating(v: nat)
    | Marking(v: nat)
    | Arming(v: nat)
    | Waiting(v: nat)
    | Returned(answer: Reply)

  /** One call of Check. `seen` lists the snapshots it has loaded, `since` is the one
      that was current when it was called, `markedAt` the one it held when it marked. */
  datatype Check = Check(host: string, pc: CheckPc, held: bool, markedAt: Option<nat>, seen: seq<nat>, since: nat)

  datatype WriterPc =
    | Deciding
    | Persisting(next: Rules)
    | Pruning(next: Rules)
    | Swapping(next: Rules)
    | Closing(prev: nat)

  /** Who holds the mutex to change the rules. */
  datatype Writer = Writer(req: Request, pc: WriterPc)

  datatype Outcome = Published | Refused(why: Refusal) | PersistFailed

  /** What each rule change came to, in the order they took the mutex. */
  datatype Entry = Entry(req: Request, outcome: Outcome)

  datatype State = State(
    snaps: seq<Snapshot>,
    pending: map<string, PendingHost>,
    checks: map<nat, Check>,
    writer: Option<Writer>,
    file: Option<string>,
    now: int,
    ledger: seq<Entry>)

  /** `persisting` is whether there is a rules file; `fallback` is the -default flag. */
  datatype Config = Config(persisting: bool, fallback: Policy, ip: T.IpParser)

  function Current(s: State): nat
    requires s.snaps != []
  {
    |s.snaps| - 1
  }

  function LiveRules(s: State): Option<Rules>
    requires s.snaps != []
  {
    s.snaps[Current(s)].rules
  }

  /** loadRulesFile: what a restart makes of the file. */
  function LoadFile(file: Option<string>, cfg: Config): Result<Rules, (nat, T.Why)> {
    match file
    case None => Ok(Rules(cfg.fallback, map[]))
    case Some(text) => T.Parse(text, cfg.fallback, cfg.ip)
  }

  /** main: with a file the rules it holds are published before any connection. */
  ghost predicate Init(cfg: Config, s: State) {
    && s.pending == map[] && s.checks == map[] && s.writer == None && s.ledger == []
    && if cfg.persisting
       then && LoadFile(s.file, cfg).Ok?
            && s.snaps == [Snapshot(None, 1), Snapshot(Some(LoadFile(s.file, cfg).value), 0)]
       else s.file == None && s.snaps == [Snapshot(None, 0)]
  }

  // --- the steps --------------------------------------------------------------------

  /** What one check can do next. */
  datatype Move = Load | Evaluate | Mark | Arm | Wake | TimeOut

  /** What the holder of the mutex can do next. */
  datatype Write = Compute | PersistDone | PersistFails | PruneList | Swap | Close

  datatype Step =
    | Call(id: nat, host: string)
    | Advance(id: nat, move: Move)
    | Acquire(req: Request)
    | Change(write: Write)
    | Tick(d: nat)

  /** The admin API normalizes what it passes on (to remove, any name will do here). */
  predicate ValidRequest(cfg: Config, req: Request) {
    match req
    case Replace(r) => T.Canonical(r, cfg.ip)
    case SetVerdict(d, _) => T.RuleName(d, cfg.ip) == Some(d)
    case Remove(_) => true
  }

  /** Whether a check's program counter allows the move. */
  predicate Ready(c: Check, snaps: seq<Snapshot>, move: Move) {
    match move
    case Load => c.pc.Loading?
    case Evaluate => c.pc.Evaluating? && c.pc.v < |snaps|
    case Mark => c.pc.Marking?
    case Arm => c.pc.Arming?
    // The channel the check waits on is closed.
    case Wake => c.pc.Waiting? && c.pc.v < |snaps| && snaps[c.pc.v].closes > 0
    // The timer fires or the context ends; a closed channel does not come first.
    case TimeOut => c.pc.Waiting?
  }

  predicate WriteReady(cfg: Config, s: State, write: Write) {
    s.writer.Some? &&
    match write
    case Compute => s.writer.value.pc.Deciding?
    case PersistDone => s.writer.value.pc.Persisting?
    case PersistFails => s.writer.value.pc.Persisting? && cfg.persisting
    case PruneList => s.writer.value.pc.Pruning?
    case Swap => s.writer.value.pc.Swapping?
    case Close => s.writer.value.pc.Closing? && s.writer.value.pc.prev < |s.snaps|
  }

  /** Marking takes the mutex too, so it waits for a writer to be done. */
  predicate Enabled(cfg: Config, s: State, step: Step) {
    && s.snaps != []
    && match step
       case Call(id, _) => id !in s.checks
       case Advance(id, move) => id in s.checks && Ready(s.checks[id], s.snaps, move) && (move == Mark ==> s.writer == None)
       case Acquire(req) => s.writer == None && ValidRequest(cfg, req)
       case Change(write) => WriteReady(cfg, s, write)
       case Tick(_) => true
  }

  /** Where a check goes once it has read a snapshot's rules. */
  function AfterReading(c: Check, v: nat, rules: Option<Rules>): CheckPc {
    match rules
    case None => Arming(v)
    case Some(r) =>
      match Decide(r, c.host)
      case Permit(t) => Returned(Allowed(t))
      case Refuse => Returned(Denied)
      case Undecided => if c.markedAt == None then Marking(v) else Arming(v)
  }

  function Moved(c: Check, snaps: seq<Snapshot>, move: Move): Check
    requires snaps != [] && Ready(c, snaps, move)
  {
    match move
    case Load => c.(pc := Evaluating(|snaps| - 1), seen := c.seen + [|snaps| - 1])
    case Evaluate => c.(pc := AfterReading(c, c.pc.v, snaps[c.pc.v].rules))
    case Mark => c.(pc := Arming(c.pc.v), markedAt := Some(c.pc.v))
    case Arm => c.(pc := Waiting(c.pc.v), held := true)
    case Wake => c.(pc := Loading)
    case TimeOut => c.(pc := Returned(TimedOut))
  }

  function Release(s: State, outcome: Outcome): State
    requires s.writer.Some?
  {
    s.(writer := None, ledger := s.ledger + [Entry(s.writer.value.req, outcome)])
  }

  function ComputeNext(s: State): State
    requires s.snaps != [] && s.writer.Some?
  {
    match Requested(LiveRules(s), s.writer.value.req)
    case Err(e) => Release(s, Refused(e))
    case Ok(next) => s.(writer := Some(s.writer.value.(pc := Persisting(next))))
  }

  ghost function Written(cfg: Config, s: State, write: Write): State
    requires s.snaps != [] && WriteReady(cfg, s, write)
  {
    var w := s.writer.value;
    match write
    case Compute => ComputeNext(s)
    case PersistDone =>
      s.(file := if cfg.persisting then Some(T.Format(w.pc.next)) else s.file,
         writer := Some(w.(pc := Pruning(w.pc.next))))
    case PersistFails => Release(s, PersistFailed)
    case PruneList => s.(pending := Prune(s.pending, w.pc.next), writer := Some(w.(pc := Swapping(w.pc.next))))
    case Swap => s.(snaps := s.snaps + [Snapshot(Some(w.pc.next), 0)], writer := Some(w.(pc := Closing(Current(s)))))
    case Close =>
      var v := w.pc.prev;
      Release(s.(snaps := s.snaps[v := s.snaps[v].(closes := s.snaps[v].closes + 1)]), Published)
  }

  ghost function Do(cfg: Config, s: State, step: Step): State
    requires Enabled(cfg, s, step)
  {
    match step
    case Call(id, host) => s.(checks := s.checks[id := Check(host, Loading, false, None, [], Current(s))])
    case Advance(id, move) =>
      var c := s.checks[id];
      s.(checks := s.checks[id := Moved(c, s.snaps, move)],
         pending := if move == Mark then MarkPending(s.pending, c.host, s.now) else s.pending)
    case Acquire(req) => s.(writer := Some(Writer(req, Deciding)))
    case Change(write) => Written(cfg, s, write)
    case Tick(d) => s.(now := s.now + d)
  }

  /** A run: states joined by steps. */
  ghost predicate Run(cfg: Config, states: seq<State>, steps: seq<Step>) {
    && |states| == |steps| + 1
    && T.IpText(cfg.ip)
    && Init(cfg, states[0])
    && forall i :: 0 <= i < |steps| ==> Enabled(cfg, states[i], steps[i]) && states[i + 1] == Do(cfg, states[i], steps[i])
  }

  // --- the invariant ----------------------------------------------------------------

  /** Every superseded channel is closed, once, but for the last one while its
      publisher is between swap and close; the current one is open. */
  predicate ChannelsOk(s: State) {
    && s.snaps != []
    && s.snaps[Current(s)].closes == 0
    && (s.writer.Some? && s.writer.value.pc.Closing? ==> s.writer.value.pc.prev + 1 == Current(s))
    && forall v :: 0 <= v < Current(s) ==>
         s.snaps[v].closes == if s.writer.Some? && s.writer.value.pc == Closing(v) then 0 else 1
  }

  predicate Undecides(snap: Snapshot, host: string) {
    snap.rules.Some? && Decide(snap.rules.value, host) == Undecided
  }

  /** A snapshot that gives a check no answer: no rules, or ask and no match. */
  predicate HoldsBack(snap: Snapshot, host: string) {
    snap.rules == None || Undecides(snap, host)
  }

  predicate Increasing(xs: seq<nat>) {
    forall i, j :: 0 <= i < j < |xs| ==> xs[i] < xs[j]
  }

  predicate AtLast(c: Check, v: nat, snaps: seq<Snapshot>) {
    c.seen != [] && v == c.seen[|c.seen| - 1] && v < |snaps|
  }

  /** What the snapshot a check last read has to do with the answer it gives. */
  predicate Answers(snap: Snapshot, host: string, answer: Reply) {
    && snap.rules.Some?
    && match Decide(snap.rules.value, host)
       case Permit(t) => answer == Allowed(t)
       case Refuse => answer == Denied
       case Undecided => false
  }

  predicate PcOk(c: Check, snaps: seq<Snapshot>) {
    match c.pc
    case Loading =>
      && (c.held <==> c.seen != [])
      && (c.seen != [] ==> c.seen[|c.seen| - 1] + 1 < |snaps|)
    case Evaluating(v) => AtLast(c, v, snaps) && (c.held <==> |c.seen| > 1)
    case Marking(v) =>
      AtLast(c, v, snaps) && (c.held <==> |c.seen| > 1) && c.markedAt == None && Undecides(snaps[v], c.host)
    case Arming(v) => AtLast(c, v, snaps) && (c.held <==> |c.seen| > 1) && HoldsBack(snaps[v], c.host)
    case Waiting(v) => AtLast(c, v, snaps) && c.held && HoldsBack(snaps[v], c.host)
    case Returned(a) =>
      && c.seen != [] && c.seen[|c.seen| - 1] < |snaps|
      && if a == TimedOut then c.held
         else Answers(snaps[c.seen[|c.seen| - 1]], c.host, a) && (c.held <==> |c.seen| > 1)
  }

  predicate CheckOk(c: Check, snaps: seq<Snapshot>) {
    && c.since < |snaps|
    && Increasing(c.seen)
    && (forall i :: 0 <= i < |c.seen| ==> c.since <= c.seen[i] < |snaps|)
    && (c.markedAt.Some? ==> c.markedAt.value in c.seen && c.markedAt.value < |snaps| && Undecides(snaps[c.markedAt.value], c.host))
    && PcOk(c, snaps)
  }

  predicate ChecksOk(s: State) {
    forall id :: id in s.checks ==> CheckOk(s.checks[id], s.snaps)
  }

  /** Who has marked a host. */
  function Markers(checks: map<nat, Check>, host: string): set<nat> {
    set id | id in checks && checks[id].host == host && checks[id].markedAt.Some?
  }

  predicate ListedOk(s: State, h: string)
    requires h in s.pending
  {
    1 <= s.pending[h].hits <= |Markers(s.checks, h)|
  }

  predicate PendingOk(s: State) {
    && |s.pending| <= MAX_PENDING
    && forall h :: h in s.pending ==> ListedOk(s, h)
  }

  /** All that the rules as they will be leave to ask about. */
  predicate AllUndecided(pending: map<string, PendingHost>, r: Rules) {
    forall h :: h in pending ==> Decide(r, h) == Undecided
  }

  /** Every published rule set is in normal form. */
  predicate SnapsCanonical(cfg: Config, s: State) {
    forall v :: 0 <= v < |s.snaps| && s.snaps[v].rules.Some? ==> T.Canonical(s.snaps[v].rules.value, cfg.ip)
  }

  /** The rules a writer is about to publish are in normal form. */
  predicate NextCanonical(cfg: Config, w: Writer) {
    && ValidRequest(cfg, w.req)
    && match w.pc
       case Persisting(next) => T.Canonical(next, cfg.ip)
       case Pruning(next) => T.Canonical(next, cfg.ip)
       case Swapping(next) => T.Canonical(next, cfg.ip)
       case _ => true
  }

  /** What a writer under way has worked out so far. */
  predicate WriterOk(s: State)
    requires s.snaps != []
  {
    s.writer.Some? ==>
      var w := s.writer.value;
      match w.pc
      case Deciding => true
      case Persisting(next) => Requested(LiveRules(s), w.req) == Ok(next)
      case Pruning(next) => Requested(LiveRules(s), w.req) == Ok(next)
      case Swapping(next) => Requested(LiveRules(s), w.req) == Ok(next) && AllUndecided(s.pending, next)
      case Closing(v) =>
        && v + 1 == Current(s) && LiveRules(s).Some?
        && Requested(s.snaps[v].rules, w.req) == Ok(LiveRules(s).value)
        && AllUndecided(s.pending, LiveRules(s).value)
  }

  /** The rules the file should hold: the next ones only between persist and swap. */
  function Durable(s: State): Option<Rules>
    requires s.snaps != []
  {
    if s.writer.Some? && s.writer.value.pc.Pruning? then Some(s.writer.value.pc.next)
    else if s.writer.Some? && s.writer.value.pc.Swapping? then Some(s.writer.value.pc.next)
    else LiveRules(s)
  }

  predicate FileOk(cfg: Config, s: State)
    requires s.snaps != []
  {
    if cfg.persisting then Durable(s).Some? && LoadFile(s.file, cfg) == Ok(Durable(s).value)
    else s.file == None
  }

  // --- rule changes one after another -------------------------------------------------

  /** What changes in the order of the ledger, each run alone, would leave. */
  function Replay(initial: Option<Rules>, ledger: seq<Entry>): Option<Rules>
    decreases |ledger|
  {
    if ledger == [] then initial
    else
      var before := Replay(initial, ledger[..|ledger| - 1]);
      var e := ledger[|ledger| - 1];
      if e.outcome == Published && Requested(before, e.req).Ok? then Some(Requested(before, e.req).value) else before
  }

  /** Each outcome is the one its change would have had, run alone after those before it. */
  predicate Honest(cfg: Config, initial: Option<Rules>, ledger: seq<Entry>)
    decreases |ledger|
  {
    ledger == [] ||
    var before := ledger[..|ledger| - 1];
    var e := ledger[|ledger| - 1];
    && Honest(cfg, initial, before)
    && match e.outcome
       case Published => Requested(Replay(initial, before), e.req).Ok?
       case Refused(why) => Requested(Replay(initial, before), e.req) == Err(why)
       case PersistFailed => cfg.persisting && Requested(Replay(initial, before), e.req).Ok?
  }

  /** The rules before the change under way. */
  function Settled(s: State): Option<Rules>
    requires s.snaps != []
  {
    if s.writer.Some? && s.writer.value.pc.Closing? && s.writer.value.pc.prev < |s.snaps|
    then s.snaps[s.writer.value.pc.prev].rules
    else LiveRules(s)
  }

  predicate LedgerOk(cfg: Config, initial: Option<Rules>, s: State)
    requires s.snaps != []
  {
    Replay(initial, s.ledger) == Settled(s) && Honest(cfg, initial, s.ledger)
  }

  predicate Inv(cfg: Config, initial: Option<Rules>, s: State) {
    && ChannelsOk(s)
    && ChecksOk(s)
    && PendingOk(s)
    && SnapsCanonical(cfg, s) && (s.writer.Some? ==> NextCanonical(cfg, s.writer.value))
    && WriterOk(s)
    && FileOk(cfg, s)
    && LedgerOk(cfg, initial, s)
  }
}
