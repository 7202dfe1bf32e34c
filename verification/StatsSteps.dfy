/** kproxy's connection counters (kproxy/stats.go) while any number of connections are
    counted at once: the table is behind a mutex, each counter is an atomic of its own. */
module StatsSteps {
  import opened Sums

  const MAX_STATS_KEYS: nat := 10000
  const OTHER_DOMAIN: string := "other"

  datatype Key = Key(domain: string, scheme: string)

  datatype Verdict = Allowed | Denied | TimedOut

  datatype Counters = Counters(conns: nat, allowed: nat, denied: nat, held: nat, timedOut: nat)

  const ZERO: Counters := Counters(0, 0, 0, 0, 0)

  /** The key a connection is counted under: its own, unless that would make the table too long. */
  function KeyFor(table: map<Key, Counters>, domain: string, scheme: string): Key {
    var k := Key(domain, scheme);
    if k !in table && |table| >= MAX_STATS_KEYS then Key(OTHER_DOMAIN, scheme) else k
  }

  /** The table with a key's counters in it, new ones if it had none. */
  function Ensured(table: map<Key, Counters>, k: Key): map<Key, Counters> {
    if k in table then table else table[k := ZERO]
  }

  function Settled(c: Counters): nat { c.allowed + c.denied + c.timedOut }

  function AddConn(c: Counters): Counters { c.(conns := c.conns + 1) }

  function AddHeld(c: Counters, held: bool): Counters { if held then c.(held := c.held + 1) else c }

  function AddVerdict(c: Counters, v: Verdict): Counters {
    match v
    case Allowed => c.(allowed := c.allowed + 1)
    case Denied => c.(denied := c.denied + 1)
    case TimedOut => c.(timedOut := c.timedOut + 1)
  }

  // --- the steps ----------------------------------------------------------------------------

  /** Where a connection has got to: it has its counters; it is in `conns`; its verdict is
      known; `held` has been seen to; and its verdict is counted. */
  datatype Conn =
    | Opened(key: Key)
    | Counted(key: Key)
    | Judged(key: Key, verdict: Verdict, held: bool)
    | HeldDone(key: Key, verdict: Verdict, held: bool)
    | Recorded(key: Key)

  datatype State = State(table: map<Key, Counters>, conns: map<nat, Conn>)

  datatype Step =
    | Open(id: nat, domain: string, scheme: string)
    | Count(id: nat)
    | Judge(id: nat, verdict: Verdict, held: bool)
    | RecordHeld(id: nat)
    | RecordVerdict(id: nat)

  /** Only a connection that was held times out. */
  predicate Enabled(s: State, step: Step) {
    match step
    case Open(id, _, _) => id !in s.conns
    case Count(id) => id in s.conns && s.conns[id].Opened? && s.conns[id].key in s.table
    case Judge(id, v, held) => id in s.conns && s.conns[id].Counted? && (v == TimedOut ==> held)
    case RecordHeld(id) => id in s.conns && s.conns[id].Judged? && s.conns[id].key in s.table
    case RecordVerdict(id) => id in s.conns && s.conns[id].HeldDone? && s.conns[id].key in s.table
  }

  function Do(s: State, step: Step): State
    requires Enabled(s, step)
  {
    match step
    case Open(id, domain, scheme) =>
      var k := KeyFor(s.table, domain, scheme);
      State(Ensured(s.table, k), s.conns[id := Opened(k)])
    case Count(id) =>
      var k := s.conns[id].key;
      State(s.table[k := AddConn(s.table[k])], s.conns[id := Counted(k)])
    case Judge(id, v, held) => s.(conns := s.conns[id := Judged(s.conns[id].key, v, held)])
    case RecordHeld(id) =>
      var c := s.conns[id];
      State(s.table[c.key := AddHeld(s.table[c.key], c.held)], s.conns[id := HeldDone(c.key, c.verdict, c.held)])
    case RecordVerdict(id) =>
      var c := s.conns[id];
      State(s.table[c.key := AddVerdict(s.table[c.key], c.verdict)], s.conns[id := Recorded(c.key)])
  }

  predicate Run(states: seq<State>, steps: seq<Step>) {
    && |states| == |steps| + 1 && states[0] == State(map[], map[])
    && forall i :: 0 <= i < |steps| ==> Enabled(states[i], steps[i]) && states[i + 1] == Do(states[i], steps[i])
  }

  // --- counting connections -------------------------------------------------------------------

  type Which = Conn -> bool

  ghost function Those(conns: map<nat, Conn>, which: Which): set<nat> {
    set id | id in conns && which(conns[id])
  }

  /** How many connections are in a certain state. */
  ghost function Number(conns: map<nat, Conn>, which: Which): nat { |Those(conns, which)| }

  /** One connection going on changes such a number by at most one. */
  lemma NumberSet(conns: map<nat, Conn>, id: nat, c: Conn, which: Which)
    ensures Number(conns[id := c], which) + (if id in conns && which(conns[id]) then 1 else 0)
         == Number(conns, which) + (if which(c) then 1 else 0)
  {
    var was, now := Those(conns, which), Those(conns[id := c], which);
    if which(c) {
      assert now == was + {id};
    } else {
      assert now == was - {id};
    }
  }

  /** Counted under `k` and without its verdict counted yet. */
  predicate Owes(c: Conn, k: Key) { c.key == k && (c.Counted? || c.Judged? || c.HeldDone?) }

  function InFlight(k: Key): Which { (c: Conn) => Owes(c, k) }

  function HeldInFlight(k: Key): Which {
    (c: Conn) => c.key == k && c.HeldDone? && c.held
  }

  function TimingOut(k: Key): Which {
    (c: Conn) => c.key == k && c.HeldDone? && c.verdict == TimedOut
  }

  function PastCount(): Which { (c: Conn) => !c.Opened? }

  // --- what stays true ------------------------------------------------------------------------

  ghost predicate AddsUp(s: State, k: Key) {
    k in s.table ==> s.table[k].conns == Settled(s.table[k]) + Number(s.conns, InFlight(k))
  }

  ghost predicate HeldAddsUp(s: State, k: Key) {
    k in s.table ==>
      && s.table[k].held <= Settled(s.table[k]) + Number(s.conns, HeldInFlight(k))
      && s.table[k].timedOut + Number(s.conns, TimingOut(k)) <= s.table[k].held
  }

  ghost predicate Balanced(s: State, k: Key) { AddsUp(s, k) && HeldAddsUp(s, k) }

  /** A key that is not in the table has no connections yet. */
  predicate KeysThere(s: State) {
    && (forall id :: id in s.conns ==> s.conns[id].key in s.table)
    && (forall id :: id in s.conns && (s.conns[id].Judged? || s.conns[id].HeldDone?) && s.conns[id].verdict == TimedOut ==> s.conns[id].held)
  }

  function ConnsOf(table: map<Key, Counters>): map<Key, int> {
    map k | k in table :: table[k].conns
  }

  ghost predicate TotalOk(s: State) {
    Sum(ConnsOf(s.table)) == Number(s.conns, PastCount())
  }

  /** The keys with a domain of their own. */
  function Own(table: map<Key, Counters>): set<Key> { set k | k in table && k.domain != OTHER_DOMAIN }

  function Overflow(table: map<Key, Counters>): set<Key> { set k | k in table && k.domain == OTHER_DOMAIN }

  predicate SizeOk(s: State) { |Own(s.table)| <= MAX_STATS_KEYS }

  lemma NumberNone(conns: map<nat, Conn>, which: Which)
    requires forall id :: id in conns ==> !which(conns[id])
    ensures Number(conns, which) == 0
  {
    assert Those(conns, which) == {};
  }

  lemma NumberLess(conns: map<nat, Conn>, some: Which, more: Which)
    requires forall id :: id in conns && some(conns[id]) ==> more(conns[id])
    ensures Number(conns, some) <= Number(conns, more)
  {
    SubsetSize(Those(conns, some), Those(conns, more));
  }

  /** A step is one connection's. */
  lemma OneConn(s: State, step: Step)
    requires Enabled(s, step)
    ensures step.id in Do(s, step).conns && Do(s, step).conns == s.conns[step.id := Do(s, step).conns[step.id]]
  {
  }

  /** The connections of a key that have no verdict yet. */
  function Owed(table: map<Key, Counters>, k: Key): int {
    if k in table then table[k].conns - Settled(table[k]) else 0
  }

  lemma OwedSet(table: map<Key, Counters>, j: Key, c: Counters, k: Key)
    ensures Owed(table[j := c], k) == if k == j then c.conns - Settled(c) else Owed(table, k)
  {
  }

  function OwedBy(conns: map<nat, Conn>, id: nat, k: Key): int {
    if id in conns && Owes(conns[id], k) then 1 else 0
  }

  /** What a key is owed changes with what the connection that goes on owes it. */
  ghost predicate OwesAlike(s: State, t: State, id: nat, k: Key) {
    Owed(t.table, k) - Owed(s.table, k) == OwedBy(t.conns, id, k) - OwedBy(s.conns, id, k)
  }

  /** A new key is owed nothing. */
  lemma EnsuredOwes(table: map<Key, Counters>, j: Key, k: Key)
    ensures Owed(Ensured(table, j), k) == Owed(table, k)
  {
    if j !in table {
      OwedSet(table, j, ZERO, k);
    }
  }

  lemma OpenedOwes(conns: map<nat, Conn>, id: nat, j: Key, k: Key)
    requires id !in conns
    ensures OwedBy(conns[id := Opened(j)], id, k) == 0 == OwedBy(conns, id, k)
  {
  }

  lemma OpenOwes(s: State, id: nat, domain: string, scheme: string, k: Key)
    requires Enabled(s, Open(id, domain, scheme))
    ensures OwesAlike(s, Do(s, Open(id, domain, scheme)), id, k)
  {
    var j := KeyFor(s.table, domain, scheme);
    EnsuredOwes(s.table, j, k);
    OpenedOwes(s.conns, id, j, k);
  }

  lemma CountOwes(s: State, id: nat, k: Key)
    requires Enabled(s, Count(id))
    ensures OwesAlike(s, Do(s, Count(id)), id, k)
  {
    OwedSet(s.table, s.conns[id].key, AddConn(s.table[s.conns[id].key]), k);
  }

  lemma RecordHeldOwes(s: State, id: nat, k: Key)
    requires Enabled(s, RecordHeld(id))
    ensures OwesAlike(s, Do(s, RecordHeld(id)), id, k)
  {
    var c := s.conns[id];
    OwedSet(s.table, c.key, AddHeld(s.table[c.key], c.held), k);
  }

  lemma RecordVerdictOwes(s: State, id: nat, k: Key)
    requires Enabled(s, RecordVerdict(id))
    ensures OwesAlike(s, Do(s, RecordVerdict(id)), id, k)
  {
    var c := s.conns[id];
    OwedSet(s.table, c.key, AddVerdict(s.table[c.key], c.verdict), k);
  }

  lemma StepOwes(s: State, step: Step, k: Key)
    requires Enabled(s, step)
    ensures OwesAlike(s, Do(s, step), step.id, k)
  {
    match step
    case Open(id, domain, scheme) => OpenOwes(s, id, domain, scheme, k);
    case Count(id) => CountOwes(s, id, k);
    case Judge(_, _, _) =>
    case RecordHeld(id) => RecordHeldOwes(s, id, k);
    case RecordVerdict(id) => RecordVerdictOwes(s, id, k);
  }

  lemma StepAddsUp(s: State, step: Step, k: Key)
    requires Enabled(s, step) && KeysThere(s) && AddsUp(s, k)
    ensures AddsUp(Do(s, step), k)
  {
    OneConn(s, step);
    StepOwes(s, step, k);
    NumberSet(s.conns, step.id, Do(s, step).conns[step.id], InFlight(k));
    if k !in s.table {
      NumberNone(s.conns, InFlight(k));
    }
  }

  lemma StepHeldAddsUp(s: State, step: Step, k: Key)
    requires Enabled(s, step) && KeysThere(s) && HeldAddsUp(s, k)
    ensures HeldAddsUp(Do(s, step), k)
  {
    var id, c := step.id, Do(s, step).conns[step.id];
    NumberSet(s.conns, id, c, HeldInFlight(k));
    NumberSet(s.conns, id, c, TimingOut(k));
    if k !in s.table {
      NumberNone(s.conns, HeldInFlight(k));
      NumberNone(s.conns, TimingOut(k));
    }
  }

  /** A step changes the connections of at most one key, by at most one. */
  lemma StepConns(s: State, step: Step)
    requires Enabled(s, step) && KeysThere(s)
    ensures var t := Do(s, step);
            var k := t.conns[step.id].key;
            k in t.table && ConnsOf(t.table) == ConnsOf(s.table)[k := t.table[k].conns]
  {
  }

  lemma StepKeepsTotal(s: State, step: Step)
    requires Enabled(s, step) && KeysThere(s) && TotalOk(s)
    ensures TotalOk(Do(s, step))
  {
    var t := Do(s, step);
    StepConns(s, step);
    NumberSet(s.conns, step.id, t.conns[step.id], PastCount());
    SumSet(ConnsOf(s.table), t.conns[step.id].key, t.table[t.conns[step.id].key].conns);
  }

  lemma OwnGrows(table: map<Key, Counters>, k: Key)
    requires k !in table && |Own(table)| <= MAX_STATS_KEYS
    requires k.domain != OTHER_DOMAIN ==> |table| < MAX_STATS_KEYS
    ensures |Own(table[k := ZERO])| <= MAX_STATS_KEYS
  {
    if k.domain != OTHER_DOMAIN {
      assert Own(table[k := ZERO]) == Own(table) + {k};
      SubsetSize(Own(table), table.Keys);
    } else {
      assert Own(table[k := ZERO]) == Own(table);
    }
  }

  lemma StepKeepsSize(s: State, step: Step)
    requires Enabled(s, step) && SizeOk(s)
    ensures SizeOk(Do(s, step))
  {
    if step.Open? && KeyFor(s.table, step.domain, step.scheme) !in s.table {
      OwnGrows(s.table, KeyFor(s.table, step.domain, step.scheme));
    } else {
      assert Own(Do(s, step).table) == Own(s.table);
    }
  }

  lemma {:induction false} RunKeeps(states: seq<State>, steps: seq<Step>, n: nat)
    requires Run(states, steps) && n < |states|
    ensures KeysThere(states[n]) && TotalOk(states[n]) && SizeOk(states[n])
    ensures forall k :: Balanced(states[n], k)
  {
    if n == 0 {
      SumEmpty<Key>();
      assert ConnsOf(states[0].table) == map[];
      NumberNone(states[0].conns, PastCount());
    } else {
      RunKeeps(states, steps, n - 1);
      StepKeepsTotal(states[n - 1], steps[n - 1]);
      StepKeepsSize(states[n - 1], steps[n - 1]);
      forall k ensures Balanced(states[n], k) {
        assert Balanced(states[n - 1], k);
        StepAddsUp(states[n - 1], steps[n - 1], k);
        StepHeldAddsUp(states[n - 1], steps[n - 1], k);
      }
    }
  }

  // --- what every run guarantees ----------------------------------------------------------------

  /** For each key, at every moment, the connections counted are those allowed, denied and
      timed out and those still in flight; and of them, no more were held than there are,
      and every one that timed out was. */
  lemma ConnectionsAreConserved(states: seq<State>, steps: seq<Step>, n: nat, k: Key)
    requires Run(states, steps) && n < |states| && k in states[n].table
    ensures var c := states[n].table[k];
            && c.conns == c.allowed + c.denied + c.timedOut + Number(states[n].conns, InFlight(k))
            && c.timedOut <= c.held <= c.conns
  {
    RunKeeps(states, steps, n);
    assert Balanced(states[n], k);
    NumberLess(states[n].conns, HeldInFlight(k), InFlight(k));
  }

  /** Once no connection is on its way, each key's connections add up exactly. */
  lemma QuietTableAddsUp(states: seq<State>, steps: seq<Step>, n: nat, k: Key)
    requires Run(states, steps) && n < |states| && k in states[n].table
    requires forall id :: id in states[n].conns ==> states[n].conns[id].Recorded?
    ensures var c := states[n].table[k]; c.conns == c.allowed + c.denied + c.timedOut
  {
    ConnectionsAreConserved(states, steps, n, k);
    NumberNone(states[n].conns, InFlight(k));
  }

  /** Over the whole table, the connections add up to the calls of conn. */
  lemma EveryConnectionIsCounted(states: seq<State>, steps: seq<Step>, n: nat)
    requires Run(states, steps) && n < |states|
    ensures Sum(ConnsOf(states[n].table)) == Number(states[n].conns, PastCount())
  {
    RunKeeps(states, steps, n);
  }

  /** Nothing ever leaves the table or goes down, so a connection's counters are those of
      its key for good. */
  lemma {:induction false} CountersOnlyGrow(states: seq<State>, steps: seq<Step>, a: nat, b: nat, k: Key)
    requires Run(states, steps) && a <= b < |states| && k in states[a].table
    ensures k in states[b].table
    ensures var c, d := states[a].table[k], states[b].table[k];
            c.conns <= d.conns && c.allowed <= d.allowed && c.denied <= d.denied && c.held <= d.held && c.timedOut <= d.timedOut
    decreases b - a
  {
    if a < b {
      CountersOnlyGrow(states, steps, a, b - 1, k);
    }
  }

  /** The table never exceeds 10000 keys and one "other" key for each scheme. */
  lemma TableIsBounded(states: seq<State>, steps: seq<Step>, n: nat, schemes: set<string>)
    requires Run(states, steps) && n < |states|
    requires forall k :: k in states[n].table ==> k.scheme in schemes
    ensures |states[n].table| <= 10000 + |schemes|
  {
    RunKeeps(states, steps, n);
    var table := states[n].table;
    assert table.Keys == Own(table) + Overflow(table);
    assert |table.Keys| == |table|;
    SchemesOf(Overflow(table), schemes);
  }

  lemma {:induction false} SchemesOf(keys: set<Key>, schemes: set<string>)
    requires forall k :: k in keys ==> k.domain == OTHER_DOMAIN && k.scheme in schemes
    ensures |keys| <= |schemes|
    decreases |keys|
  {
    if keys != {} {
      var k :| k in keys;
      SchemesOf(keys - {k}, schemes - {k.scheme});
    }
  }

  /** Nothing gets stuck: every connection that is not through can take its next step, whatever
      its verdict, and any other can be opened. */
  lemma NeverStuck(states: seq<State>, steps: seq<Step>, n: nat, id: nat)
    requires Run(states, steps) && n < |states|
    ensures id !in states[n].conns ==> forall domain, scheme :: Enabled(states[n], Open(id, domain, scheme))
    ensures id in states[n].conns ==>
              match states[n].conns[id]
              case Opened(_) => Enabled(states[n], Count(id))
              case Counted(_) => forall v, held :: Enabled(states[n], Judge(id, v, held)) <==> (v == TimedOut ==> held)
              case Judged(_, _, _) => Enabled(states[n], RecordHeld(id))
              case HeldDone(_, _, _) => Enabled(states[n], RecordVerdict(id))
              case Recorded(_) => true
  {
    RunKeeps(states, steps, n);
  }
}
