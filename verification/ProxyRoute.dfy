/** Where kproxy sends a connection, and which counters it moves (kproxy/proxy.go,
    kproxy/stats.go). StatsSteps interleaves many of them. */
module ProxyRoute {
  import opened Wrappers
  import opened Sums
  import opened RuleTable
  import opened RootDomain
  import T = RulesText
  import E = EngineSteps
  import S = StatsSteps

  const UNKNOWN_DOMAIN: string := "unknown"

  function VerdictOf(r: E.Reply): S.Verdict {
    match r
    case Allowed(_) => S.Allowed
    case Denied => S.Denied
    case TimedOut => S.TimedOut
  }

  /** The name a connection asks for is missing or an IP literal. */
  predicate Nameless(name: string, ip: T.IpParser) { name == "" || ip(name) != T.NotAnIp }

  /** An allow rule answers for the name and sends it to `target`. */
  ghost predicate Targeted(rules: Option<Rules>, name: string, target: string) {
    && rules.Some? && target != ""
    && exists d :: IsLongestMatch(rules.value.domains, name, d) && rules.value.domains[d] == Rule(Allow, target)
  }

  function One(b: bool): nat { if b then 1 else 0 }

  /** One connection more, with its verdict: each counter goes up by one or stays. */
  function OneMore(c: S.Counters, v: S.Verdict, held: bool): S.Counters {
    S.Counters(conns := c.conns + 1, allowed := c.allowed + One(v == S.Allowed), denied := c.denied + One(v == S.Denied),
               held := c.held + One(held), timedOut := c.timedOut + One(v == S.TimedOut))
  }

  lemma OneMoreIs(c: S.Counters, v: S.Verdict, held: bool)
    ensures OneMore(c, v, held) == S.AddVerdict(S.AddHeld(S.AddConn(c), held), v)
  {
  }

  ghost predicate AddsUp(table: map<S.Key, S.Counters>) {
    forall k :: k in table ==> table[k].conns == S.Settled(table[k])
  }

  ghost function Total(table: map<S.Key, S.Counters>): int { Sum(S.ConnsOf(table)) }

  /** `after` has the key `k` and is otherwise `before`. */
  ghost predicate SameElsewhere(before: map<S.Key, S.Counters>, after: map<S.Key, S.Counters>, k: S.Key) {
    && k in after && (forall j :: j in before ==> j in after) && (forall j :: j in after && j != k ==> j in before)
    && (forall j :: j in before && j != k ==> after[j] == before[j])
  }

  /** `after` is `before` with one connection more, counted under `k` alone. */
  ghost predicate CountedOnce(before: map<S.Key, S.Counters>, after: map<S.Key, S.Counters>, k: S.Key, v: S.Verdict, held: bool) {
    SameElsewhere(before, after, k) && after[k] == OneMore(S.Ensured(before, k)[k], v, held)
  }

  lemma OneMoreAddsUp(c: S.Counters, v: S.Verdict, held: bool)
    ensures OneMore(c, v, held).conns == c.conns + 1
    ensures c.conns == S.Settled(c) ==> OneMore(c, v, held).conns == S.Settled(OneMore(c, v, held))
  {
  }

  lemma TotalGrows(before: map<S.Key, S.Counters>, after: map<S.Key, S.Counters>, k: S.Key)
    requires SameElsewhere(before, after, k)
    requires after[k].conns == S.Ensured(before, k)[k].conns + 1
    ensures Total(after) == Total(before) + 1
  {
    SumSet(S.ConnsOf(before), k, after[k].conns);
    assert S.ConnsOf(after) == S.ConnsOf(before)[k := after[k].conns];
  }

  lemma StillAddsUp(before: map<S.Key, S.Counters>, after: map<S.Key, S.Counters>, k: S.Key)
    requires AddsUp(before) && SameElsewhere(before, after, k)
    requires after[k].conns == S.Settled(after[k])
    ensures AddsUp(after)
  {
    forall j | j in after ensures after[j].conns == S.Settled(after[j]) {
      if j != k { assert after[j] == before[j]; }
    }
  }

  lemma OneMoreConn(before: map<S.Key, S.Counters>, after: map<S.Key, S.Counters>, k: S.Key, v: S.Verdict, held: bool)
    requires CountedOnce(before, after, k, v, held)
    ensures after[k].conns == S.Ensured(before, k)[k].conns + 1
    ensures AddsUp(before) ==> after[k].conns == S.Settled(after[k])
  {
    OneMoreAddsUp(S.Ensured(before, k)[k], v, held);
  }

  /** Counting a connection so keeps every key adding up. */
  lemma CountingAddsUp(before: map<S.Key, S.Counters>, after: map<S.Key, S.Counters>, k: S.Key, v: S.Verdict, held: bool)
    requires CountedOnce(before, after, k, v, held)
    ensures AddsUp(before) ==> AddsUp(after)
  {
    OneMoreConn(before, after, k, v, held);
    if AddsUp(before) {
      StillAddsUp(before, after, k);
    }
  }

  /** And makes the whole one more. */
  lemma CountingTotal(before: map<S.Key, S.Counters>, after: map<S.Key, S.Counters>, k: S.Key, v: S.Verdict, held: bool)
    requires CountedOnce(before, after, k, v, held)
    ensures Total(after) == Total(before) + 1
  {
    OneMoreConn(before, after, k, v, held);
    TotalGrows(before, after, k);
  }

  /** `k` is the key for a domain. */
  predicate Under(table: map<S.Key, S.Counters>, k: S.Key, domain: string, scheme: string) {
    k == S.KeyFor(table, domain, scheme)
  }

  /** A host with no root domain is allowed, to a target that is set for it, or else denied
      and counted as unknown. */
  ghost predicate RootlessRoute(table: map<S.Key, S.Counters>, name: string, scheme: string, rules: Option<Rules>, o: S.Verdict, k: S.Key, addr: string) {
    if exists target :: Targeted(rules, name, target)
    then o == S.Allowed && Targeted(rules, name, addr) && Under(table, k, name, scheme)
    else o == S.Denied && addr == "" && Under(table, k, "unknown", scheme)
  }

  /** A host with one gets the engine's answer, and the address to dial: the target of the
      rule that allows it, or else the host itself. */
  predicate AnsweredRoute(reply: E.Reply, name: string, port: string, o: S.Verdict, addr: string) {
    && (o == S.Allowed <==> reply.Allowed?) && (o == S.Denied <==> reply.Denied?) && (o == S.TimedOut <==> reply.TimedOut?)
    && addr == if reply.Allowed? && reply.target != "" then reply.target else T.JoinHostPort(name, port)
  }

  lemma NotTargeted(r: Rules, name: string, rule: Option<Rule>)
    requires rule == Answer(r, name)
    ensures forall target :: Targeted(Some(r), name, target) <==> target != "" && rule == Some(Rule(Allow, target))
  {
    WalkFindsLongest(r.domains, name);
    if rule.Some? {
      var d := Match(r.domains, name).value;
      assert IsLongestMatch(r.domains, name, d);
      forall e | IsLongestMatch(r.domains, name, e) ensures e == d {
        CoversBySameLength(d, e, name);
      }
    }
  }

  /** Whether the engine held the connection, if it was asked at all. */
  predicate HeldFor(name: string, psl: SuffixList, ip: T.IpParser, check: string -> (E.Reply, bool)) {
    !Nameless(name, ip) && Root(name, psl, ip) != "" && check(name).1
  }

  class Stats {
    var table: map<S.Key, S.Counters>

    constructor ()
      ensures table == map[]
    {
      table := map[];
    }

    /** conn. */
    method Conn(domain: string, scheme: string) returns (k: S.Key)
      modifies this
      ensures k == S.KeyFor(old(table), domain, scheme)
      ensures SameElsewhere(old(table), table, k)
      ensures table[k] == S.AddConn(S.Ensured(old(table), k)[k])
      ensures k.scheme == scheme && (k.domain == domain || (k.domain == "other" && |old(table)| >= 10000))
    {
      k := S.Key(domain, scheme);
      if k !in table && |table| >= S.MAX_STATS_KEYS {
        k := S.Key(S.OTHER_DOMAIN, scheme);
      }
      if k !in table {
        table := table[k := S.ZERO];
      }
      table := table[k := table[k].(conns := table[k].conns + 1)];
    }

    /** record. */
    method Record(k: S.Key, o: S.Verdict, held: bool)
      requires k in table
      modifies this
      ensures table.Keys == old(table).Keys && SameElsewhere(old(table), table, k)
      ensures table[k] == S.AddVerdict(S.AddHeld(old(table)[k], held), o)
    {
      if held {
        table := table[k := table[k].(held := table[k].held + 1)];
      }
      var c := table[k];
      match o
      case Allowed => table := table[k := c.(allowed := c.allowed + 1)];
      case Denied => table := table[k := c.(denied := c.denied + 1)];
      case TimedOut => table := table[k := c.(timedOut := c.timedOut + 1)];
    }
  }

  class Proxy {
    const stats: Stats
    const psl: SuffixList
    const ip: T.IpParser

    constructor (stats: Stats, psl: SuffixList, ip: T.IpParser)
      ensures this.stats == stats && this.psl == psl && this.ip == ip
    {
      this.stats, this.psl, this.ip := stats, psl, ip;
    }

    /** refuse. */
    method Refuse(scheme: string) returns (o: S.Verdict, k: S.Key, addr: string)
      modifies stats
      ensures o == S.Denied && addr == "" && k == S.KeyFor(old(stats.table), "unknown", scheme)
      ensures CountedOnce(old(stats.table), stats.table, k, o, false)
    {
      k := stats.Conn(UNKNOWN_DOMAIN, scheme);
      stats.Record(k, S.Denied, false);
      OneMoreIs(S.Ensured(old(stats.table), k)[k], S.Denied, false);
      return S.Denied, k, "";
    }

    /** route: `rules` are the current ones and `check` is what Engine.Check answers.
        Every connection is counted once. A missing name or an IP literal is denied; a host
        with no root domain is allowed exactly when a target is set for it; any other gets
        the engine's answer, under its root domain. */
    method Route(host: string, scheme: string, port: string, rules: Option<Rules>, check: string -> (E.Reply, bool))
        returns (o: S.Verdict, k: S.Key, addr: string)
      modifies stats
      ensures Nameless(T.NormHost(host), ip) ==> o == S.Denied && addr == "" && Under(old(stats.table), k, "unknown", scheme)
      ensures !Nameless(T.NormHost(host), ip) && Root(T.NormHost(host), psl, ip) == "" ==>
                RootlessRoute(old(stats.table), T.NormHost(host), scheme, rules, o, k, addr)
      ensures !Nameless(T.NormHost(host), ip) && Root(T.NormHost(host), psl, ip) != "" ==>
                && Under(old(stats.table), k, Root(T.NormHost(host), psl, ip), scheme)
                && AnsweredRoute(check(T.NormHost(host)).0, T.NormHost(host), port, o, addr)
      ensures CountedOnce(old(stats.table), stats.table, k, o, HeldFor(T.NormHost(host), psl, ip, check))
      ensures Total(stats.table) == Total(old(stats.table)) + 1
      ensures AddsUp(old(stats.table)) ==> AddsUp(stats.table)
    {
      var name := T.NormHost(host);
      ghost var before := stats.table;
      if name == "" || ip(name) != T.NotAnIp {
        o, k, addr := Refuse(scheme);
        CountingAddsUp(before, stats.table, k, o, false);
        CountingTotal(before, stats.table, k, o, false);
        return;
      }
      var root := Root(name, psl, ip);
      if root == "" {
        var rule := None;
        if rules.Some? {
          rule := Lookup(rules.value, name);
          NotTargeted(rules.value, name, rule);
        }
        if rule.None? || rule.value.verdict != Allow || rule.value.target == "" {
          o, k, addr := Refuse(scheme);
        } else {
          k := stats.Conn(name, scheme);
          stats.Record(k, S.Allowed, false);
          OneMoreIs(S.Ensured(before, k)[k], S.Allowed, false);
          o, addr := S.Allowed, rule.value.target;
          assert Targeted(rules, name, addr);
        }
        CountingAddsUp(before, stats.table, k, o, false);
        CountingTotal(before, stats.table, k, o, false);
        return;
      }
      k := stats.Conn(root, scheme);
      var (reply, held) := check(name);
      stats.Record(k, VerdictOf(reply), held);
      OneMoreIs(S.Ensured(before, k)[k], VerdictOf(reply), held);
      var target := if reply.Allowed? then reply.target else "";
      if target == "" {
        target := T.JoinHostPort(name, port);
      }
      o, addr := VerdictOf(reply), target;
      CountingAddsUp(before, stats.table, k, o, held);
      CountingTotal(before, stats.table, k, o, held);
    }
  }
}
