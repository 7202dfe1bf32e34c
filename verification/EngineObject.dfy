/** The engine's own code: what runs with the mutex held (kproxy/engine.go). The
    step system in EngineSteps interleaves it; here it is as the object's methods. */
module EngineObject {
  import opened Wrappers
  import opened RuleTable
  import opened EngineSteps
  import opened RootDomain
  import opened Sums
  import T = RulesText

  /** What hosts are grouped by: the root domain of each and its private suffixes. */
  datatype Grouping = Grouping(root: string -> string, shared: string -> seq<string>)

  function ByRootDomain(psl: SuffixList, ip: T.IpParser): Grouping {
    Grouping(h => Root(h, psl, ip), h => Suffixes(h, psl).1)
  }

  /** The undecided hosts under one root domain. */
  datatype Group = Group(firstSeen: int, hits: nat, hosts: map<string, PendingHost>, shared: set<string>)

  function Hits(pending: map<string, PendingHost>): map<string, int> {
    map h | h in pending :: pending[h].hits
  }

  function GroupHits(groups: map<string, Group>): map<string, int> {
    map r | r in groups :: groups[r].hits
  }

  /** The hosts of `pending` whose root is `root`. */
  function Under(pending: map<string, PendingHost>, root: string, gr: Grouping): map<string, PendingHost> {
    map h | h in pending && gr.root(h) == root :: pending[h]
  }

  /** Groups holding each host once, under its root, with the earliest sighting and the
      private suffixes of what they hold. */
  ghost predicate Groups(groups: map<string, Group>, pending: map<string, PendingHost>, gr: Grouping) {
    && (forall h :: h in pending ==> gr.root(h) in groups)
    && (forall r :: r in groups ==> IsGroup(groups[r], Under(pending, r, gr), gr))
  }

  ghost predicate IsGroup(g: Group, hosts: map<string, PendingHost>, gr: Grouping) {
    && g.hosts == hosts && hosts != map[]
    && g.hits == Sum(Hits(hosts))
    && (forall h :: h in hosts ==> g.firstSeen <= hosts[h].firstSeen)
    && (exists h :: h in hosts && hosts[h].firstSeen == g.firstSeen)
    && (forall x :: x in g.shared <==> exists h :: h in hosts && x in gr.shared(h))
  }

  class Engine {
    const persisting: bool
    var rules: Option<Rules>
    var file: Option<string>
    var pending: map<string, PendingHost>

    constructor (persisting: bool)
      ensures rules == None && file == None && pending == map[] && this.persisting == persisting
    {
      this.persisting := persisting;
      rules, file, pending := None, None, map[];
    }

    /** markPending: one more hit, unless that would make the list too long. */
    method MarkHost(host: string, now: int)
      modifies this`pending
      ensures pending == MarkPending(old(pending), host, now)
      ensures host in pending && host in old(pending) ==> pending[host].firstSeen == old(pending)[host].firstSeen
      ensures |old(pending)| <= 1000 ==> |pending| <= 1000
    {
      if host !in pending {
        if |pending| >= MAX_PENDING {
          return;
        }
        pending := pending[host := PendingHost(now, 0)];
      }
      var h := pending[host];
      pending := pending[host := h.(hits := h.hits + 1)];
    }

    /** publish: persist, drop what the new rules decide, make them current. `written`
        is whether writing the file succeeds. */
    method Publish(r: Rules, written: bool) returns (ok: bool)
      modifies this
      ensures ok == (!persisting || written)
      ensures ok ==> rules == Some(r) && pending == Prune(old(pending), r) && file == if persisting then Some(T.Format(r)) else old(file)
      ensures !ok ==> rules == old(rules) && pending == old(pending) && file == old(file)
    {
      if persisting {
        if !written {
          return false;
        }
        var text := T.FormatRules(r);
        file := Some(text);
      }
      DropDecided(r);
      rules := Some(r);
      return true;
    }

    /** The loop over the list in `publish`. */
    method DropDecided(r: Rules)
      modifies this`pending
      ensures pending == Prune(old(pending), r)
    {
      var left := pending.Keys;
      ghost var all := pending;
      HalfwayEnds(all, r);
      while left != {}
        invariant left <= all.Keys && pending == Halfway(all, left, r)
        decreases |left|
      {
        var host :| host in left;
        var rule := Lookup(r, host);
        HalfwayStep(all, left, host, r);
        left := left - {host};
        if rule.Some? || r.default != Ask {
          pending := pending - {host};
        }
      }
    }

    /** What a rule change comes to, done alone: the entry a ledger would have for it. */
    twostate predicate Did(req: Request, outcome: Outcome)
      reads this
    {
      var now_ := Requested(old(rules), req);
      && rules == Replay(old(rules), [Entry(req, outcome)])
      && match outcome
         case Published =>
           && now_.Ok? && pending == Prune(old(pending), now_.value)
           && file == if persisting then Some(T.Format(now_.value)) else old(file)
         case Refused(why) => now_ == Err(why) && pending == old(pending) && file == old(file)
         case PersistFailed => persisting && now_.Ok? && pending == old(pending) && file == old(file)
    }

    /** Installs a complete rule set. */
    method ReplaceRules(r: Rules, written: bool) returns (outcome: Outcome)
      modifies this
      ensures Did(Replace(r), outcome)
    {
      var ok := Publish(r, written);
      outcome := if ok then Published else PersistFailed;
      ReplayOne(old(rules), Entry(Replace(r), outcome));
    }

    /** Sets one name's verdict on top of the current rules. */
    method Decide(domain: string, v: Verdict, written: bool) returns (outcome: Outcome)
      modifies this
      ensures Did(SetVerdict(domain, v), outcome)
    {
      if rules == None {
        outcome := Refused(NotLoaded);
      } else {
        var cur := rules.value;
        var ok := Publish(cur.(domains := cur.domains[domain := Rule(v, "")]), written);
        outcome := if ok then Published else PersistFailed;
      }
      ReplayOne(old(rules), Entry(SetVerdict(domain, v), outcome));
    }

    /** Deletes one name's rule from the current rules. */
    method RemoveName(domain: string, written: bool) returns (outcome: Outcome)
      modifies this
      ensures Did(Remove(domain), outcome)
    {
      if rules == None {
        outcome := Refused(NotLoaded);
      } else if domain !in rules.value.domains {
        outcome := Refused(NoSuchRule);
      } else {
        var cur := rules.value;
        var ok := Publish(cur.(domains := cur.domains - {domain}), written);
        outcome := if ok then Published else PersistFailed;
      }
      ReplayOne(old(rules), Entry(Remove(domain), outcome));
    }

    /** Pending: the list by root domain. Every host is in one group, and the hits of
        the groups are the hits of the list. */
    method ListPending(psl: SuffixList, ip: T.IpParser) returns (groups: map<string, Group>)
      ensures Groups(groups, pending, ByRootDomain(psl, ip))
      ensures Sum(GroupHits(groups)) == Sum(Hits(pending))
      ensures forall h :: h in pending ==>
                Root(h, psl, ip) in groups && h in groups[Root(h, psl, ip)].hosts && groups[Root(h, psl, ip)].hosts[h] == pending[h]
      ensures forall r, h :: r in groups && h in groups[r].hosts ==> h in pending && Root(h, psl, ip) == r
      ensures forall r, x :: r in groups ==> (x in groups[r].shared <==> exists h :: h in groups[r].hosts && x in Suffixes(h, psl).1)
    {
      groups := GroupByRoot(pending, ByRootDomain(psl, ip));
      GroupedByRoot(groups, pending, psl, ip);
    }
  }

  /** The list when the hosts in `left` are still to be looked at. */
  function Halfway(all: map<string, PendingHost>, left: set<string>, r: Rules): map<string, PendingHost> {
    map h | h in all && (h in left || !(Answer(r, h).Some? || r.default != Ask)) :: all[h]
  }

  lemma HalfwayEnds(all: map<string, PendingHost>, r: Rules)
    ensures Halfway(all, all.Keys, r) == all && Halfway(all, {}, r) == Prune(all, r)
  {
  }

  lemma HalfwayStep(all: map<string, PendingHost>, left: set<string>, host: string, r: Rules)
    requires left <= all.Keys && host in left
    ensures Halfway(all, left - {host}, r) ==
            if Answer(r, host).Some? || r.default != Ask then Halfway(all, left, r) - {host} else Halfway(all, left, r)
  {
  }

  lemma ReplayOne(initial: Option<Rules>, e: Entry)
    ensures Replay(initial, [e]) ==
            if e.outcome == Published && Requested(initial, e.req).Ok? then Some(Requested(initial, e.req).value) else initial
  {
    assert [e][..0] == [];
  }

  lemma GroupedByRoot(groups: map<string, Group>, pending: map<string, PendingHost>, psl: SuffixList, ip: T.IpParser)
    requires Groups(groups, pending, ByRootDomain(psl, ip))
    ensures forall h :: h in pending ==>
              Root(h, psl, ip) in groups && h in groups[Root(h, psl, ip)].hosts && groups[Root(h, psl, ip)].hosts[h] == pending[h]
    ensures forall r, h :: r in groups && h in groups[r].hosts ==> h in pending && Root(h, psl, ip) == r
    ensures forall r, x :: r in groups ==> (x in groups[r].shared <==> exists h :: h in groups[r].hosts && x in Suffixes(h, psl).1)
  {
    var gr := ByRootDomain(psl, ip);
    forall r | r in groups ensures IsGroup(groups[r], Under(pending, r, gr), gr) {
    }
    forall h | h in pending
      ensures Root(h, psl, ip) in groups && h in groups[Root(h, psl, ip)].hosts && groups[Root(h, psl, ip)].hosts[h] == pending[h]
    {
      assert gr.root(h) in groups;
    }
    forall r, x | r in groups ensures x in groups[r].shared <==> exists h :: h in groups[r].hosts && x in Suffixes(h, psl).1 {
      assert x in groups[r].shared <==> exists h :: h in groups[r].hosts && x in gr.shared(h);
    }
  }

  // --- grouping -------------------------------------------------------------------------

  lemma UnderAdd(seen: map<string, PendingHost>, host: string, h: PendingHost, r: string, gr: Grouping)
    requires host !in seen
    ensures Under(seen[host := h], r, gr) ==
            if gr.root(host) == r then Under(seen, r, gr)[host := h] else Under(seen, r, gr)
  {
  }

  lemma HitsAdd(hosts: map<string, PendingHost>, host: string, h: PendingHost)
    requires host !in hosts
    ensures Sum(Hits(hosts[host := h])) == Sum(Hits(hosts)) + h.hits
  {
    assert Hits(hosts[host := h]) == Hits(hosts)[host := h.hits];
    SumSet(Hits(hosts), host, h.hits);
  }

  /** A group with one more host. */
  function Joined(g: Group, host: string, h: PendingHost, gr: Grouping): Group {
    Group(if h.firstSeen < g.firstSeen then h.firstSeen else g.firstSeen,
          g.hits + h.hits,
          g.hosts[host := h],
          g.shared + set x | x in gr.shared(host))
  }

  lemma JoinedIsGroup(g: Group, hosts: map<string, PendingHost>, host: string, h: PendingHost, gr: Grouping)
    requires host !in hosts
    requires if hosts == map[] then g == Group(h.firstSeen, 0, map[], {}) else IsGroup(g, hosts, gr)
    ensures IsGroup(Joined(g, host, h, gr), hosts[host := h], gr)
  {
    HitsAdd(hosts, host, h);
    assert hosts == map[] ==> Hits(hosts) == map[];
    var all, j := hosts[host := h], Joined(g, host, h, gr);
    assert host in all && all[host] == h;
    if hosts != map[] {
      var first :| first in hosts && hosts[first].firstSeen == g.firstSeen;
      assert first in all && all[first] == hosts[first];
    }
    forall x ensures x in j.shared <==> exists k :: k in all && x in gr.shared(k) {
      if hosts != map[] && x in g.shared {
        var k :| k in hosts && x in gr.shared(k);
        assert k in all;
      }
    }
  }

  /** The part of `pending` already grouped. */
  function Seen(pending: map<string, PendingHost>, left: set<string>): map<string, PendingHost> {
    map h | h in pending && h !in left :: pending[h]
  }

  lemma SeenStep(pending: map<string, PendingHost>, left: set<string>, host: string)
    requires host in left && host in pending
    ensures host !in Seen(pending, left)
    ensures Seen(pending, left - {host}) == Seen(pending, left)[host := pending[host]]
  {
  }

  ghost predicate Conserved(groups: map<string, Group>, pending: map<string, PendingHost>) {
    Sum(GroupHits(groups)) == Sum(Hits(pending))
  }

  method GroupByRoot(pending: map<string, PendingHost>, gr: Grouping) returns (groups: map<string, Group>)
    ensures Groups(groups, pending, gr)
    ensures Conserved(groups, pending)
  {
    groups := map[];
    var left := pending.Keys;
    NoGroups(pending, gr);
    while left != {}
      invariant left <= pending.Keys
      invariant Groups(groups, Seen(pending, left), gr)
      invariant Conserved(groups, Seen(pending, left))
      decreases |left|
    {
      var host :| host in left;
      var h := pending[host];
      var root := gr.root(host);
      var g := if root in groups then groups[root] else Group(h.firstSeen, 0, map[], {});
      SeenStep(pending, left, host);
      AddKeepsGroups(groups, Seen(pending, left), host, h, g, gr);
      AddConserves(groups, Seen(pending, left), host, h, root, Joined(g, host, h, gr));
      groups := groups[root := Joined(g, host, h, gr)];
      left := left - {host};
    }
    assert Seen(pending, left) == pending;
  }

  lemma NoGroups(pending: map<string, PendingHost>, gr: Grouping)
    ensures Seen(pending, pending.Keys) == map[]
    ensures Groups(map[], map[], gr) && Conserved(map[], map[])
  {
    assert Hits(map[]) == map[] && GroupHits(map[]) == map[];
  }

  lemma GroupHitsSet(groups: map<string, Group>, root: string, g: Group)
    ensures GroupHits(groups[root := g]) == GroupHits(groups)[root := g.hits]
  {
  }

  lemma AddConserves(groups: map<string, Group>, seen: map<string, PendingHost>, host: string, h: PendingHost, root: string, j: Group)
    requires host !in seen && Conserved(groups, seen)
    requires j.hits == h.hits + if root in groups then groups[root].hits else 0
    ensures Conserved(groups[root := j], seen[host := h])
  {
    HitsAdd(seen, host, h);
    GroupHitsSet(groups, root, j);
    SumSet(GroupHits(groups), root, j.hits);
  }

  lemma AddKeepsGroups(groups: map<string, Group>, seen: map<string, PendingHost>, host: string, h: PendingHost, g: Group,
                       gr: Grouping)
    requires Groups(groups, seen, gr) && host !in seen
    requires var root := gr.root(host);
             g == if root in groups then groups[root] else Group(h.firstSeen, 0, map[], {})
    ensures Groups(groups[gr.root(host) := Joined(g, host, h, gr)], seen[host := h], gr)
  {
    var root := gr.root(host);
    var after := groups[root := Joined(g, host, h, gr)];
    UnderRoot(groups, seen, root, gr);
    JoinedIsGroup(g, Under(seen, root, gr), host, h, gr);
    forall r | r in after ensures IsGroup(after[r], Under(seen[host := h], r, gr), gr) {
      UnderAdd(seen, host, h, r, gr);
      if r != root {
        assert IsGroup(groups[r], Under(seen, r, gr), gr);
      }
    }
    forall k | k in seen[host := h] ensures gr.root(k) in after {
    }
  }

  /** What is under a root, in its group or not at all. */
  lemma UnderRoot(groups: map<string, Group>, seen: map<string, PendingHost>, root: string, gr: Grouping)
    requires Groups(groups, seen, gr)
    ensures if root in groups then IsGroup(groups[root], Under(seen, root, gr), gr) else Under(seen, root, gr) == map[]
  {
  }
}
