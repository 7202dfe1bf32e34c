/** kproxy's rule table: which rule answers for a host (kproxy/rules.go). */
module RuleTable {
  import opened Wrappers
  import Text

  datatype Verdict = Allow | Deny

  /** What happens to a host no rule matches. */
  datatype Policy = AllowByDefault | DenyByDefault | Ask

  /** A verdict, plus for an allow an optional address to dial instead. */
  datatype Rule = Rule(verdict: Verdict, target: string)

  datatype Rules = Rules(default: Policy, domains: map<string, Rule>)

  /** `host` ends in "." + `d`. */
  predicate EndsAtDot(d: string, host: string) {
    |d| < |host| && host[|host| - |d| - 1] == '.' && host[|host| - |d|..] == d
  }

  /** What a rule for `d` is meant to match: `d` and every name ending in "." + `d`. */
  predicate Covers(d: string, host: string) {
    || host == d
    || EndsAtDot(d, host)
  }

  /** Where `name` has its first dot; its length when it has none. */
  function FirstDot(name: string): nat {
    Text.IndexOf(name, '.')
  }

  /** The label walk: `host`, then what follows its first dot, and so on. */
  function Match(domains: map<string, Rule>, host: string): Option<string>
    decreases |host|
  {
    if host in domains then Some(host)
    else if FirstDot(host) == |host| then None
    else Match(domains, host[FirstDot(host) + 1..])
  }

  /** `d` is the longest name in the table that covers `host`. */
  ghost predicate IsLongestMatch(domains: map<string, Rule>, host: string, d: string) {
    && d in domains && Covers(d, host)
    && forall e :: e in domains && Covers(e, host) ==> |e| <= |d|
  }

  lemma CoversIsSuffix(d: string, host: string)
    requires Covers(d, host)
    ensures |d| <= |host| && host[|host| - |d|..] == d
  {
  }

  /** Names of one host with the same length are the same name. */
  lemma CoversBySameLength(d: string, e: string, host: string)
    requires Covers(d, host) && Covers(e, host) && |d| == |e|
    ensures d == e
  {
    CoversIsSuffix(d, host);
    CoversIsSuffix(e, host);
  }

  /** A suffix shorter than a suffix is a suffix of it. */
  lemma TailOfTail(s: string, i: nat, n: nat)
    requires i <= |s| && n <= |s| - i
    ensures s[i..][|s| - i - n..] == s[|s| - n..]
  {
  }

  /** Names shorter than a suffix of the host end the host where they end the suffix. */
  lemma EndsAtDotTail(d: string, host: string, i: nat)
    requires i <= |host| && |d| < |host| - i
    ensures EndsAtDot(d, host) <==> EndsAtDot(d, host[i..])
  {
    TailOfTail(host, i, |d|);
  }

  /** Stepping over the first label loses only the host's own name. */
  lemma CoversStep(d: string, host: string)
    requires FirstDot(host) < |host|
    ensures Covers(d, host) <==> d == host || Covers(d, host[FirstDot(host) + 1..])
  {
    var dot := FirstDot(host);
    if |d| < |host| - dot - 1 {
      EndsAtDotTail(d, host, dot + 1);
    } else if EndsAtDot(d, host) {
      assert host[|host| - |d| - 1] == '.';
      assert |host| - |d| - 1 == dot;
    }
  }

  lemma CoversOnlySelf(d: string, host: string)
    requires FirstDot(host) == |host|
    ensures Covers(d, host) <==> d == host
  {
  }

  /** The walk finds exactly the longest match, and nothing exactly when there is none. */
  lemma {:induction false} WalkFindsLongest(domains: map<string, Rule>, host: string)
    ensures forall d :: Match(domains, host) == Some(d) <==> IsLongestMatch(domains, host, d)
    ensures Match(domains, host) == None <==> forall d :: d in domains ==> !Covers(d, host)
    decreases |host|
  {
    if host in domains {
      forall d | IsLongestMatch(domains, host, d) ensures d == host {
        assert Covers(host, host);
        CoversIsSuffix(d, host);
        CoversBySameLength(d, host, host);
      }
      forall e | e in domains && Covers(e, host) ensures |e| <= |host| {
        CoversIsSuffix(e, host);
      }
      assert IsLongestMatch(domains, host, host);
    } else if FirstDot(host) == |host| {
      forall d | d in domains ensures !Covers(d, host) {
        CoversOnlySelf(d, host);
      }
    } else {
      var parent := host[FirstDot(host) + 1..];
      WalkFindsLongest(domains, parent);
      forall d | d in domains ensures Covers(d, host) <==> Covers(d, parent) {
        CoversStep(d, host);
      }
      forall d ensures IsLongestMatch(domains, host, d) <==> IsLongestMatch(domains, parent, d) {
      }
    }
  }

  /** The loop of `lookup`: it returns the rule of the longest covering name. */
  method Lookup(r: Rules, host: string) returns (rule: Option<Rule>)
    ensures rule.Some? <==> exists d :: d in r.domains && Covers(d, host)
    ensures rule.Some? ==> exists d :: IsLongestMatch(r.domains, host, d) && rule.value == r.domains[d]
    ensures rule == Answer(r, host)
  {
    WalkFindsLongest(r.domains, host);
    var name := host;
    while true
      invariant Match(r.domains, name) == Match(r.domains, host)
      decreases |name|
    {
      if name in r.domains {
        assert IsLongestMatch(r.domains, host, name);
        return Some(r.domains[name]);
      }
      var i := FirstDot(name);
      if i == |name| {
        return None;
      }
      name := name[i + 1..];
    }
  }

  /** The rule that answers for `host`, if any. */
  function Answer(r: Rules, host: string): Option<Rule> {
    match Match(r.domains, host)
    case None => None
    case Some(d) => WalkStaysInTable(r.domains, host); Some(r.domains[d])
  }

  lemma {:induction false} WalkStaysInTable(domains: map<string, Rule>, host: string)
    ensures Match(domains, host).Some? ==> Match(domains, host).value in domains
  {
    WalkFindsLongest(domains, host);
    if Match(domains, host).Some? {
      assert IsLongestMatch(domains, host, Match(domains, host).value);
    }
  }

  // --- what one decision or removal changes ------------------------------------

  /** Setting a rule for `d` changes which name answers for exactly the hosts
      under `d` that no longer name answers for already. */
  lemma DecideChangesExactly(domains: map<string, Rule>, d: string, rule: Rule, host: string)
    ensures Match(domains[d := rule], host) ==
            if Covers(d, host) && (Match(domains, host).Some? ==> |Match(domains, host).value| <= |d|)
            then Some(d) else Match(domains, host)
  {
    var after := domains[d := rule];
    WalkFindsLongest(domains, host);
    WalkFindsLongest(after, host);
    if Covers(d, host) && (Match(domains, host).Some? ==> |Match(domains, host).value| <= |d|) {
      if Match(domains, host).Some? {
        assert IsLongestMatch(domains, host, Match(domains, host).value);
      }
      assert IsLongestMatch(after, host, d);
    } else if Match(domains, host).Some? {
      var old_ := Match(domains, host).value;
      assert IsLongestMatch(domains, host, old_);
      assert IsLongestMatch(after, host, old_);
    } else {
      forall e | e in after ensures !Covers(e, host) {
      }
    }
  }

  /** Removing `d` moves exactly the hosts it answered for, each to its longest
      match among the names that are left. */
  lemma RemoveChangesExactly(domains: map<string, Rule>, d: string, host: string)
    ensures Match(domains, host) != Some(d) ==> Match(domains - {d}, host) == Match(domains, host)
    ensures Match(domains, host) == Some(d) ==> Match(domains - {d}, host) != Some(d)
    ensures forall e :: Match(domains, host) == Some(d) && Match(domains - {d}, host) == Some(e) ==>
              |e| < |d| && e in domains && Covers(e, host) &&
              forall f :: f in domains && f != d && Covers(f, host) ==> |f| <= |e|
  {
    var after := domains - {d};
    WalkFindsLongest(domains, host);
    WalkFindsLongest(after, host);
    if Match(domains, host).Some? {
      var old_ := Match(domains, host).value;
      assert IsLongestMatch(domains, host, old_);
      if old_ != d {
        assert IsLongestMatch(after, host, old_);
      } else if Match(after, host).Some? {
        var e := Match(after, host).value;
        assert IsLongestMatch(after, host, e);
        if |e| == |d| {
          CoversBySameLength(d, e, host);
        }
      }
    } else {
      forall e | e in after ensures !Covers(e, host) {
      }
    }
  }

  /** Deciding a name the table does not have, then removing it, undoes itself. */
  lemma DecideThenRemove(domains: map<string, Rule>, d: string, rule: Rule)
    requires d !in domains
    ensures domains[d := rule] - {d} == domains
    ensures forall host :: Match(domains[d := rule] - {d}, host) == Match(domains, host)
  {
    assert domains[d := rule] - {d} == domains;
  }

  // --- the decision a snapshot's rules give ---------------------------------------

  datatype Decision = Permit(target: string) | Refuse | Undecided

  /** What rules say about a host before anyone is asked: the answering rule,
      else the default policy. */
  function Decide(r: Rules, host: string): Decision {
    match Answer(r, host)
    case Some(rule) => if rule.verdict == Allow then Permit(rule.target) else Refuse
    case None =>
      match r.default
      case AllowByDefault => Permit("")
      case DenyByDefault => Refuse
      case Ask => Undecided
  }

  /** No name in the table covers the host. */
  predicate Uncovered(r: Rules, host: string) {
    forall d :: d in r.domains ==> !Covers(d, host)
  }

  /** The rules let the host through to `target` ("": the host itself): the longest name
      that covers it is allowed with that target, or none covers it and all is allowed. */
  ghost predicate LetThrough(r: Rules, host: string, target: string) {
    || (exists d :: IsLongestMatch(r.domains, host, d) && r.domains[d].verdict == Allow && r.domains[d].target == target)
    || (Uncovered(r, host) && r.default == AllowByDefault && target == "")
  }

  /** The rules turn the host away: the longest name that covers it is denied, or none
      covers it and all is denied. */
  ghost predicate TurnedAway(r: Rules, host: string) {
    || (exists d :: IsLongestMatch(r.domains, host, d) && r.domains[d].verdict == Deny)
    || (Uncovered(r, host) && r.default == DenyByDefault)
  }

  /** The decision of a rule set, exactly. */
  lemma DecisionMeans(r: Rules, host: string)
    ensures forall t :: Decide(r, host) == Permit(t) <==> LetThrough(r, host, t)
    ensures Decide(r, host) == Refuse <==> TurnedAway(r, host)
    ensures Decide(r, host) == Undecided <==> Uncovered(r, host) && r.default == Ask
  {
    WalkFindsLongest(r.domains, host);
    var m := Match(r.domains, host);
    if m.Some? {
      assert IsLongestMatch(r.domains, host, m.value);
      assert !Uncovered(r, host);
      forall d | IsLongestMatch(r.domains, host, d) ensures d == m.value {
        CoversBySameLength(d, m.value, host);
      }
    } else {
      assert Uncovered(r, host);
      assert forall d :: !IsLongestMatch(r.domains, host, d);
    }
  }

  /** A host is left to ask about exactly when the policy is ask and no name covers it. */
  lemma UndecidedMeans(r: Rules, host: string)
    ensures Decide(r, host) == Undecided <==>
            r.default == Ask && forall d :: d in r.domains ==> !Covers(d, host)
  {
    WalkFindsLongest(r.domains, host);
  }
}
