/** Exactly which names, targets, rules and lines kproxy takes, and what each comes to
    (kproxy/rules.go). */
module RulesMeaning {
  import opened Wrappers
  import opened Text
  import opened RuleTable
  import opened RulesText
  import Decimal

  // --- words --------------------------------------------------------------------------------

  lemma PolicyMeans(s: string, p: Policy)
    ensures ParsePolicy(s) == Ok(p) <==>
            || (s == "allow" && p == AllowByDefault) || (s == "deny" && p == DenyByDefault) || (s == "ask" && p == Ask)
  {
  }

  lemma VerdictMeans(s: string, v: Verdict)
    ensures ParseVerdict(s) == Ok(v) <==> (s == "allow" && v == Allow) || (s == "deny" && v == Deny)
  {
  }

  // --- names --------------------------------------------------------------------------------

  /** A label is one or more of the small letters (97 to 122), the digits (48 to 57), `-`
      (45) and `_` (95). */
  predicate Label(s: string) {
    s != "" && forall i :: 0 <= i < |s| ==> LabelCode(s[i] as int)
  }

  predicate LabelCode(c: int) { 97 <= c <= 122 || 48 <= c <= 57 || c == 45 || c == 95 }

  lemma CharIs(c: char)
    ensures LabelChar(c) <==> LabelCode(c as int)
  {
  }

  /** Labels with dots between them. */
  predicate DomainName(n: string) {
    forall part :: part in Split(n, '.') ==> Label(part)
  }

  lemma {:induction false} LabelsMean(n: string)
    ensures ValidLabels(n) <==> DomainName(n)
    decreases |n|
  {
    LabelIs(n, FirstDot(n));
    DomainStep(n);
    if FirstDot(n) < |n| {
      LabelsMean(n[FirstDot(n) + 1..]);
    }
  }

  lemma DomainStep(n: string)
    ensures var i := FirstDot(n);
            DomainName(n) <==> Label(n[..i]) && (i < |n| ==> DomainName(n[i + 1..]))
  {
    var i := FirstDot(n);
    if i < |n| {
      assert Split(n, '.') == [n[..i]] + Split(n[i + 1..], '.');
      MoreLabels(n[..i], Split(n[i + 1..], '.'));
    } else {
      assert n[..i] == n && Split(n, '.') == [n];
      MoreLabels(n, []);
    }
  }

  lemma LabelIs(n: string, i: nat)
    requires i <= |n|
    ensures (i > 0 && forall k :: 0 <= k < i ==> LabelChar(n[k])) <==> Label(n[..i])
  {
    var first := n[..i];
    forall k | 0 <= k < i ensures first[k] == n[k] && (LabelChar(n[k]) <==> LabelCode(n[k] as int)) {
      CharIs(n[k]);
    }
  }

  lemma MoreLabels(first: string, rest: seq<string>)
    ensures (forall part :: part in [first] + rest ==> Label(part)) <==> Label(first) && forall part :: part in rest ==> Label(part)
  {
    assert first in [first] + rest;
    assert forall part :: part in rest ==> part in [first] + rest;
  }

  /** A rule's name is a domain name, made of what was given by dropping the spaces around
      it, a dot at its end and capitals; and there is none for an address or anything else. */
  lemma NameMeans(s: string, ip: IpParser)
    ensures RuleName(s, ip) ==
            var n := NormHost(TrimSpace(s)); if DomainName(n) && ip(n) == NotAnIp then Some(n) else None
  {
    LabelsMean(NormHost(TrimSpace(s)));
  }

  // --- targets ------------------------------------------------------------------------------

  /** HOST:PORT, or [HOST]:PORT, with no other colon outside the brackets. */
  predicate HostPort(t: string, host: string, port: string) {
    && '[' !in host && ']' !in host && '[' !in port && ']' !in port && ':' !in port
    && ((t == host + ":" + port && ':' !in host) || t == "[" + host + "]:" + port)
  }

  lemma HostPortIsSplit(t: string, host: string, port: string)
    requires HostPort(t, host, port)
    ensures SplitHostPort(t) == Some((host, port))
  {
    if t == host + ":" + port && ':' !in host {
      ColonAt(host, port);
      assert t[..|host|] == host && t[|host| + 1..] == port;
      assert t[0] != '[' by { assert t[0] in host || t[0] == ':'; }
    } else {
      var head := "[" + host + "]";
      assert t == head + ":" + port;
      ColonAt(head, port);
      var end := |host| + 1;
      assert t[end] == ']' && forall k :: 1 <= k < end ==> t[k] == host[k - 1];
      assert IndexOf(t, ']') == end;
      assert t[1..end] == host && t[end + 2..] == port;
      assert t[1..] == host + ("]:" + port) && t[end + 1..] == ":" + port;
    }
  }

  lemma ColonAt(head: string, port: string)
    requires ':' !in port
    ensures LastIndexOf(head + ":" + port, ':') == |head|
  {
    var t := head + ":" + port;
    assert t[|head|] == ':';
    forall k | |head| < k < |t| ensures t[k] != ':' {
      assert t[k] == port[k - |head| - 1];
    }
  }

  lemma SplitIsHostPort(t: string)
    requires SplitHostPort(t).Some?
    ensures HostPort(t, SplitHostPort(t).value.0, SplitHostPort(t).value.1)
  {
    var i := LastIndexOf(t, ':');
    var (host, port) := SplitHostPort(t).value;
    assert port == t[i + 1..] && ':' !in port;
    if t[0] == '[' {
      var end := IndexOf(t, ']');
      assert t == "[" + t[1..end] + "]:" + t[i + 1..];
      assert forall k :: 1 <= k < |t| ==> t[k] == t[1..][k - 1];
      assert forall k :: end + 1 <= k < |t| ==> t[k] == t[end + 1..][k - end - 1];
    } else {
      assert t == t[..i] + ":" + t[i + 1..];
    }
  }

  lemma SplitMeansHostPort(t: string, host: string, port: string)
    ensures SplitHostPort(t) == Some((host, port)) <==> HostPort(t, host, port)
  {
    if SplitHostPort(t).Some? {
      SplitIsHostPort(t);
    }
    if HostPort(t, host, port) {
      HostPortIsSplit(t, host, port);
    }
  }

  /** The host as a target has it: an IPv4 address as it is, or a name in normal form. */
  predicate HostFor(host: string, h: string, ip: IpParser) {
    || (ip(host) == Ipv4 && h == host)
    || (ip(host) == NotAnIp && RuleName(host, ip) == Some(h))
  }

  /** A target: such a host and a port from 1 to 65535. */
  ghost predicate TargetFor(target: string, result: string, ip: IpParser) {
    exists host, port, h, n: nat ::
      HostPort(target, host, port) && HostFor(host, h, ip)
      && Decimal.IsNumeral(port) && Decimal.Value(port) == n && 1 <= n <= 65535
      && result == JoinHostPort(h, Decimal.Numeral(n))
  }

  /** Which rules there are: a verdict, and for an allow a target. */
  lemma RuleMeans(verdict: string, target: string, rule: Rule, ip: IpParser)
    ensures NewRule(verdict, target, ip) == Ok(rule) <==>
            || (target == "" && rule.target == "" && verdict == if rule.verdict == Allow then "allow" else "deny")
            || (target != "" && verdict == "allow" && rule.verdict == Allow && TargetFor(target, rule.target, ip))
  {
    if target != "" && verdict == "allow" {
      TargetMeans(target, rule, ip);
    }
  }

  lemma TargetMeans(target: string, rule: Rule, ip: IpParser)
    requires target != ""
    ensures NewRule("allow", target, ip) == Ok(rule) <==> rule.verdict == Allow && TargetFor(target, rule.target, ip)
  {
    if NewRule("allow", target, ip) == Ok(rule) {
      SplitIsHostPort(target);
      var (host, port) := SplitHostPort(target).value;
      var h, n := TargetHost(host, ip).value, PortNumber(port).value;
      assert HostFor(host, h, ip) && rule.target == JoinHostPort(h, Decimal.Numeral(n));
    }
    if host, port, h, n: nat :|
         HostPort(target, host, port) && HostFor(host, h, ip)
         && Decimal.IsNumeral(port) && Decimal.Value(port) == n && 1 <= n <= 65535
         && rule.target == JoinHostPort(h, Decimal.Numeral(n)) {
      HostPortIsSplit(target, host, port);
    }
  }

  // --- lines --------------------------------------------------------------------------------

  /** What a line does, by its fields: nothing, if it is blank or a comment; or it sets the
      default; or it gives a name its rule. */
  ghost predicate LineDoes(raw: string, acc: Rules, next: Rules, ip: IpParser) {
    var line, f := TrimSpace(raw), Fields(TrimSpace(raw));
    if line == "" || line[0] == '#' then next == acc
    else if |f| == 2 && f[0] == "default" then SetsDefault(f[1], acc, next)
    else SetsRule(f, acc, next, ip)
  }

  ghost predicate SetsDefault(word: string, acc: Rules, next: Rules) {
    exists p :: ParsePolicy(word) == Ok(p) && next == Rules(p, acc.domains)
  }

  /** VERDICT NAME or VERDICT NAME TARGET. */
  ghost predicate SetsRule(f: seq<string>, acc: Rules, next: Rules, ip: IpParser) {
    && (|f| == 2 || |f| == 3)
    && exists d, rule :: RuleName(f[1], ip) == Some(d) && NewRule(f[0], if |f| == 2 then "" else f[2], ip) == Ok(rule)
         && next == Rules(acc.default, acc.domains[d := rule])
  }

  lemma LineMeans(raw: string, acc: Rules, next: Rules, ip: IpParser)
    ensures ParseLine(raw, acc, ip) == Ok(next) <==> LineDoes(raw, acc, next, ip)
  {
    var line, f := TrimSpace(raw), Fields(TrimSpace(raw));
    if !(line == "" || line[0] == '#') {
      FieldsDo(f, acc, next, ip);
    }
  }

  lemma FieldsDo(f: seq<string>, acc: Rules, next: Rules, ip: IpParser)
    ensures ParseFields(f, acc, ip) == Ok(next) <==>
            if |f| == 2 && f[0] == "default" then SetsDefault(f[1], acc, next) else SetsRule(f, acc, next, ip)
  {
  }

  // --- rules from the admin API ---------------------------------------------------------------

  predicate Takes(r: RuleJson, ip: IpParser) { RuleName(r.domain, ip).Some? && NewRule(r.verdict, r.target, ip).Ok? }

  /** Item `i` names `d`. */
  predicate Names(rs: seq<RuleJson>, i: int, d: string, ip: IpParser) {
    0 <= i < |rs| && RuleName(rs[i].domain, ip) == Some(d)
  }

  /** And no later one does. */
  predicate NamesLast(rs: seq<RuleJson>, i: int, d: string, ip: IpParser) {
    Names(rs, i, d, ip) && forall j :: i < j < |rs| ==> !Names(rs, j, d, ip)
  }

  /** `next` is `acc` with the rules that the items give. */
  ghost predicate Given(rs: seq<RuleJson>, acc: Rules, next: Rules, ip: IpParser) {
    && next.default == acc.default
    && (forall i, d :: NamesLast(rs, i, d, ip) ==> d in next.domains && NewRule(rs[i].verdict, rs[i].target, ip) == Ok(next.domains[d]))
    && (forall d :: Unnamed(rs, d, ip) ==> if d in acc.domains then d in next.domains && next.domains[d] == acc.domains[d] else d !in next.domains)
  }

  predicate Unnamed(rs: seq<RuleJson>, d: string, ip: IpParser) {
    forall i :: 0 <= i < |rs| ==> !Names(rs, i, d, ip)
  }

  lemma GiveOneMore(rs: seq<RuleJson>, acc: Rules, next: Rules, ip: IpParser)
    requires rs != [] && Takes(rs[0], ip)
    requires var d, rule := RuleName(rs[0].domain, ip).value, NewRule(rs[0].verdict, rs[0].target, ip).value;
             Given(rs[1..], acc.(domains := acc.domains[d := rule]), next, ip)
    ensures Given(rs, acc, next, ip)
  {
    forall d | Unnamed(rs, d, ip)
      ensures if d in acc.domains then d in next.domains && next.domains[d] == acc.domains[d] else d !in next.domains
    {
      assert !Names(rs, 0, d, ip);
      RestUnnamed(rs, d, ip);
    }
    forall i, d | NamesLast(rs, i, d, ip) ensures d in next.domains && NewRule(rs[i].verdict, rs[i].target, ip) == Ok(next.domains[d]) {
      LastOfRest(rs, i, d, ip);
    }
  }

  lemma RestUnnamed(rs: seq<RuleJson>, d: string, ip: IpParser)
    requires rs != [] && Unnamed(rs, d, ip)
    ensures Unnamed(rs[1..], d, ip)
  {
    forall i | 0 <= i < |rs| - 1 ensures !Names(rs[1..], i, d, ip) { assert !Names(rs, i + 1, d, ip); }
  }

  lemma {:induction false} AddAllMeans(rs: seq<RuleJson>, acc: Rules, ip: IpParser)
    ensures AddAll(rs, acc, ip).Ok? <==> forall i :: 0 <= i < |rs| ==> Takes(rs[i], ip)
    ensures AddAll(rs, acc, ip).Ok? ==> Given(rs, acc, AddAll(rs, acc, ip).value, ip)
    decreases |rs|
  {
    if rs != [] && Takes(rs[0], ip) {
      var d, rule := RuleName(rs[0].domain, ip).value, NewRule(rs[0].verdict, rs[0].target, ip).value;
      AddAllMeans(rs[1..], acc.(domains := acc.domains[d := rule]), ip);
      assert forall i :: 0 < i < |rs| ==> rs[i] == rs[1..][i - 1];
      if AddAll(rs, acc, ip).Ok? {
        GiveOneMore(rs, acc, AddAll(rs, acc, ip).value, ip);
      }
    }
  }

  lemma LastOfRest(rs: seq<RuleJson>, i: int, d: string, ip: IpParser)
    requires NamesLast(rs, i, d, ip)
    ensures i > 0 ==> NamesLast(rs[1..], i - 1, d, ip)
    ensures i == 0 ==> Unnamed(rs[1..], d, ip)
  {
    forall j | i - 1 < j < |rs| - 1 ensures !Names(rs[1..], j, d, ip) {
      assert !Names(rs, j + 1, d, ip);
    }
  }

  /** What the admin API takes is a policy and items that are all names and rules; each name
      then has the rule of the last item that names it, and no other name has one. */
  lemma PutMeans(default: string, rs: seq<RuleJson>, ip: IpParser)
    ensures ToRules(default, rs, ip).Ok? <==> ParsePolicy(default).Ok? && forall i :: 0 <= i < |rs| ==> Takes(rs[i], ip)
    ensures ToRules(default, rs, ip).Ok? ==>
              var r := ToRules(default, rs, ip).value;
              && ParsePolicy(default) == Ok(r.default)
              && (forall i, d :: NamesLast(rs, i, d, ip) ==> d in r.domains && NewRule(rs[i].verdict, rs[i].target, ip) == Ok(r.domains[d]))
              && (forall d :: d in r.domains ==> exists i :: Names(rs, i, d, ip))
  {
    if ParsePolicy(default).Ok? {
      AddAllMeans(rs, Rules(ParsePolicy(default).value, map[]), ip);
      if ToRules(default, rs, ip).Ok? {
        var r := ToRules(default, rs, ip).value;
        forall d | d in r.domains ensures exists i :: Names(rs, i, d, ip) {
          assert !Unnamed(rs, d, ip);
        }
      }
    }
  }
}
