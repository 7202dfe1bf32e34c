/** The rules file: names and rules as text, their normal forms, the parser and
    the printer (kproxy/rules.go, kproxy/admin.go).

    `ip` stands for net.ParseIP; `IpText` says the little that is used of it. */
module RulesText {
  import opened Wrappers
  import opened RuleTable
  import Orders
  import Decimal
  import opened Text

  datatype IpKind = NotAnIp | Ipv4 | OtherIp

  type IpParser = string -> IpKind

  predicate IpChar(c: char) {
    Decimal.IsDigit(c) || 'a' <= c <= 'f' || 'A' <= c <= 'F' || c == '.' || c == ':'
  }

  /** Every address is written in hex digits, dots and colons. */
  ghost predicate IpText(ip: IpParser) {
    forall s {:trigger ip(s)} :: ip(s) != NotAnIp ==> forall i :: 0 <= i < |s| ==> IpChar(s[i])
  }

  // --- characters ------------------------------------------------------------------

  /** unicode.ToLower wherever the result is ASCII; any other non-ASCII character
      stands for itself, and no name may hold it in either case. */
  function LowerChar(c: char): char {
    if 'A' <= c <= 'Z' then (c as int + 32) as char
    else if c as int == 0x212A then 'k'
    else if c as int == 0x0130 then 'i'
    else c
  }

  function ToLower(s: string): (r: string)
    ensures |r| == |s| && forall i :: 0 <= i < |s| ==> r[i] == LowerChar(s[i])
  {
    seq(|s|, i requires 0 <= i < |s| => LowerChar(s[i]))
  }

  // --- names -----------------------------------------------------------------------

  function NormHost(h: string): string {
    var l := ToLower(h);
    if l != [] && l[|l| - 1] == '.' then l[..|l| - 1] else l
  }

  /** The same character, or the two cases of one letter. */
  predicate SameLetter(a: char, b: char) {
    a == b || ('a' <= a <= 'z' && a as int == b as int + 32) || ('a' <= b <= 'z' && b as int == a as int + 32)
  }

  /** A host is the same in capitals and with a dot at its end: names that differ in no more
      have one normal form, and that of a name in small ASCII letters, without such a dot,
      is the name. */
  lemma NormHostMeans(g: string, h: string)
    ensures |g| == |h| && (forall i :: 0 <= i < |h| ==> SameLetter(g[i], h[i])) ==> NormHost(g) == NormHost(h)
    ensures NormHost(h + ".") == ToLower(h)
    ensures (forall i :: 0 <= i < |h| ==> h[i] < 0x80 as char && !('A' <= h[i] <= 'Z')) ==>
              ToLower(h) == h && (h == "" || h[|h| - 1] != '.' ==> NormHost(h) == h)
  {
    if |g| == |h| && (forall i :: 0 <= i < |h| ==> SameLetter(g[i], h[i])) {
      SameInLower(g, h);
    }
    DotAtEnd(h);
    if forall i :: 0 <= i < |h| ==> h[i] < 0x80 as char && !('A' <= h[i] <= 'Z') {
      SmallAlready(h);
    }
  }

  lemma SameInLower(g: string, h: string)
    requires |g| == |h| && forall i :: 0 <= i < |h| ==> SameLetter(g[i], h[i])
    ensures ToLower(g) == ToLower(h)
  {
    forall i | 0 <= i < |h| ensures LowerChar(g[i]) == LowerChar(h[i]) {
      assert SameLetter(g[i], h[i]);
    }
  }

  lemma DotAtEnd(h: string)
    ensures NormHost(h + ".") == ToLower(h)
  {
    assert LowerChar('.') == '.';
    assert ToLower(h + ".") == ToLower(h) + ".";
    assert (ToLower(h) + ".")[..|h|] == ToLower(h);
  }

  lemma SmallAlready(h: string)
    requires forall i :: 0 <= i < |h| ==> h[i] < 0x80 as char && !('A' <= h[i] <= 'Z')
    ensures ToLower(h) == h
  {
    forall i | 0 <= i < |h| ensures LowerChar(h[i]) == h[i] {
    }
  }

  /** Outside ASCII two capitals have a small ASCII letter, the Kelvin sign and the dotted I. */
  lemma LowerCharMeans(c: char)
    requires c as int >= 0x80
    ensures LowerChar(c) == if c as int == 8490 then 'k' else if c as int == 304 then 'i' else c
  {
  }

  predicate LabelChar(c: char) {
    'a' <= c <= 'z' || Decimal.IsDigit(c) || c == '-' || c == '_'
  }

  /** Every dot-separated label is non-empty and written in the allowed characters. */
  predicate ValidLabels(n: string)
    decreases |n|
  {
    var i := FirstDot(n);
    && i > 0
    && (forall k :: 0 <= k < i ==> LabelChar(n[k]))
    && (i < |n| ==> ValidLabels(n[i + 1..]))
  }

  /** ruleName: a name's normal form, if it is a domain name. */
  function RuleName(s: string, ip: IpParser): Option<string> {
    var n := NormHost(TrimSpace(s));
    if n == "" || ip(n) != NotAnIp || !ValidLabels(n) then None else Some(n)
  }

  // --- targets ---------------------------------------------------------------------

  /** net.SplitHostPort: the host and the port. */
  function SplitHostPort(t: string): Option<(string, string)> {
    var i := LastIndexOf(t, ':');
    if i < 0 then None
    else if t[0] == '[' then
      var end := IndexOf(t, ']');
      if end == |t| || end + 1 != i then None
      else if '[' in t[1..] || ']' in t[end + 1..] then None
      else Some((t[1..end], t[i + 1..]))
    else if ':' in t[..i] || '[' in t || ']' in t then None
    else Some((t[..i], t[i + 1..]))
  }

  /** net.JoinHostPort. */
  function JoinHostPort(host: string, port: string): string {
    if ':' in host then "[" + host + "]:" + port else host + ":" + port
  }

  /** The port as a number, when it is a numeral for one. */
  function PortNumber(port: string): Option<nat> {
    if Decimal.IsNumeral(port) && 1 <= Decimal.Value(port) <= 65535 then Some(Decimal.Value(port)) else None
  }

  // --- rules -----------------------------------------------------------------------

  datatype Why = UnknownPolicy | UnknownVerdict | WrongShape | NotAName | TargetOnDeny | BadTarget | NotIpv4

  function PolicyText(p: Policy): string {
    match p
    case AllowByDefault => "allow"
    case DenyByDefault => "deny"
    case Ask => "ask"
  }

  function ParsePolicy(s: string): Result<Policy, Why> {
    if s == "allow" then Ok(AllowByDefault)
    else if s == "deny" then Ok(DenyByDefault)
    else if s == "ask" then Ok(Ask)
    else Err(UnknownPolicy)
  }

  function VerdictText(v: Verdict): string {
    match v
    case Allow => "allow"
    case Deny => "deny"
  }

  function ParseVerdict(s: string): Result<Verdict, Why> {
    if s == "allow" then Ok(Allow)
    else if s == "deny" then Ok(Deny)
    else Err(UnknownVerdict)
  }

  /** The host part of a target in normal form: an IPv4 address as it is, or a name. */
  function TargetHost(host: string, ip: IpParser): Result<string, Why> {
    match ip(host)
    case Ipv4 => Ok(host)
    case OtherIp => Err(NotIpv4)
    case NotAnIp =>
      match RuleName(host, ip)
      case None => Err(BadTarget)
      case Some(name) => Ok(name)
  }

  function NewRule(verdict: string, target: string, ip: IpParser): Result<Rule, Why> {
    match ParseVerdict(verdict)
    case Err(e) => Err(e)
    case Ok(v) =>
      if target == "" then Ok(Rule(v, ""))
      else if v != Allow then Err(TargetOnDeny)
      else
        match SplitHostPort(target)
        case None => Err(BadTarget)
        case Some((host, port)) =>
          match PortNumber(port)
          case None => Err(BadTarget)
          case Some(p) =>
            match TargetHost(host, ip)
            case Err(e) => Err(e)
            case Ok(h) => Ok(Rule(v, JoinHostPort(h, Decimal.Numeral(p))))
  }

  /** A name as `RuleName` leaves it, and a rule as `NewRule` leaves it. */
  predicate CanonicalEntry(d: string, rule: Rule, ip: IpParser) {
    RuleName(d, ip) == Some(d) && NewRule(VerdictText(rule.verdict), rule.target, ip) == Ok(rule)
  }

  predicate Canonical(r: Rules, ip: IpParser) {
    forall d :: d in r.domains ==> CanonicalEntry(d, r.domains[d], ip)
  }

  // --- parsing ---------------------------------------------------------------------

  function DropCR(l: string): string {
    if l != [] && l[|l| - 1] == '\r' then l[..|l| - 1] else l
  }

  /** The lines bufio.Scanner yields. */
  function Lines(text: string): seq<string>
    decreases |text|
  {
    if text == [] then []
    else
      var i := IndexOf(text, '\n');
      [DropCR(text[..i])] + (if i == |text| then [] else Lines(text[i + 1..]))
  }

  /** What one line does to the rules read so far. */
  function ParseLine(raw: string, acc: Rules, ip: IpParser): Result<Rules, Why> {
    var line := TrimSpace(raw);
    if line == "" || line[0] == '#' then Ok(acc)
    else ParseFields(Fields(line), acc, ip)
  }

  function ParseFields(f: seq<string>, acc: Rules, ip: IpParser): Result<Rules, Why> {
    if |f| == 2 && f[0] == "default" then
      match ParsePolicy(f[1])
      case Err(e) => Err(e)
      case Ok(p) => Ok(acc.(default := p))
    else if |f| != 2 && |f| != 3 then Err(WrongShape)
    else
      match RuleName(f[1], ip)
      case None => Err(NotAName)
      case Some(d) =>
        match NewRule(f[0], if |f| == 3 then f[2] else "", ip)
        case Err(e) => Err(e)
        case Ok(rule) => Ok(acc.(domains := acc.domains[d := rule]))
  }

  /** Every line in turn, stopping at the first that is wrong (with its number). */
  function ParseFrom(lines: seq<string>, n: nat, acc: Rules, ip: IpParser): Result<Rules, (nat, Why)> {
    if lines == [] then Ok(acc)
    else
      match ParseLine(lines[0], acc, ip)
      case Err(e) => Err((n, e))
      case Ok(next) => ParseFrom(lines[1..], n + 1, next, ip)
  }

  function Parse(text: string, fallback: Policy, ip: IpParser): Result<Rules, (nat, Why)> {
    ParseFrom(Lines(text), 1, Rules(fallback, map[]), ip)
  }

  // --- printing --------------------------------------------------------------------

  const HEADER_1: string := "# rules.txt for kproxy. Lists "
  const HEADER_2: string := "allowed domains. See "
  const HEADER_3: string := "github.com/nepthar/kelso/kproxy"
  const HEADER_4: string := " for more information"

  /** The comment line every rules file starts with. */
  const HEADER: string := HEADER_1 + HEADER_2 + HEADER_3 + HEADER_4

  function RuleLine(d: string, rule: Rule): string {
    VerdictText(rule.verdict) + " " + d + (if rule.target != "" then " " + rule.target else "")
  }

  function RuleLines(ds: seq<string>, domains: map<string, Rule>): string
    requires forall d :: d in ds ==> d in domains
  {
    if ds == [] then ""
    else RuleLine(ds[0], domains[ds[0]]) + "\n" + RuleLines(ds[1..], domains)
  }

  /** The text with the names in the order given. */
  function FormatListing(r: Rules, ds: seq<string>): string
    requires forall d :: d in ds ==> d in r.domains
  {
    Headed(HEADER, r, ds)
  }

  function Headed(header: string, r: Rules, ds: seq<string>): string
    requires forall d :: d in ds ==> d in r.domains
  {
    header + "\n" + (DefaultLine(r.default) + "\n" + RuleLines(ds, r.domains))
  }

  function DefaultLine(p: Policy): string {
    "default" + " " + PolicyText(p)
  }

  /** The text `format` writes: the names sorted. */
  ghost function Format(r: Rules): string {
    FormatListing(r, Orders.SortedStrings(r.domains.Keys))
  }

  // --- normal forms ----------------------------------------------------------------

  predicate NameChar(c: char) { LabelChar(c) || c == '.' }

  lemma {:induction false} ValidLabelsChars(n: string)
    requires ValidLabels(n)
    ensures n != "" && n[|n| - 1] != '.' && forall i :: 0 <= i < |n| ==> NameChar(n[i])
    decreases |n|
  {
    var i := FirstDot(n);
    if i < |n| {
      var rest := n[i + 1..];
      ValidLabelsChars(rest);
      forall k | 0 <= k < |n| ensures NameChar(n[k]) {
        if k > i { assert n[k] == rest[k - i - 1]; }
      }
      assert n[|n| - 1] == rest[|rest| - 1];
    }
  }

  lemma TrimmedAlready(s: string)
    requires s != "" ==> !IsSpace(s[0]) && !IsSpace(s[|s| - 1])
    ensures TrimSpace(s) == s
  {
    assert s[0..] == s && s[..|s|] == s;
  }

  /** A valid name is not changed by trimming or folding. */
  lemma ValidNameIsNormal(n: string)
    requires ValidLabels(n)
    ensures n != "" && NormHost(TrimSpace(n)) == n
  {
    ValidLabelsChars(n);
    assert NameChar(n[0]) && NameChar(n[|n| - 1]);
    TrimmedAlready(n);
    LowerAlready(n);
  }

  lemma LowerAlready(n: string)
    requires forall i :: 0 <= i < |n| ==> NameChar(n[i])
    ensures ToLower(n) == n
  {
    forall i | 0 <= i < |n| ensures LowerChar(n[i]) == n[i] {
      assert NameChar(n[i]);
    }
  }

  /** A name in normal form is its own normal form. */
  lemma RuleNameIdempotent(s: string, ip: IpParser)
    ensures RuleName(s, ip).Some? ==>
              RuleName(RuleName(s, ip).value, ip) == RuleName(s, ip)
  {
    if RuleName(s, ip).Some? {
      ValidNameIsNormal(RuleName(s, ip).value);
    }
  }

  /** The characters a canonical target is written in. */
  predicate TargetChar(c: char) {
    NameChar(c) || IpChar(c) || c == '[' || c == ']'
  }

  lemma LastColon(head: string, port: string)
    requires Decimal.IsNumeral(port)
    ensures LastIndexOf(head + ":" + port, ':') == |head|
  {
    var t := head + ":" + port;
    assert t[|head|] == ':';
    forall k | |head| < k < |t| ensures t[k] != ':' {
      assert t[k] == port[k - |head| - 1];
      assert Decimal.IsDigit(t[k]);
    }
  }

  lemma NoBrackets(port: string)
    requires Decimal.IsNumeral(port)
    ensures '[' !in port && ']' !in port
  {
    forall k | 0 <= k < |port| ensures port[k] != '[' && port[k] != ']' {
      assert Decimal.IsDigit(port[k]);
    }
  }

  lemma SplitPlain(host: string, port: string)
    requires ':' !in host && '[' !in host && ']' !in host && Decimal.IsNumeral(port)
    ensures SplitHostPort(host + ":" + port) == Some((host, port))
  {
    var t := host + ":" + port;
    LastColon(host, port);
    NoBrackets(port);
    assert t[..|host|] == host && t[|host| + 1..] == port;
    assert t[0] != '[' by { assert t[0] in host || t[0] == ':'; }
  }

  lemma SplitBracketed(host: string, port: string)
    requires '[' !in host && ']' !in host && Decimal.IsNumeral(port)
    ensures SplitHostPort("[" + host + "]" + ":" + port) == Some((host, port))
  {
    var head := "[" + host + "]";
    var t := head + ":" + port;
    LastColon(head, port);
    NoBrackets(port);
    var end := |host| + 1;
    assert t[end] == ']' && forall k :: 1 <= k < end ==> t[k] == host[k - 1];
    assert IndexOf(t, ']') == end;
    assert t[1..end] == host && t[end + 2..] == port;
    assert t[1..] == host + ("]:" + port);
    assert t[end + 1..] == ":" + port;
  }

  lemma SplitUndoesJoin(host: string, port: string)
    requires '[' !in host && ']' !in host && Decimal.IsNumeral(port)
    ensures SplitHostPort(JoinHostPort(host, port)) == Some((host, port))
  {
    if ':' in host {
      SplitBracketed(host, port);
      assert JoinHostPort(host, port) == "[" + host + "]" + ":" + port;
    } else {
      SplitPlain(host, port);
    }
  }

  lemma TargetHostIdempotent(host: string, ip: IpParser)
    requires TargetHost(host, ip).Ok? && IpText(ip)
    ensures TargetHost(TargetHost(host, ip).value, ip) == TargetHost(host, ip)
    ensures forall i :: 0 <= i < |TargetHost(host, ip).value| ==>
              var c := TargetHost(host, ip).value[i]; NameChar(c) || IpChar(c)
  {
    var h := TargetHost(host, ip).value;
    if ip(host) == NotAnIp {
      RuleNameIdempotent(host, ip);
      ValidLabelsChars(h);
    }
  }

  predicate CleanTarget(t: string) {
    forall i :: 0 <= i < |t| ==> TargetChar(t[i])
  }

  lemma JoinIsClean(h: string, numeral: string)
    requires forall i :: 0 <= i < |h| ==> NameChar(h[i]) || IpChar(h[i])
    requires Decimal.IsNumeral(numeral)
    ensures CleanTarget(JoinHostPort(h, numeral))
  {
    forall i | 0 <= i < |numeral| ensures TargetChar(numeral[i]) {
      assert Decimal.IsDigit(numeral[i]);
    }
    var head := if ':' in h then "[" + h + "]:" else h + ":";
    assert JoinHostPort(h, numeral) == head + numeral;
    assert forall i :: 0 <= i < |head| ==> TargetChar(head[i]);
  }

  /** The rule `newRule` makes of an allow with a target. */
  lemma TargetRule(target: string, ip: IpParser, h: string, p: nat)
    requires IpText(ip) && TargetHost(h, ip) == Ok(h) && 1 <= p <= 65535
    requires forall i :: 0 <= i < |h| ==> NameChar(h[i]) || IpChar(h[i])
    requires target == JoinHostPort(h, Decimal.Numeral(p))
    ensures CleanTarget(target) && NewRule("allow", target, ip) == Ok(Rule(Allow, target))
  {
    var numeral := Decimal.Numeral(p);
    Decimal.NumeralValue(p);
    JoinIsClean(h, numeral);
    SplitUndoesJoin(h, numeral);
    assert target != "";
  }

  /** What `newRule` makes of a target is a target it leaves alone. */
  lemma NewRuleIdempotent(verdict: string, target: string, ip: IpParser)
    requires IpText(ip)
    ensures NewRule(verdict, target, ip).Ok? ==>
              var rule := NewRule(verdict, target, ip).value;
              && NewRule(VerdictText(rule.verdict), rule.target, ip) == Ok(rule)
              && CleanTarget(rule.target)
  {
    if NewRule(verdict, target, ip).Ok? && target != "" {
      var (host, port) := SplitHostPort(target).value;
      TargetHostIdempotent(host, ip);
      var h, p := TargetHost(host, ip).value, PortNumber(port).value;
      TargetRule(JoinHostPort(h, Decimal.Numeral(p)), ip, h, p);
    }
  }

  // --- parse undoes format ---------------------------------------------------------

  lemma CleanIsPlain(t: string)
    requires CleanTarget(t) && t != ""
    ensures Plain(t)
  {
    forall i | 0 <= i < |t| ensures !IsSpace(t[i]) {
      assert TargetChar(t[i]);
    }
  }

  predicate Plain(s: string) {
    s != "" && forall i :: 0 <= i < |s| ==> !IsSpace(s[i])
  }

  lemma FieldsOfWord(w: string)
    requires Plain(w)
    ensures Fields(w) == [w]
  {
    var i := SpaceFrom(w, 0);
    assert !IsSpace(w[0]);
    assert i == |w|;
    assert w[..i] == w && w[i..] == "";
    assert Fields("") == [];
    assert TrimLeft(w) == w;
  }

  lemma FirstSpaceAt(w: string, rest: string)
    requires Plain(w)
    ensures SpaceFrom(w + " " + rest, 0) == |w|
  {
    var s := w + " " + rest;
    assert s[|w|] == ' ';
    assert forall k :: 0 <= k < |w| ==> s[k] == w[k];
  }

  lemma FieldsStep(w: string, rest: string)
    requires Plain(w)
    ensures Fields(w + " " + rest) == [w] + Fields(rest)
  {
    var s := w + " " + rest;
    assert s[0] == w[0];
    FirstSpaceAt(w, rest);
    assert s[..|w|] == w;
    assert s[|w|..] == " " + rest;
    FieldsSkipSpace(rest);
  }

  lemma FieldsSkipSpace(rest: string)
    ensures Fields(" " + rest) == Fields(rest)
  {
    assert (" " + rest)[1..] == rest;
    assert TrimLeft(" " + rest) == TrimLeft(rest);
  }

  lemma VerdictPlain(v: Verdict)
    ensures Plain(VerdictText(v)) && VerdictText(v)[0] != '#' && VerdictText(v) != "default"
    ensures ParseVerdict(VerdictText(v)) == Ok(v) && '\n' !in VerdictText(v)
  {
  }

  lemma CanonicalPlain(d: string, rule: Rule, ip: IpParser)
    requires CanonicalEntry(d, rule, ip) && IpText(ip)
    ensures Plain(d) && (rule.target != "" ==> Plain(rule.target))
  {
    ValidLabelsChars(d);
    CleanIsPlain(d) by {
      forall i | 0 <= i < |d| ensures TargetChar(d[i]) {
        assert NameChar(d[i]);
      }
    }
    NewRuleIdempotent(VerdictText(rule.verdict), rule.target, ip);
    if rule.target != "" {
      CleanIsPlain(rule.target);
    }
  }

  predicate Edged(l: string) {
    l != "" && !IsSpace(l[0]) && l[0] != '#' && !IsSpace(l[|l| - 1])
  }

  lemma WordsEdged(v: string, rest: string)
    requires Plain(v) && v[0] != '#' && rest != "" && !IsSpace(rest[|rest| - 1])
    ensures Edged(v + " " + rest)
  {
    var l := v + " " + rest;
    assert l[0] == v[0] && l[|l| - 1] == rest[|rest| - 1];
  }

  lemma TwoWords(v: string, d: string)
    requires Plain(v) && Plain(d) && v[0] != '#'
    ensures Edged(v + " " + d) && Fields(v + " " + d) == [v, d]
  {
    FieldsOfWord(d);
    FieldsStep(v, d);
    WordsEdged(v, d);
  }

  lemma ThreeWords(v: string, d: string, t: string)
    requires Plain(v) && Plain(d) && Plain(t) && v[0] != '#'
    ensures Edged(v + " " + (d + " " + t)) && Fields(v + " " + (d + " " + t)) == [v, d, t]
  {
    var rest := d + " " + t;
    FieldsOfWord(t);
    FieldsStep(d, t);
    FieldsStep(v, rest);
    assert rest[|rest| - 1] == t[|t| - 1];
    WordsEdged(v, rest);
  }

  /** The words of a rule's line. */
  function Words(d: string, rule: Rule): seq<string> {
    [VerdictText(rule.verdict), d] + if rule.target == "" then [] else [rule.target]
  }

  lemma RuleLineWords(d: string, rule: Rule)
    ensures rule.target == "" ==> RuleLine(d, rule) == VerdictText(rule.verdict) + " " + d
    ensures rule.target != "" ==> RuleLine(d, rule) == VerdictText(rule.verdict) + " " + (d + " " + rule.target)
  {
  }

  lemma RuleLineFields(d: string, rule: Rule)
    requires Plain(d) && (rule.target != "" ==> Plain(rule.target))
    ensures Edged(RuleLine(d, rule)) && Fields(RuleLine(d, rule)) == Words(d, rule)
  {
    var v := VerdictText(rule.verdict);
    VerdictPlain(rule.verdict);
    if rule.target == "" {
      TwoWords(v, d);
    } else {
      ThreeWords(v, d, rule.target);
    }
    RuleLineWords(d, rule);
  }

  lemma EdgedLineIsItsFields(l: string, acc: Rules, ip: IpParser)
    requires Edged(l)
    ensures ParseLine(l, acc, ip) == ParseFields(Fields(l), acc, ip)
  {
    TrimmedAlready(l);
  }

  lemma WordsParse(d: string, rule: Rule, acc: Rules, ip: IpParser)
    requires CanonicalEntry(d, rule, ip)
    ensures ParseFields(Words(d, rule), acc, ip) == Ok(acc.(domains := acc.domains[d := rule]))
  {
    VerdictPlain(rule.verdict);
    var f := Words(d, rule);
    assert f[0] == VerdictText(rule.verdict) && f[1] == d;
  }

  /** A canonical rule's line adds that rule. */
  lemma RuleLineParses(d: string, rule: Rule, acc: Rules, ip: IpParser)
    requires CanonicalEntry(d, rule, ip) && IpText(ip)
    ensures ParseLine(RuleLine(d, rule), acc, ip) == Ok(acc.(domains := acc.domains[d := rule]))
  {
    CanonicalPlain(d, rule, ip);
    RuleLineFields(d, rule);
    EdgedLineIsItsFields(RuleLine(d, rule), acc, ip);
    WordsParse(d, rule, acc, ip);
  }

  predicate OneLine(l: string) {
    l != "" && '\n' !in l && l[|l| - 1] != '\r'
  }

  lemma NewlineAt(l: string, rest: string)
    requires '\n' !in l
    ensures IndexOf(l + "\n" + rest, '\n') == |l|
  {
    var s := l + "\n" + rest;
    assert s[|l|] == '\n';
    assert forall k :: 0 <= k < |l| ==> s[k] == l[k];
  }

  /** One newline-terminated line is read as that line. */
  lemma LinesStep(l: string, rest: string)
    requires OneLine(l)
    ensures Lines(l + "\n" + rest) == [l] + Lines(rest)
  {
    var s := l + "\n" + rest;
    NewlineAt(l, rest);
    var i := |l|;
    var first, after := s[..i], s[i + 1..];
    assert Lines(s) == [DropCR(first)] + Lines(after);
    assert first == l;
    assert after == rest;
  }

  lemma PlainIsOneLine(w: string)
    requires Plain(w)
    ensures OneLine(w)
  {
    assert !IsSpace(w[|w| - 1]);
  }

  lemma OneLineJoin(a: string, b: string)
    requires OneLine(a) && OneLine(b)
    ensures OneLine(a + " " + b)
  {
    var l := a + " " + b;
    assert l[|l| - 1] == b[|b| - 1];
  }

  lemma RuleLineIsLine(d: string, rule: Rule)
    requires Plain(d) && (rule.target != "" ==> Plain(rule.target))
    ensures OneLine(RuleLine(d, rule))
  {
    var v := VerdictText(rule.verdict);
    VerdictPlain(rule.verdict);
    PlainIsOneLine(v);
    PlainIsOneLine(d);
    OneLineJoin(v, d);
    if rule.target != "" {
      PlainIsOneLine(rule.target);
      OneLineJoin(v + " " + d, rule.target);
      assert RuleLine(d, rule) == v + " " + d + " " + rule.target;
    } else {
      assert RuleLine(d, rule) == v + " " + d;
    }
  }

  lemma ParseFromStep(l: string, lines: seq<string>, n: nat, acc: Rules, next: Rules, ip: IpParser)
    requires ParseLine(l, acc, ip) == Ok(next)
    ensures ParseFrom([l] + lines, n, acc, ip) == ParseFrom(lines, n + 1, next, ip)
  {
    assert ([l] + lines)[1..] == lines;
  }

  /** The entries `domains` has for the names in `ds`. */
  function Entries(ds: seq<string>, domains: map<string, Rule>): map<string, Rule>
    requires forall d :: d in ds ==> d in domains
  {
    map d | d in ds :: domains[d]
  }

  lemma EntriesStep(ds: seq<string>, domains: map<string, Rule>, acc: map<string, Rule>)
    requires ds != [] && forall d :: d in ds ==> d in domains
    ensures acc[ds[0] := domains[ds[0]]] + Entries(ds[1..], domains) == acc + Entries(ds, domains)
  {
    assert ds == [ds[0]] + ds[1..];
  }

  lemma {:induction false} RuleLinesParse(ds: seq<string>, r: Rules, n: nat, acc: Rules, ip: IpParser)
    requires IpText(ip) && Canonical(r, ip)
    requires forall d :: d in ds ==> d in r.domains
    ensures ParseFrom(Lines(RuleLines(ds, r.domains)), n, acc, ip) ==
            Ok(acc.(domains := acc.domains + Entries(ds, r.domains)))
  {
    if ds == [] {
      assert acc.domains + Entries(ds, r.domains) == acc.domains;
    } else {
      var d, rest := ds[0], ds[1..];
      var rule := r.domains[d];
      CanonicalPlain(d, rule, ip);
      RuleLineIsLine(d, rule);
      LinesStep(RuleLine(d, rule), RuleLines(rest, r.domains));
      RuleLineParses(d, rule, acc, ip);
      var next := acc.(domains := acc.domains[d := rule]);
      ParseFromStep(RuleLine(d, rule), Lines(RuleLines(rest, r.domains)), n, acc, next, ip);
      RuleLinesParse(rest, r, n + 1, next, ip);
      EntriesStep(ds, r.domains, acc.domains);
    }
  }

  lemma PolicyPlain(p: Policy)
    ensures Plain(PolicyText(p)) && ParsePolicy(PolicyText(p)) == Ok(p)
  {
  }

  lemma DefaultLineParses(p: Policy, acc: Rules, ip: IpParser)
    ensures OneLine(DefaultLine(p)) && ParseLine(DefaultLine(p), acc, ip) == Ok(acc.(default := p))
  {
    var word, text := "default", PolicyText(p);
    PolicyPlain(p);
    assert Plain(word) && word[0] == 'd';
    TwoWords(word, text);
    EdgedLineIsItsFields(DefaultLine(p), acc, ip);
    PlainIsOneLine(word);
    PlainIsOneLine(text);
    OneLineJoin(word, text);
  }

  lemma Header1Plain()
    ensures '\n' !in HEADER_1 && HEADER_1[0] == '#'
  {
  }

  lemma Header2Plain()
    ensures '\n' !in HEADER_2
  {
  }

  lemma Header3Plain()
    ensures '\n' !in HEADER_3
  {
  }

  lemma HeaderShape()
    ensures OneLine(HEADER) && HEADER[0] == '#' && !IsSpace(HEADER[|HEADER| - 1])
  {
    Header1Plain();
    Header2Plain();
    Header3Plain();
    assert '\n' !in HEADER_4 && HEADER_4[|HEADER_4| - 1] == 'n';
    assert HEADER[0] == HEADER_1[0];
    assert HEADER[|HEADER| - 1] == HEADER_4[|HEADER_4| - 1];
  }

  lemma CommentParses(l: string, acc: Rules, ip: IpParser)
    requires l != "" && l[0] == '#' && !IsSpace(l[|l| - 1])
    ensures ParseLine(l, acc, ip) == Ok(acc)
  {
    TrimmedAlready(l);
  }

  lemma HeadedLines(header: string, r: Rules, ds: seq<string>)
    requires OneLine(header) && OneLine(DefaultLine(r.default))
    requires forall d :: d in ds ==> d in r.domains
    ensures Lines(Headed(header, r, ds)) ==
            [header] + ([DefaultLine(r.default)] + Lines(RuleLines(ds, r.domains)))
  {
    LinesStep(header, DefaultLine(r.default) + "\n" + RuleLines(ds, r.domains));
    LinesStep(DefaultLine(r.default), RuleLines(ds, r.domains));
  }

  lemma HeadParses(header: string, p: Policy, lines: seq<string>, fallback: Policy, ip: IpParser)
    requires OneLine(header) && header[0] == '#' && !IsSpace(header[|header| - 1])
    ensures ParseFrom([header] + ([DefaultLine(p)] + lines), 1, Rules(fallback, map[]), ip)
         == ParseFrom(lines, 3, Rules(p, map[]), ip)
  {
    var line, empty := DefaultLine(p), Rules(fallback, map[]);
    DefaultLineParses(p, empty, ip);
    CommentParses(header, empty, ip);
    ParseFromStep(header, [line] + lines, 1, empty, empty, ip);
    ParseFromStep(line, lines, 2, empty, Rules(p, map[]), ip);
  }

  lemma AllEntries(ds: seq<string>, domains: map<string, Rule>)
    requires forall d :: d in ds <==> d in domains
    ensures map[] + Entries(ds, domains) == domains
  {
  }

  lemma BodyParses(r: Rules, ds: seq<string>, ip: IpParser)
    requires IpText(ip) && Canonical(r, ip)
    requires forall d :: d in ds <==> d in r.domains
    ensures ParseFrom(Lines(RuleLines(ds, r.domains)), 3, Rules(r.default, map[]), ip) == Ok(r)
  {
    RuleLinesParse(ds, r, 3, Rules(r.default, map[]), ip);
    AllEntries(ds, r.domains);
  }

  lemma ParseUndoesHeaded(header: string, r: Rules, ds: seq<string>, fallback: Policy, ip: IpParser)
    requires OneLine(header) && header[0] == '#' && !IsSpace(header[|header| - 1])
    requires IpText(ip) && Canonical(r, ip)
    requires forall d :: d in ds <==> d in r.domains
    ensures Parse(Headed(header, r, ds), fallback, ip) == Ok(r)
  {
    assert OneLine(DefaultLine(r.default)) by {
      DefaultLineParses(r.default, Rules(fallback, map[]), ip);
    }
    BodyParses(r, ds, ip);
    var rest := Lines(RuleLines(ds, r.domains));
    HeadParses(header, r.default, rest, fallback, ip);
    HeadedLines(header, r, ds);
  }

  /** Whatever order the names are written in, reading gives the rules back. */
  lemma ParseUndoesListing(r: Rules, ds: seq<string>, fallback: Policy, ip: IpParser)
    requires IpText(ip) && Canonical(r, ip)
    requires forall d :: d in ds <==> d in r.domains
    ensures Parse(FormatListing(r, ds), fallback, ip) == Ok(r)
  {
    HeaderShape();
    ParseUndoesHeaded(HEADER, r, ds, fallback, ip);
  }

  /** Reading what `format` writes gives the rules back, whatever the fallback policy. */
  lemma ParseUndoesFormat(r: Rules, fallback: Policy, ip: IpParser)
    requires IpText(ip) && Canonical(r, ip)
    ensures Parse(Format(r), fallback, ip) == Ok(r)
  {
    ParseUndoesListing(r, Orders.SortedStrings(r.domains.Keys), fallback, ip);
  }

  /** Different canonical rules are written differently. */
  lemma FormatIsInjective(r1: Rules, r2: Rules, ip: IpParser)
    requires IpText(ip) && Canonical(r1, ip) && Canonical(r2, ip) && Format(r1) == Format(r2)
    ensures r1 == r2
  {
    ParseUndoesFormat(r1, Ask, ip);
    ParseUndoesFormat(r2, Ask, ip);
  }

  // --- everything accepted is canonical ----------------------------------------------

  lemma AddKeepsCanonical(r: Rules, name: string, verdict: string, target: string, ip: IpParser)
    requires IpText(ip) && Canonical(r, ip)
    requires RuleName(name, ip).Some? && NewRule(verdict, target, ip).Ok?
    ensures Canonical(r.(domains := r.domains[RuleName(name, ip).value := NewRule(verdict, target, ip).value]), ip)
  {
    RuleNameIdempotent(name, ip);
    NewRuleIdempotent(verdict, target, ip);
  }

  lemma VerdictKeepsCanonical(r: Rules, d: string, v: Verdict, ip: IpParser)
    requires Canonical(r, ip) && RuleName(d, ip) == Some(d)
    ensures Canonical(r.(domains := r.domains[d := Rule(v, "")]), ip)
  {
    VerdictPlain(v);
    assert NewRule(VerdictText(v), "", ip) == Ok(Rule(v, ""));
  }

  lemma RemovalKeepsCanonical(r: Rules, d: string, ip: IpParser)
    requires Canonical(r, ip)
    ensures Canonical(r.(domains := r.domains - {d}), ip)
  {
  }

  lemma {:induction false} ParseKeepsCanonical(lines: seq<string>, n: nat, acc: Rules, ip: IpParser)
    requires IpText(ip) && Canonical(acc, ip)
    ensures ParseFrom(lines, n, acc, ip).Ok? ==> Canonical(ParseFrom(lines, n, acc, ip).value, ip)
  {
    if lines != [] && ParseLine(lines[0], acc, ip).Ok? {
      var f := Fields(TrimSpace(lines[0]));
      var next := ParseLine(lines[0], acc, ip).value;
      if next.domains != acc.domains {
        AddKeepsCanonical(acc, f[1], f[0], if |f| == 3 then f[2] else "", ip);
      }
      ParseKeepsCanonical(lines[1..], n + 1, next, ip);
    }
  }

  /** Everything the parser accepts is in normal form. */
  lemma AcceptedIsCanonical(text: string, fallback: Policy, ip: IpParser)
    requires IpText(ip)
    ensures Parse(text, fallback, ip).Ok? ==> Canonical(Parse(text, fallback, ip).value, ip)
  {
    ParseKeepsCanonical(Lines(text), 1, Rules(fallback, map[]), ip);
  }

  /** A rule as the admin API is sent it. */
  datatype RuleJson = RuleJson(domain: string, verdict: string, target: string)

  function AddAll(rs: seq<RuleJson>, acc: Rules, ip: IpParser): Result<Rules, Why> {
    if rs == [] then Ok(acc)
    else
      match RuleName(rs[0].domain, ip)
      case None => Err(NotAName)
      case Some(d) =>
        match NewRule(rs[0].verdict, rs[0].target, ip)
        case Err(e) => Err(e)
        case Ok(rule) => AddAll(rs[1..], acc.(domains := acc.domains[d := rule]), ip)
  }

  /** toRules: a whole rule set from the admin API. */
  function ToRules(default: string, rs: seq<RuleJson>, ip: IpParser): Result<Rules, Why> {
    match ParsePolicy(default)
    case Err(e) => Err(e)
    case Ok(p) => AddAll(rs, Rules(p, map[]), ip)
  }

  lemma {:induction false} AddAllKeepsCanonical(rs: seq<RuleJson>, acc: Rules, ip: IpParser)
    requires IpText(ip) && Canonical(acc, ip)
    ensures AddAll(rs, acc, ip).Ok? ==> Canonical(AddAll(rs, acc, ip).value, ip)
  {
    if rs != [] && RuleName(rs[0].domain, ip).Some? && NewRule(rs[0].verdict, rs[0].target, ip).Ok? {
      AddKeepsCanonical(acc, rs[0].domain, rs[0].verdict, rs[0].target, ip);
      var d, rule := RuleName(rs[0].domain, ip).value, NewRule(rs[0].verdict, rs[0].target, ip).value;
      AddAllKeepsCanonical(rs[1..], acc.(domains := acc.domains[d := rule]), ip);
    }
  }

  /** A rule set the admin API accepts survives being written and read back. */
  lemma PutRulesSurvivesRestart(default: string, rs: seq<RuleJson>, fallback: Policy, ip: IpParser)
    requires IpText(ip) && ToRules(default, rs, ip).Ok?
    ensures Canonical(ToRules(default, rs, ip).value, ip)
    ensures Parse(Format(ToRules(default, rs, ip).value), fallback, ip) == Ok(ToRules(default, rs, ip).value)
  {
    AddAllKeepsCanonical(rs, Rules(ParsePolicy(default).value, map[]), ip);
    ParseUndoesFormat(ToRules(default, rs, ip).value, fallback, ip);
  }

  // --- the loops -------------------------------------------------------------------

  /** `sorted`: the names gathered in any order, then sorted. */
  method SortedNames(r: Rules) returns (ds: seq<string>)
    ensures ds == Orders.SortedStrings(r.domains.Keys)
  {
    var left := r.domains.Keys;
    var names: seq<string> := [];
    while left != {}
      invariant left <= r.domains.Keys
      invariant Orders.Lists(names, r.domains.Keys - left)
      decreases |left|
    {
      var d :| d in left;
      names := names + [d];
      left := left - {d};
    }
    ds := Orders.Sort(names, Orders.LexLeq);
    Orders.LexIsTotalOrder();
    Orders.SortedListing(names, r.domains.Keys, Orders.LexLeq);
    Orders.SortSorts(names, Orders.LexLeq);
    var want := Orders.SortedStrings(r.domains.Keys);
    Orders.ListingIsMultiset(ds, r.domains.Keys);
    Orders.ListingIsMultiset(want, r.domains.Keys);
    Orders.SortedIsUnique(ds, want, Orders.LexLeq);
  }

  /** `format`: the header, the default, then a line per name in order. */
  method FormatRules(r: Rules) returns (text: string)
    ensures text == Format(r)
  {
    var ds := SortedNames(r);
    var body := FormatBody(ds, r.domains);
    text := PutHeader(HEADER, r, ds, body);
  }

  method FormatBody(ds: seq<string>, domains: map<string, Rule>) returns (body: string)
    requires forall d :: d in ds ==> d in domains
    ensures body == RuleLines(ds, domains)
  {
    body := "";
    for i := 0 to |ds|
      invariant RuleLines(ds, domains) == body + RuleLines(ds[i..], domains)
    {
      RuleLinesStep(ds, i, domains, body);
      body := body + (RuleLine(ds[i], domains[ds[i]]) + "\n");
    }
    assert ds[|ds|..] == [];
  }

  method PutHeader(header: string, r: Rules, ds: seq<string>, body: string) returns (text: string)
    requires forall d :: d in ds ==> d in r.domains
    requires body == RuleLines(ds, r.domains)
    ensures text == Headed(header, r, ds)
  {
    text := header + "\n" + (DefaultLine(r.default) + "\n" + body);
  }

  lemma RuleLinesStep(ds: seq<string>, i: nat, domains: map<string, Rule>, body: string)
    requires i < |ds| && forall d :: d in ds ==> d in domains
    ensures body + RuleLines(ds[i..], domains)
         == body + (RuleLine(ds[i], domains[ds[i]]) + "\n") + RuleLines(ds[i + 1..], domains)
  {
    assert ds[i..][0] == ds[i] && ds[i..][1..] == ds[i + 1..];
  }

  /** The loop of parseRules. */
  method ParseRules(text: string, fallback: Policy, ip: IpParser) returns (r: Result<Rules, (nat, Why)>)
    ensures r == Parse(text, fallback, ip)
    ensures r.Ok? ==> Canonical(r.value, ip) || !IpText(ip)
  {
    if IpText(ip) {
      AcceptedIsCanonical(text, fallback, ip);
    }
    var lines := Lines(text);
    var rules := Rules(fallback, map[]);
    for n := 0 to |lines|
      invariant ParseFrom(lines[n..], n + 1, rules, ip) == Parse(text, fallback, ip)
    {
      assert lines[n..][1..] == lines[n + 1..];
      match ParseLine(lines[n], rules, ip)
      case Err(e) => return Err((n + 1, e));
      case Ok(next) => rules := next;
    }
    return Ok(rules);
  }
}
