/** Public suffixes and root domains (kproxy/rules.go), over a suffix list given as
    a function: `psl(host)` is the host's suffix and whether it is an ICANN one. */
module RootDomain {
  import opened Text
  import opened RuleTable
  import T = RulesText

  type SuffixList = string -> (string, bool)

  /** A host's suffix is a label suffix of the host. */
  ghost predicate SuffixText(psl: SuffixList) {
    forall h {:trigger psl(h)} :: Covers(psl(h).0, h)
  }

  /** `suffixes`: the ICANN suffix ("" if none) and the private ones passed on the way. */
  function Suffixes(host: string, psl: SuffixList): (string, seq<string>)
    decreases |host|
  {
    var (suffix, icann) := psl(host);
    if icann then (suffix, [])
    else if |suffix| > |host| || FirstDot(suffix) == |suffix| then ("", [suffix])
    else
      var (found, private_) := Suffixes(suffix[FirstDot(suffix) + 1..], psl);
      (found, [suffix] + private_)
  }

  lemma {:induction false} SuffixesCover(host: string, psl: SuffixList)
    requires SuffixText(psl)
    ensures var (found, private_) := Suffixes(host, psl);
            && (found == "" || Covers(found, host))
            && forall i :: 0 <= i < |private_| ==> Covers(private_[i], host)
    decreases |host|
  {
    var (suffix, icann) := psl(host);
    assert Covers(suffix, host);
    if !icann && |suffix| <= |host| && FirstDot(suffix) < |suffix| {
      var parent := suffix[FirstDot(suffix) + 1..];
      SuffixesCover(parent, psl);
      var (found, private_) := Suffixes(parent, psl);
      CoversStep(parent, suffix);
      CoversTransitive(parent, suffix, host);
      if found != "" { CoversTransitive(found, parent, host); }
      forall i | 0 <= i < |private_| ensures Covers(private_[i], host) {
        CoversTransitive(private_[i], parent, host);
      }
    }
  }

  lemma CoversTransitive(a: string, b: string, c: string)
    requires Covers(a, b) && Covers(b, c)
    ensures Covers(a, c)
  {
    if a != b && b != c {
      TailOfTail(c, |c| - |b|, |a|);
      assert c[|c| - |b|..] == b;
      assert c[|c| - |a| - 1] == b[|b| - |a| - 1];
    }
  }

  /** The last label of `rest`. */
  function LastLabel(rest: string): string {
    rest[LastIndexOf(rest, '.') + 1..]
  }

  /** rootDomain: the name directly under the host's ICANN suffix, "" if it has none. */
  function Root(host: string, psl: SuffixList, ip: T.IpParser): string {
    var h := T.NormHost(host);
    if h == "" || ip(h) != T.NotAnIp then ""
    else
      var (suffix, _) := Suffixes(h, psl);
      if suffix == "" || h == suffix then ""
      else LastLabel(TrimEnd(h, "." + suffix)) + "." + suffix
  }

  /** strings.TrimSuffix. */
  function TrimEnd(s: string, end: string): string {
    if |end| <= |s| && s[|s| - |end|..] == end then s[..|s| - |end|] else s
  }

  lemma TrimmedHost(h: string, suffix: string)
    requires EndsAtDot(suffix, h)
    ensures TrimEnd(h, "." + suffix) == h[..|h| - |suffix| - 1]
  {
    var n := |h| - |suffix| - 1;
    assert h[n..] == [h[n]] + h[n + 1..];
  }

  /** The last label of what precedes a suffix, with the suffix, is a name of the host. */
  lemma LastLabelCovers(h: string, suffix: string)
    requires EndsAtDot(suffix, h)
    ensures var own := LastLabel(h[..|h| - |suffix| - 1]);
            '.' !in own && Covers(own + "." + suffix, h)
  {
    var n := |h| - |suffix| - 1;
    var rest := h[..n];
    var k := LastIndexOf(rest, '.') + 1;
    assert h[k..] == rest[k..] + [h[n]] + h[n + 1..];
    assert h[n + 1..] == suffix;
    assert h[k..] == rest[k..] + "." + suffix;
    if k > 0 { assert h[k - 1] == rest[k - 1]; }
  }

  /** A root domain is a name the host is or ends in: one label and its ICANN suffix. */
  lemma RootCovers(host: string, psl: SuffixList, ip: T.IpParser)
    requires SuffixText(psl) && Root(host, psl, ip) != ""
    ensures var h := T.NormHost(host);
            var suffix := Suffixes(h, psl).0;
            && Covers(Root(host, psl, ip), h) && EndsAtDot(suffix, h)
            && exists own :: Root(host, psl, ip) == own + "." + suffix && '.' !in own
  {
    var h := T.NormHost(host);
    SuffixesCover(h, psl);
    var suffix := Suffixes(h, psl).0;
    TrimmedHost(h, suffix);
    LastLabelCovers(h, suffix);
    var own := LastLabel(h[..|h| - |suffix| - 1]);
    assert Root(host, psl, ip) == own + "." + suffix;
  }

  // --- exactly which name it is --------------------------------------------------------------

  /** From the host up: what follows the first label of each private suffix in turn. */
  ghost predicate Climbs(chain: seq<string>, host: string, psl: SuffixList) {
    && chain != [] && chain[0] == host
    && forall i :: 0 <= i < |chain| - 1 ==> StepsUp(chain[i], chain[i + 1], psl)
  }

  ghost predicate StepsUp(name: string, parent: string, psl: SuffixList) {
    !psl(name).1 && exists label_ :: '.' !in label_ && psl(name).0 == label_ + "." + parent
  }

  /** The climb ends at a name with an ICANN suffix, or with a private one of one label. */
  ghost predicate ClimbEnds(chain: seq<string>, host: string, psl: SuffixList) {
    Climbs(chain, host, psl) && (psl(chain[|chain| - 1]).1 || '.' !in psl(chain[|chain| - 1]).0)
  }

  lemma FirstLabel(s: string, label_: string, parent: string)
    requires '.' !in label_ && s == label_ + "." + parent
    ensures FirstDot(s) == |label_| && s[FirstDot(s) + 1..] == parent
  {
    assert s[|label_|] == '.';
    assert forall k :: 0 <= k < |label_| ==> s[k] == label_[k];
  }

  lemma StepsUpIs(name: string, psl: SuffixList)
    requires !psl(name).1 && FirstDot(psl(name).0) < |psl(name).0|
    ensures StepsUp(name, psl(name).0[FirstDot(psl(name).0) + 1..], psl)
  {
    var s := psl(name).0;
    var i := FirstDot(s);
    assert s == s[..i] + "." + s[i + 1..];
  }

  /** The suffixes of a host are those met on the climb: the ICANN one it ends at, if it
      does, and the private ones on the way. */
  lemma {:induction false} SuffixesClimb(host: string, psl: SuffixList) returns (chain: seq<string>)
    requires SuffixText(psl)
    ensures ClimbEnds(chain, host, psl)
    ensures var (found, private_) := Suffixes(host, psl);
            var top := chain[|chain| - 1];
            && found == (if psl(top).1 then psl(top).0 else "")
            && |private_| == (if psl(top).1 then |chain| - 1 else |chain|)
            && forall i :: 0 <= i < |private_| ==> private_[i] == psl(chain[i]).0
    decreases |host|
  {
    var (suffix, icann) := psl(host);
    assert Covers(suffix, host);
    if icann || FirstDot(suffix) == |suffix| {
      chain := [host];
    } else {
      var parent := suffix[FirstDot(suffix) + 1..];
      var rest := SuffixesClimb(parent, psl);
      StepsUpIs(host, psl);
      chain := [host] + rest;
    }
  }

  /** There is one climb. */
  lemma {:induction false} OneClimb(a: seq<string>, b: seq<string>, host: string, psl: SuffixList)
    requires ClimbEnds(a, host, psl) && ClimbEnds(b, host, psl)
    ensures a == b
    decreases |a|
  {
    if |a| > 1 && |b| > 1 {
      StepIsOne(host, a[1], b[1], psl);
      OneClimb(a[1..], b[1..], a[1], psl);
      assert a == [host] + a[1..] && b == [host] + b[1..];
    } else if |a| > 1 {
      StepIsNotEnd(host, a[1], psl);
    } else if |b| > 1 {
      StepIsNotEnd(host, b[1], psl);
    }
  }

  lemma StepIsOne(name: string, p: string, q: string, psl: SuffixList)
    requires StepsUp(name, p, psl) && StepsUp(name, q, psl)
    ensures p == q
  {
    var a :| '.' !in a && psl(name).0 == a + "." + p;
    var b :| '.' !in b && psl(name).0 == b + "." + q;
    FirstLabel(psl(name).0, a, p);
    FirstLabel(psl(name).0, b, q);
  }

  lemma StepIsNotEnd(name: string, p: string, psl: SuffixList)
    requires StepsUp(name, p, psl)
    ensures !psl(name).1 && '.' in psl(name).0
  {
    var a :| '.' !in a && psl(name).0 == a + "." + p;
    assert psl(name).0[|a|] == '.';
  }

  /** The host's ICANN suffix. */
  ghost predicate IcannSuffix(host: string, suffix: string, psl: SuffixList) {
    exists chain :: ClimbEnds(chain, host, psl) && psl(chain[|chain| - 1]) == (suffix, true)
  }

  lemma SuffixIs(host: string, suffix: string, psl: SuffixList)
    requires SuffixText(psl) && suffix != ""
    ensures Suffixes(host, psl).0 == suffix <==> IcannSuffix(host, suffix, psl)
  {
    var chain := SuffixesClimb(host, psl);
    if other :| ClimbEnds(other, host, psl) && psl(other[|other| - 1]) == (suffix, true) {
      OneClimb(chain, other, host, psl);
    }
  }

  /** `r` is one label and the ICANN suffix, and `h` is it or ends in it. */
  ghost predicate IsRoot(r: string, h: string, psl: SuffixList) {
    Covers(r, h) && exists own, suffix :: suffix != "" && IcannSuffix(h, suffix, psl) && '.' !in own && r == own + "." + suffix
  }

  /** Two such names of a host are one. */
  lemma OneRoot(a: string, b: string, suffix: string, h: string)
    requires '.' !in a && '.' !in b && Covers(a + "." + suffix, h) && Covers(b + "." + suffix, h)
    ensures a == b
  {
    var ra, rb := a + "." + suffix, b + "." + suffix;
    if |a| == |b| {
      CoversBySameLength(ra, rb, h);
      assert a == ra[..|a|] && b == rb[..|a|];
    } else if |a| < |b| {
      ShorterRoot(a, b, suffix, h);
    } else {
      ShorterRoot(b, a, suffix, h);
    }
  }

  lemma ShorterRoot(a: string, b: string, suffix: string, h: string)
    requires Covers(a + "." + suffix, h) && Covers(b + "." + suffix, h) && |a| < |b|
    ensures '.' in b
  {
    var ra, rb := a + "." + suffix, b + "." + suffix;
    CoversIsSuffix(rb, h);
    assert h[|h| - |ra| - 1] == '.';
    assert h[|h| - |rb|..][|rb| - |ra| - 1] == '.';
    assert b[|b| - |a| - 1] == rb[|b| - |a| - 1];
  }

  /** A host's root domain, exactly: no other name is it, and it has none when it is an
      address or no name is. */
  lemma RootMeans(host: string, psl: SuffixList, ip: T.IpParser)
    requires SuffixText(psl)
    ensures var h := T.NormHost(host);
            if h == "" || ip(h) != T.NotAnIp then Root(host, psl, ip) == ""
            else forall r :: r != "" ==> (Root(host, psl, ip) == r <==> IsRoot(r, h, psl))
  {
    var h := T.NormHost(host);
    if !(h == "" || ip(h) != T.NotAnIp) {
      var root := Root(host, psl, ip);
      if root != "" {
        RootCovers(host, psl, ip);
        SuffixIs(h, Suffixes(h, psl).0, psl);
        assert IsRoot(root, h, psl);
      }
      forall r | IsRoot(r, h, psl) ensures root == r {
        RootIsIt(host, psl, ip, r);
      }
    }
  }

  lemma RootIsIt(host: string, psl: SuffixList, ip: T.IpParser, r: string)
    requires SuffixText(psl) && T.NormHost(host) != "" && ip(T.NormHost(host)) == T.NotAnIp && IsRoot(r, T.NormHost(host), psl)
    ensures Root(host, psl, ip) == r
  {
    var h := T.NormHost(host);
    var own, suffix :| suffix != "" && IcannSuffix(h, suffix, psl) && '.' !in own && r == own + "." + suffix;
    SuffixIs(h, suffix, psl);
    SuffixesCover(h, psl);
    CoversIsSuffix(r, h);
    TrimmedHost(h, suffix);
    LastLabelCovers(h, suffix);
    OneRoot(own, LastLabel(h[..|h| - |suffix| - 1]), suffix, h);
  }
}
