/** Which line of a rules file an error is about (kproxy/rules.go). */
module RulesErrors {
  import opened Wrappers
  import opened RuleTable
  import opened RulesText
  import Text

  // --- reading anything line by line ----------------------------------------------------------

  /** Each line in turn, stopping at the first that is wrong. */
  function Walk<L, A, E>(read: (L, A) -> Result<A, E>, lines: seq<L>, n: nat, acc: A): Result<A, (nat, E)>
    decreases |lines|
  {
    if lines == [] then Ok(acc)
    else
      match read(lines[0], acc)
      case Err(e) => Err((n, e))
      case Ok(next) => Walk(read, lines[1..], n + 1, next)
  }

  /** What is wrong with a line does not depend on what was read before it. */
  ghost predicate Judges<L(!new), A(!new), E>(read: (L, A) -> Result<A, E>, wrong: L -> Option<E>) {
    forall l, acc :: if wrong(l) == None then read(l, acc).Ok? else read(l, acc) == Err(wrong(l).value)
  }

  /** Line `k` (from 0) is the first wrong one, and `e` is what is wrong with it. */
  predicate FirstWrong<L, E(==)>(lines: seq<L>, k: int, e: E, wrong: L -> Option<E>) {
    && 0 <= k < |lines| && wrong(lines[k]) == Some(e)
    && forall j :: 0 <= j < k ==> wrong(lines[j]) == None
  }

  lemma {:induction false} WalkStops<L(!new), A(!new), E>(
      read: (L, A) -> Result<A, E>, wrong: L -> Option<E>, lines: seq<L>, n: nat, acc: A)
    requires Judges(read, wrong)
    ensures Walk(read, lines, n, acc).Ok? <==> forall j :: 0 <= j < |lines| ==> wrong(lines[j]) == None
    ensures Walk(read, lines, n, acc).Err? ==>
              var (line, e) := Walk(read, lines, n, acc).error;
              line >= n && FirstWrong(lines, line - n, e, wrong)
    decreases |lines|
  {
    if lines != [] && read(lines[0], acc).Ok? {
      var rest := lines[1..];
      assert forall j :: 0 < j < |lines| ==> lines[j] == rest[j - 1];
      assert forall j :: 0 <= j < |rest| ==> rest[j] == lines[j + 1];
      WalkStops(read, wrong, rest, n + 1, read(lines[0], acc).value);
    }
  }

  /** A reading that succeeds when no line is wrong, and else reports the first wrong line,
      by its number. */
  ghost predicate Reports<L, A, E>(r: Result<A, (nat, E)>, lines: seq<L>, wrong: L -> Option<E>) {
    match r
    case Ok(_) => forall j :: 0 <= j < |lines| ==> wrong(lines[j]) == None
    case Err((n, e)) => n >= 1 && FirstWrong(lines, n - 1, e, wrong)
  }

  lemma WalkReports<L(!new), A(!new), E>(read: (L, A) -> Result<A, E>, wrong: L -> Option<E>, lines: seq<L>, acc: A)
    requires Judges(read, wrong)
    ensures Reports(Walk(read, lines, 1, acc), lines, wrong)
  {
    WalkStops(read, wrong, lines, 1, acc);
  }

  // --- the rules file ---------------------------------------------------------------------------

  function Reader(ip: IpParser): (string, Rules) -> Result<Rules, Why> {
    (l: string, acc: Rules) => ParseLine(l, acc, ip)
  }

  /** What is wrong with a line, if anything. */
  function Complaint(ip: IpParser): string -> Option<Why> {
    (l: string) => if ParseLine(l, Rules(Ask, map[]), ip).Ok? then None else Some(ParseLine(l, Rules(Ask, map[]), ip).error)
  }

  lemma FieldsAreJudged(f: seq<string>, acc: Rules, acc': Rules, ip: IpParser)
    ensures ParseFields(f, acc, ip).Ok? <==> ParseFields(f, acc', ip).Ok?
    ensures ParseFields(f, acc, ip).Err? ==> ParseFields(f, acc, ip) == ParseFields(f, acc', ip)
  {
  }

  lemma LineIsJudged(l: string, acc: Rules, acc': Rules, ip: IpParser)
    ensures ParseLine(l, acc, ip).Ok? <==> ParseLine(l, acc', ip).Ok?
    ensures ParseLine(l, acc, ip).Err? ==> ParseLine(l, acc, ip) == ParseLine(l, acc', ip)
  {
    FieldsAreJudged(Text.Fields(Text.TrimSpace(l)), acc, acc', ip);
  }

  lemma LinesAreJudged(ip: IpParser)
    ensures Judges(Reader(ip), Complaint(ip))
  {
    var read, wrong := Reader(ip), Complaint(ip);
    forall l, acc ensures if wrong(l) == None then read(l, acc).Ok? else read(l, acc) == Err(wrong(l).value) {
      LineIsJudged(l, acc, Rules(Ask, map[]), ip);
    }
  }

  lemma {:induction false} ParseIsWalk(lines: seq<string>, n: nat, acc: Rules, ip: IpParser)
    ensures ParseFrom(lines, n, acc, ip) == Walk(Reader(ip), lines, n, acc)
    decreases |lines|
  {
    if lines != [] && ParseLine(lines[0], acc, ip).Ok? {
      ParseIsWalk(lines[1..], n + 1, ParseLine(lines[0], acc, ip).value, ip);
    }
  }

  /** A file is read when none of its lines is wrong, each by itself; otherwise the error is
      that of the first wrong line, by its number. */
  lemma ErrorIsFirstWrongLine(text: string, fallback: Policy, ip: IpParser)
    ensures Reports(Parse(text, fallback, ip), Lines(text), Complaint(ip))
  {
    LinesAreJudged(ip);
    ParseIsWalk(Lines(text), 1, Rules(fallback, map[]), ip);
    WalkReports(Reader(ip), Complaint(ip), Lines(text), Rules(fallback, map[]));
  }
}
