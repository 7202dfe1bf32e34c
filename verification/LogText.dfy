/** A log's file as text: what an append writes and what reading it back finds
    (kelso/lib/logtab.py). `isTs` stands for datetime.fromisoformat accepting a text. */
module LogText {
  import opened Text
  import opened LogTable
  import opened LogObject

  type TsParser = string -> bool

  predicate LineEnd(c: char) { c == '\n' || c == '\r' }

  /** A timestamp as now_ts makes them: accepted, on one line, and no comment. */
  predicate Stamp(ts: string, isTs: TsParser) {
    isTs(ts) && ts != "" && ts[0] != '#' && !IsSpace(ts[0]) && forall i :: 0 <= i < |ts| ==> ts[i] != '\t' && !LineEnd(ts[i])
  }

  function OpText(op: Op): string {
    match op
    case Set => "set"
    case Del => "del"
    case Clr => "clr"
  }

  predicate KnownOp(s: string) { s == "set" || s == "del" || s == "clr" }

  function ParseOp(s: string): Op
    requires KnownOp(s)
  {
    if s == "set" then Set else if s == "del" then Del else Clr
  }

  /** What validate_key and validate_value let through, of any length of value. */
  predicate Writable(r: Record<string>) {
    ValidKey(r.key) && '\n' !in r.value
  }

  /** The line an append writes. */
  function Line(r: Record<string>): string {
    r.ts + "\t" + (OpText(r.op) + "\t" + (r.key + "\t" + r.value))
  }

  // --- reading ----------------------------------------------------------------------------

  /** Where the first line end from `i` on is. */
  function LineEndFrom(s: string, i: nat): (k: nat)
    requires i <= |s|
    ensures i <= k <= |s| && (k < |s| ==> LineEnd(s[k]))
    ensures forall j :: i <= j < k ==> !LineEnd(s[j])
    decreases |s| - i
  {
    if i == |s| || LineEnd(s[i]) then i else LineEndFrom(s, i + 1)
  }

  /** Where the next line starts: text mode reads \r\n, \r and \n alike as a line end. */
  function AfterLine(s: string): (k: nat)
    requires s != ""
    ensures 0 < k <= |s|
  {
    var i := LineEndFrom(s, 0);
    if i == |s| then i
    else if s[i] == '\r' && i + 1 < |s| && s[i + 1] == '\n' then i + 2
    else i + 1
  }

  /** The lines of the file, without their ends. */
  function Lines(s: string): seq<string>
    decreases |s|
  {
    if s == "" then [] else [s[..LineEndFrom(s, 0)]] + Lines(s[AfterLine(s)..])
  }

  /** The record on a line, if it holds one: comments, blank lines and malformed ones do not. */
  function Parse(line: string, isTs: TsParser): seq<Record<string>> {
    if line == "" || line[0] == '#' || TrimSpace(line) == "" then []
    else
      var (ts, rest) := Partition(line, '\t');
      var (op, rest') := Partition(rest, '\t');
      var i := IndexOf(rest', '\t');
      if !KnownOp(op) || i == |rest'| || !isTs(ts) then []
      else [Record(ts, ParseOp(op), rest'[..i], rest'[i + 1..])]
  }

  /** What each element stands for, put together. */
  function Gather<A, B>(f: A -> seq<B>, xs: seq<A>): seq<B> {
    if xs == [] then [] else f(xs[0]) + Gather(f, xs[1..])
  }

  /** _records: what a file holds. */
  function Records(text: string, isTs: TsParser): seq<Record<string>> {
    Gather(l => Parse(l, isTs), Lines(text))
  }

  // --- an append read back ------------------------------------------------------------------

  lemma PartitionAt(a: string, c: char, b: string)
    requires c !in a
    ensures Partition(a + [c] + b, c) == (a, b)
  {
    var s := a + [c] + b;
    assert s[|a|] == c && forall i :: 0 <= i < |a| ==> s[i] == a[i];
    assert IndexOf(s, c) == |a|;
    assert s[..|a|] == a && s[|a| + 1..] == b;
  }

  /** A key that a line can be read back with. */
  predicate CleanKey(key: string) {
    forall i :: 0 <= i < |key| ==> key[i] != '\t' && !LineEnd(key[i])
  }

  lemma ValidIsClean(key: string)
    requires ValidKey(key)
    ensures CleanKey(key)
  {
    forall i | 0 <= i < |key| ensures key[i] != '\t' && !LineEnd(key[i]) {
      assert KeyChar(key[i]);
    }
  }

  lemma NoTabs(r: Record<string>)
    requires CleanKey(r.key)
    ensures '\t' !in OpText(r.op) && '\t' !in r.key
    ensures forall i :: 0 <= i < |OpText(r.op)| ==> !LineEnd(OpText(r.op)[i])
    ensures forall i :: 0 <= i < |r.key| ==> !LineEnd(r.key[i])
  {
  }

  lemma TrimmedKeepsFirst(s: string)
    requires s != "" && !IsSpace(s[0])
    ensures TrimSpace(s) != ""
  {
    assert TrimLeft(s) == s[0..] == s;
    assert TrimmedTo(s, |s|) > 0;
  }

  lemma KeyAndValue(r: Record<string>)
    requires CleanKey(r.key)
    ensures var rest := r.key + "\t" + r.value;
            var i := IndexOf(rest, '\t');
            i < |rest| && rest[..i] == r.key && rest[i + 1..] == r.value
  {
    var rest := r.key + "\t" + r.value;
    NoTabs(r);
    assert rest[|r.key|] == '\t' && forall i :: 0 <= i < |r.key| ==> rest[i] == r.key[i];
    assert IndexOf(rest, '\t') == |r.key|;
  }

  /** A line that ends as it was written is read as its record. */
  lemma LineParses(r: Record<string>, isTs: TsParser)
    requires Stamp(r.ts, isTs) && CleanKey(r.key)
    ensures Parse(Line(r), isTs) == [r]
  {
    var rest' := r.key + "\t" + r.value;
    var rest := OpText(r.op) + "\t" + rest';
    NoTabs(r);
    PartitionAt(r.ts, '\t', rest);
    PartitionAt(OpText(r.op), '\t', rest');
    KeyAndValue(r);
    assert Line(r) == r.ts + "\t" + rest;
    assert Line(r)[0] == r.ts[0];
    TrimmedKeepsFirst(Line(r));
    assert KnownOp(OpText(r.op)) && ParseOp(OpText(r.op)) == r.op;
  }

  lemma LinesStep(l: string, c: char, rest: string)
    requires (forall i :: 0 <= i < |l| ==> !LineEnd(l[i])) && LineEnd(c)
    requires c == '\r' ==> rest == "" || rest[0] != '\n'
    ensures Lines(l + [c] + rest) == [l] + Lines(rest)
  {
    var s := l + [c] + rest;
    assert s[|l|] == c && forall i :: 0 <= i < |l| ==> s[i] == l[i];
    assert LineEndFrom(s, 0) == |l|;
    assert rest != "" ==> s[|l| + 1] == rest[0];
    assert AfterLine(s) == |l| + 1;
    assert s[..|l|] == l && s[|l| + 1..] == rest;
  }

  /** Nothing, or text whose last line is ended. */
  predicate Ended(text: string) { text == "" || text[|text| - 1] == '\n' }

  /** A file whose last line is ended is read line by line before what follows it. */
  lemma {:induction false} LinesConcat(a: string, b: string)
    requires Ended(a)
    ensures Lines(a + b) == Lines(a) + Lines(b)
    decreases |a|
  {
    if a == "" {
      assert a + b == b;
    } else {
      var i, k := LineEndFrom(a, 0), AfterLine(a);
      SameFirstLine(a, b);
      var first, rest := a[..i], a[k..];
      assert (a + b)[..i] == first;
      assert (a + b)[k..] == rest + b;
      LinesConcat(rest, b);
      assert Lines(a + b) == [first] + Lines(rest + b);
    }
  }

  lemma SameFirstLine(a: string, b: string)
    requires a != "" && a[|a| - 1] == '\n'
    ensures LineEndFrom(a + b, 0) == LineEndFrom(a, 0) < |a| && AfterLine(a + b) == AfterLine(a)
  {
    var i := LineEndFrom(a, 0);
    assert i < |a|;
    assert (a + b)[i] == a[i] && forall j :: 0 <= j < i ==> (a + b)[j] == a[j];
    if i + 1 < |a| { assert (a + b)[i + 1] == a[i + 1]; }
  }

  lemma {:induction false} GatherConcat<A, B>(f: A -> seq<B>, a: seq<A>, b: seq<A>)
    ensures Gather(f, a + b) == Gather(f, a) + Gather(f, b)
    decreases |a|
  {
    if a == [] {
      assert a + b == b;
    } else {
      GatherConcat(f, a[1..], b);
      assert (a + b)[1..] == a[1..] + b;
    }
  }

  lemma GatherOne<A, B>(f: A -> seq<B>, x: A, xs: seq<A>)
    ensures Gather(f, [x] + xs) == f(x) + Gather(f, xs)
  {
    assert ([x] + xs)[1..] == xs;
  }

  /** What is added after an ended line is read on its own. */
  lemma RecordsConcat(a: string, b: string, isTs: TsParser)
    requires Ended(a)
    ensures Records(a + b, isTs) == Records(a, isTs) + Records(b, isTs)
  {
    LinesConcat(a, b);
    GatherConcat((l: string) => Parse(l, isTs), Lines(a), Lines(b));
  }

  lemma NoEndsInFront(r: Record<string>, isTs: TsParser)
    requires Stamp(r.ts, isTs) && CleanKey(r.key)
    ensures var front := r.ts + "\t" + (OpText(r.op) + "\t" + (r.key + "\t"));
            Line(r) == front + r.value && forall i :: 0 <= i < |front| ==> !LineEnd(front[i])
  {
    NoTabs(r);
    var front := r.ts + "\t" + (OpText(r.op) + "\t" + (r.key + "\t"));
    forall i | 0 <= i < |front| ensures !LineEnd(front[i]) {
      assert front[i] in r.ts || front[i] == '\t' || front[i] in OpText(r.op) || front[i] in r.key;
    }
    assert Line(r) == front + r.value;
  }

  /** A record whose fields a line keeps apart. */
  predicate Clean(r: Record<string>, isTs: TsParser) {
    Stamp(r.ts, isTs) && CleanKey(r.key) && forall i :: 0 <= i < |r.value| ==> !LineEnd(r.value[i])
  }

  lemma CleanLine(r: Record<string>, isTs: TsParser)
    requires Clean(r, isTs)
    ensures forall i :: 0 <= i < |Line(r)| ==> !LineEnd(Line(r)[i])
  {
    var line := Line(r);
    NoEndsInFront(r, isTs);
    var front := r.ts + "\t" + (OpText(r.op) + "\t" + (r.key + "\t"));
    forall i | 0 <= i < |line| ensures !LineEnd(line[i]) {
      if i >= |front| { assert line[i] == r.value[i - |front|]; }
    }
  }

  /** A clean record's line is read as that record, and what follows it after it. */
  lemma CleanLineReads(r: Record<string>, rest: string, isTs: TsParser)
    requires Clean(r, isTs)
    ensures Records(Line(r) + "\n" + rest, isTs) == [r] + Records(rest, isTs)
  {
    CleanLine(r, isTs);
    LinesStep(Line(r), '\n', rest);
    LineParses(r, isTs);
    GatherOne((l: string) => Parse(l, isTs), Line(r), Lines(rest));
  }

  lemma WritableIsClean(r: Record<string>, isTs: TsParser)
    requires Stamp(r.ts, isTs) && Writable(r) && '\r' !in r.value
    ensures Clean(r, isTs)
  {
    ValidIsClean(r.key);
    forall i | 0 <= i < |r.value| ensures !LineEnd(r.value[i]) {
      assert r.value[i] in r.value;
    }
  }

  /** Without a carriage return in its value, a record's line is read as that record. */
  lemma PlainLineReads(r: Record<string>, isTs: TsParser)
    requires Stamp(r.ts, isTs) && Writable(r) && '\r' !in r.value
    ensures Records(Line(r) + "\n", isTs) == [r]
  {
    WritableIsClean(r, isTs);
    CleanLineReads(r, "", isTs);
    assert Line(r) + "\n" + "" == Line(r) + "\n";
  }

  /** With one, its value is cut there. */
  lemma CutAtReturn(r: Record<string>, isTs: TsParser)
    requires Stamp(r.ts, isTs) && Writable(r) && '\r' in r.value
    ensures var k := IndexOf(r.value, '\r');
            k < |r.value| && Records(Line(r) + "\n", isTs) != [] &&
            Records(Line(r) + "\n", isTs)[0] == r.(value := r.value[..k])
  {
    var cut := r.(value := r.value[..IndexOf(r.value, '\r')]);
    var s := Line(r) + "\n";
    ValidIsClean(r.key);
    FirstLineOfCut(r, isTs);
    LineParses(cut, isTs);
    var lines := Lines(s);
    assert lines == [lines[0]] + lines[1..];
    GatherOne((l: string) => Parse(l, isTs), lines[0], lines[1..]);
  }

  lemma FirstLineOfCut(r: Record<string>, isTs: TsParser)
    requires Stamp(r.ts, isTs) && Writable(r) && '\r' in r.value
    ensures var k := IndexOf(r.value, '\r');
            k < |r.value| && Lines(Line(r) + "\n") != [] && Lines(Line(r) + "\n")[0] == Line(r.(value := r.value[..k]))
  {
    var k := IndexOf(r.value, '\r');
    var cut := r.(value := r.value[..k]);
    ValidIsClean(r.key);
    NoEndsInFront(r, isTs);
    NoEndsInFront(cut, isTs);
    var front := r.ts + "\t" + (OpText(r.op) + "\t" + (r.key + "\t"));
    var s := Line(r) + "\n";
    var at := |front| + k;
    assert s == front + (r.value + "\n");
    assert s[..at] == front + r.value[..k];
    assert s[at] == r.value[k];
    forall j | 0 <= j < at ensures !LineEnd(s[j]) {
      if j >= |front| {
        assert s[j] == r.value[j - |front|] && s[j] in r.value;
      } else {
        assert s[j] == front[j];
      }
    }
    assert LineEndFrom(s, 0) == at;
  }

  /** An append adds exactly its record to what the file holds, if and only if its value
      holds no carriage return. */
  lemma AppendReadsBack(text: string, r: Record<string>, isTs: TsParser)
    requires Stamp(r.ts, isTs) && Writable(r)
    requires Ended(text)
    ensures Records(text + (Line(r) + "\n"), isTs) == Records(text, isTs) + [r] <==> '\r' !in r.value
  {
    RecordsConcat(text, Line(r) + "\n", isTs);
    var before, added := Records(text, isTs), Records(Line(r) + "\n", isTs);
    if '\r' !in r.value {
      PlainLineReads(r, isTs);
    } else {
      CutAtReturn(r, isTs);
      assert (before + added)[|before|] == added[0] && (before + [r])[|before|] == r;
      assert |added[0].value| < |r.value|;
    }
  }

  /** What is left after adding each of `rs` in turn. */
  function Fold<R>(add: (string, R) -> string, text: string, rs: seq<R>): string
    decreases |rs|
  {
    if rs == [] then text else Fold(add, add(text, rs[0]), rs[1..])
  }

  /** Reading undoes adding, one after another, when it undoes each of them. */
  lemma {:induction false} FoldReads<R(!new)>(
      read: string -> seq<R>, add: (string, R) -> string, fits: (string, R) -> bool, text: string, rs: seq<R>)
    requires forall t, r :: fits(t, r) ==> read(add(t, r)) == read(t) + [r]
    requires forall t, r, r' :: fits(t, r) && fits(t, r') ==> fits(add(t, r), r')
    requires forall r :: r in rs ==> fits(text, r)
    ensures read(Fold(add, text, rs)) == read(text) + rs
    decreases |rs|
  {
    if rs == [] {
      assert read(text) + rs == read(text);
    } else {
      FoldReads(read, add, fits, add(text, rs[0]), rs[1..]);
      assert rs == [rs[0]] + rs[1..];
      assert read(text) + [rs[0]] + rs[1..] == read(text) + rs;
    }
  }

  /** The file once records have been appended to it. */
  function Appended(text: string, rs: seq<Record<string>>): string {
    Fold((t: string, r: Record<string>) => t + (Line(r) + "\n"), text, rs)
  }

  /** A record an append writes, whose value has no carriage return. */
  predicate ReadsBack(r: Record<string>, isTs: TsParser) {
    Stamp(r.ts, isTs) && Writable(r) && '\r' !in r.value
  }

  lemma OneMoreReads(text: string, r: Record<string>, isTs: TsParser)
    requires Ended(text) && ReadsBack(r, isTs)
    ensures Records(text + (Line(r) + "\n"), isTs) == Records(text, isTs) + [r] && Ended(text + (Line(r) + "\n"))
  {
    AppendReadsBack(text, r, isTs);
  }

  /** So a file that only such appends have written holds the records appended. */
  lemma FileHoldsAppends(text: string, rs: seq<Record<string>>, isTs: TsParser)
    requires Ended(text) && forall r :: r in rs ==> ReadsBack(r, isTs)
    ensures Records(Appended(text, rs), isTs) == Records(text, isTs) + rs
  {
    var read := (t: string) => Records(t, isTs);
    var add := (t: string, r: Record<string>) => t + (Line(r) + "\n");
    var fits := (t: string, r: Record<string>) => Ended(t) && ReadsBack(r, isTs);
    forall t, r | fits(t, r) ensures read(add(t, r)) == read(t) + [r] && Ended(add(t, r)) {
      OneMoreReads(t, r, isTs);
    }
    FoldReads(read, add, fits, text, rs);
  }

  // --- what compaction writes -----------------------------------------------------------------

  const TITLE: string := "# Compacted logtab at "
  const FORMAT: string := "# Format: <date>\\t<set|del|clr>" + "\\t<key>\\t<value>\\n"
  const END: string := "# end compacted entries"

  /** What is left after adding each of `rs` in front, the last one first. */
  function FoldBack<R>(add: (R, string) -> string, rs: seq<R>, rest: string): string
    decreases |rs|
  {
    if rs == [] then rest else add(rs[0], FoldBack(add, rs[1..], rest))
  }

  function LineThen(r: Record<string>, rest: string): string { Line(r) + "\n" + rest }

  /** Lines, each with its end. */
  function Joined(rs: seq<Record<string>>, rest: string): string { FoldBack(LineThen, rs, rest) }

  /** The text that compact writes: the records between comments. */
  function CompactText(rs: seq<Record<string>>, now_: string): string {
    TITLE + now_ + "\n" + (FORMAT + "\n" + Joined(rs, END + "\n"))
  }

  /** The file after compact: as it was if it has fewer records than are to be kept. */
  ghost function Recompacted(text: string, history: nat, now_: string, isTs: TsParser): string {
    var rs := Records(text, isTs);
    if history > |rs| then text else CompactText(Compacted(rs, history), now_)
  }

  /** What datetime.fromisoformat accepts is not empty and does not start with a space. */
  ghost predicate TsText(isTs: TsParser) {
    forall s {:trigger isTs(s)} :: isTs(s) ==> s != "" && !IsSpace(s[0])
  }

  predicate NoEnds(s: string) { forall i :: 0 <= i < |s| ==> !LineEnd(s[i]) }

  lemma CommentReads(line: string, rest: string, isTs: TsParser)
    requires NoEnds(line) && line != "" && line[0] == '#'
    ensures Records(line + "\n" + rest, isTs) == Records(rest, isTs)
  {
    LinesStep(line, '\n', rest);
    GatherOne((l: string) => Parse(l, isTs), line, Lines(rest));
  }

  lemma {:induction false} FoldBackReads<R(!new)>(
      read: string -> seq<R>, add: (R, string) -> string, fits: R -> bool, rs: seq<R>, rest: string)
    requires forall r, t :: fits(r) ==> read(add(r, t)) == [r] + read(t)
    requires forall r :: r in rs ==> fits(r)
    ensures read(FoldBack(add, rs, rest)) == rs + read(rest)
    decreases |rs|
  {
    if rs == [] {
      assert rs + read(rest) == read(rest);
    } else {
      FoldBackReads(read, add, fits, rs[1..], rest);
      assert [rs[0]] + (rs[1..] + read(rest)) == rs + read(rest);
    }
  }

  lemma JoinedReads(rs: seq<Record<string>>, rest: string, isTs: TsParser)
    requires forall r :: r in rs ==> Clean(r, isTs)
    ensures Records(Joined(rs, rest), isTs) == rs + Records(rest, isTs)
  {
    var read := (t: string) => Records(t, isTs);
    var fits := (r: Record<string>) => Clean(r, isTs);
    forall r, t | fits(r) ensures read(LineThen(r, t)) == [r] + read(t) {
      CleanLineReads(r, t, isTs);
    }
    FoldBackReads(read, LineThen, fits, rs, rest);
  }

  lemma TitleShape(now_: string)
    requires NoEnds(now_)
    ensures NoEnds(TITLE + now_) && (TITLE + now_)[0] == '#'
  {
    forall i | 0 <= i < |TITLE + now_| ensures !LineEnd((TITLE + now_)[i]) {
      if i < |TITLE| { assert (TITLE + now_)[i] == TITLE[i]; } else { assert (TITLE + now_)[i] == now_[i - |TITLE|]; }
    }
  }

  lemma CommentShapes()
    ensures NoEnds(FORMAT) && FORMAT[0] == '#' && NoEnds(END) && END[0] == '#'
  {
  }

  lemma CompactTextReads(rs: seq<Record<string>>, now_: string, isTs: TsParser)
    requires NoEnds(now_) && forall r :: r in rs ==> Clean(r, isTs)
    ensures Records(CompactText(rs, now_), isTs) == rs
  {
    TitleShape(now_);
    CommentShapes();
    var body := Joined(rs, END + "\n");
    CommentReads(TITLE + now_, FORMAT + "\n" + body, isTs);
    CommentReads(FORMAT, body, isTs);
    JoinedReads(rs, END + "\n", isTs);
    CommentReads(END, "", isTs);
    assert END + "\n" + "" == END + "\n";
    assert rs + [] == rs;
  }

  // --- what is read is clean ------------------------------------------------------------------

  lemma {:induction false} LinesHaveNoEnds(s: string, l: string)
    requires l in Lines(s)
    ensures NoEnds(l)
    decreases |s|
  {
    var first := s[..LineEndFrom(s, 0)];
    if l != first {
      LinesHaveNoEnds(s[AfterLine(s)..], l);
    }
  }

  lemma {:induction false} GatheredFrom<A, B>(f: A -> seq<B>, xs: seq<A>, b: B) returns (x: A)
    requires b in Gather(f, xs)
    ensures x in xs && b in f(x)
    decreases |xs|
  {
    if b in f(xs[0]) {
      x := xs[0];
    } else {
      x := GatheredFrom(f, xs[1..], b);
    }
  }

  lemma ParsedIsClean(line: string, r: Record<string>, isTs: TsParser)
    requires TsText(isTs) && NoEnds(line) && Parse(line, isTs) == [r]
    ensures Clean(r, isTs)
  {
    var (ts, rest) := Partition(line, '\t');
    var (op, rest') := Partition(rest, '\t');
    var i := IndexOf(rest', '\t');
    assert NoEnds(ts) && NoEnds(rest) && NoEnds(rest');
    assert r == Record(ts, ParseOp(op), rest'[..i], rest'[i + 1..]);
    assert ts != "" && ts[0] == line[0];
  }

  lemma ReadIsClean(text: string, isTs: TsParser, r: Record<string>)
    requires TsText(isTs) && r in Records(text, isTs)
    ensures Clean(r, isTs)
  {
    var line := GatheredFrom((l: string) => Parse(l, isTs), Lines(text), r);
    LinesHaveNoEnds(text, line);
    ParsedIsClean(line, r, isTs);
  }

  lemma {:induction false} EntryIsRecord(rs: seq<Record<string>>, k: string)
    requires k in Load(rs)
    ensures Record(Load(rs)[k].ts, Set, k, Load(rs)[k].value) in rs
    decreases |rs|
  {
    var front, last := rs[..|rs| - 1], rs[|rs| - 1];
    assert rs == front + [last];
    LoadAppend(front, last);
    if k in Load(front) && Load(front)[k] == Load(rs)[k] {
      EntryIsRecord(front, k);
    }
  }

  lemma CompactedFromRecords(rs: seq<Record<string>>, history: nat, r: Record<string>)
    requires history <= |rs| && r in Compacted(rs, history)
    ensures r in rs
  {
    CompactShape(rs, history);
    var c := Compacted(rs, history);
    var i :| 0 <= i < |c| && c[i] == r;
    if i < |c| - history {
      EntryIsRecord(rs, r.key);
    } else {
      assert r == Tail(c, history)[i - (|c| - history)];
      assert r in Tail(rs, history);
    }
  }

  /** The file that compact leaves is read as the compacted records: what holds of those
      holds of the file. */
  lemma CompactReadsBack(text: string, history: nat, now_: string, isTs: TsParser)
    requires TsText(isTs) && NoEnds(now_)
    ensures Records(Recompacted(text, history, now_, isTs), isTs) == Compacted(Records(text, isTs), history)
  {
    var rs := Records(text, isTs);
    if history <= |rs| {
      forall r | r in Compacted(rs, history) ensures Clean(r, isTs) {
        CompactedFromRecords(rs, history, r);
        ReadIsClean(text, isTs, r);
      }
      CompactTextReads(Compacted(rs, history), now_, isTs);
    }
  }
}
