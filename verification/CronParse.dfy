/** Reading a cron schedule (kelso/lib/cronexpr.py). */
module CronParse {
  import opened Text
  import opened Wrappers
  import opened CronSearch
  import opened CronHorizon
  import Decimal

  datatype Why = FieldCount(n: nat) | NotANumber(text: string) | BadStep(item: string) | OutOfRange(item: string)

  type Parsed<T> = Result<T, Why>

  /** What one item of a field stands for: start, start + step, ... up to end. */
  datatype Span = Span(start: int, end: int, step: int) {
    predicate Holds(v: int) { start <= v <= end && step > 0 && (v - start) % step == 0 }
  }

  function Number(text: string): Parsed<nat> {
    if Decimal.IsNumeral(text) then Ok(Decimal.Value(text)) else Err(NotANumber(text))
  }

  function Step(item: string): Parsed<nat> {
    var stepText := Partition(item, '/').1;
    if stepText == "" then Ok(1)
    else
      match Number(stepText)
      case Err(e) => Err(e)
      case Ok(n) => if n < 1 then Err(BadStep(item)) else Ok(n)
  }

  /** `*`, `a-b` or `a`; the last up to the top of the field when it has a step. */
  function Bounds(item: string, low: int, high: int): Parsed<(int, int)> {
    var (span, stepText) := Partition(item, '/');
    if span == "*" then Ok((low, high))
    else if '-' in span then
      var (a, b) := Partition(span, '-');
      match Number(a)
      case Err(e) => Err(e)
      case Ok(start) =>
        match Number(b)
        case Err(e) => Err(e)
        case Ok(end) => Ok((start, end))
    else
      match Number(span)
      case Err(e) => Err(e)
      case Ok(start) => Ok((start, if stepText != "" then high else start))
  }

  function ParseItem(item: string, low: int, high: int): Parsed<Span> {
    match Step(item)
    case Err(e) => Err(e)
    case Ok(step) =>
      match Bounds(item, low, high)
      case Err(e) => Err(e)
      case Ok((start, end)) =>
        if low <= start <= end <= high then Ok(Span(start, end, step)) else Err(OutOfRange(item))
  }

  /** What a parsed item adds: range(start, end + 1, step). */
  function Values(s: Span): set<int> {
    set v | s.start <= v <= s.end && s.Holds(v)
  }

  lemma SpanNotEmpty(item: string, low: int, high: int)
    requires ParseItem(item, low, high).Ok?
    ensures var s := ParseItem(item, low, high).value;
            s.start in Values(s) && InRange(Values(s), low, high)
  {
    var s := ParseItem(item, low, high).value;
    assert s.Holds(s.start);
  }

  // --- what an item means -----------------------------------------------------------------

  predicate Numeral(text: string, n: int) {
    Decimal.IsNumeral(text) && Decimal.Value(text) == n
  }

  /** `vs` are start, start + step, and so on up to end, within the field. */
  ghost predicate Every(vs: set<int>, start: int, end: int, step: int, low: int, high: int) {
    && low <= start <= end <= high && step >= 1
    && forall v :: v in vs <==> v <= end && exists k: nat :: v == start + k * step
  }

  /** `*` is the whole field, and `a-b` goes from one number to another. */
  ghost predicate Spans(span: string, start: int, end: int, low: int, high: int) {
    || (span == "*" && start == low && end == high)
    || (exists from, to :: span == from + "-" + to && Numeral(from, start) && Numeral(to, end))
  }

  /** Without a step: all that is spanned, or the one number. */
  ghost predicate Plain(span: string, vs: set<int>, low: int, high: int) {
    || (exists start, end :: Spans(span, start, end, low, high) && Every(vs, start, end, 1, low, high))
    || (exists a :: Numeral(span, a) && Every(vs, a, a, 1, low, high))
  }

  /** With a step `n`: every n-th of what is spanned, or of what follows the number. */
  ghost predicate Stepped(span: string, vs: set<int>, n: int, low: int, high: int) {
    || (exists start, end :: Spans(span, start, end, low, high) && Every(vs, start, end, n, low, high))
    || (exists a :: Numeral(span, a) && Every(vs, a, high, n, low, high))
  }

  /** What an item of a field may be, and the values it then stands for: a span, with
      nothing, a bare slash or a step after it. */
  ghost predicate Means(item: string, vs: set<int>, low: int, high: int) {
    || Plain(item, vs, low, high)
    || (exists span :: item == span + "/" && Plain(span, vs, low, high))
    || (exists span, step, n :: item == span + "/" + step && Numeral(step, n) && Stepped(span, vs, n, low, high))
  }

  /** Item `i` is one of those and `v` among its values. */
  ghost predicate ItemHolds(items: seq<string>, i: int, v: int, low: int, high: int) {
    0 <= i < |items| && exists vs :: Means(items[i], vs, low, high) && v in vs
  }

  ghost predicate Meaningful(item: string, low: int, high: int) {
    exists vs :: Means(item, vs, low, high)
  }

  /** Every item means something, and `vs` is just what they mean. */
  ghost predicate FieldIs(items: seq<string>, vs: set<int>, low: int, high: int) {
    && (forall i :: 0 <= i < |items| ==> Meaningful(items[i], low, high))
    && (forall v :: v in vs <==> exists i :: ItemHolds(items, i, v, low, high))
  }

  // --- and that is what is parsed ---------------------------------------------------------

  lemma PartitionAt(before: string, c: char, after: string)
    requires c !in before
    ensures Partition(before + [c] + after, c) == (before, after)
  {
    var s := before + [c] + after;
    var i := IndexOf(s, c);
    assert s[|before|] == c;
    assert forall k :: 0 <= k < |before| ==> s[k] == before[k];
    assert i == |before|;
    assert s[..i] == before && s[i + 1..] == after;
  }

  lemma PartitionNone(s: string, c: char)
    requires c !in s
    ensures Partition(s, c) == (s, "")
  {
  }

  /** What was partitioned, put together again. */
  lemma PartitionJoins(s: string, c: char)
    ensures var (a, b) := Partition(s, c);
            c !in a && if c in s then s == a + [c] + b else a == s && b == ""
  {
    var i := IndexOf(s, c);
    if i < |s| {
      assert s == s[..i] + [s[i]] + s[i + 1..];
    }
  }

  lemma DigitsOnly(text: string, n: int, c: char)
    requires Numeral(text, n) && !Decimal.IsDigit(c)
    ensures c !in text
  {
  }

  /** No span has a slash in it. */
  lemma NoSlash(span: string, start: int, end: int, low: int, high: int)
    requires Spans(span, start, end, low, high) || Numeral(span, start)
    ensures '/' !in span
  {
  }

  lemma SpanRead(span: string, start: int, end: int, low: int, high: int)
    ensures Spans(span, start, end, low, high) <==>
            if span == "*" then start == low && end == high
            else '-' in span && Numeral(Partition(span, '-').0, start) && Numeral(Partition(span, '-').1, end)
  {
    PartitionJoins(span, '-');
    if from, to :| span == from + "-" + to && Numeral(from, start) && Numeral(to, end) {
      DigitsOnly(from, start, '-');
      PartitionAt(from, '-', to);
    }
  }

  /** Where an item's span starts and ends, in the field or not. */
  ghost predicate GoesFrom(item: string, start: int, end: int, low: int, high: int) {
    var (span, step) := Partition(item, '/');
    Spans(span, start, end, low, high) || (Numeral(span, start) && end == if step != "" then high else start)
  }

  lemma BoundsRead(item: string, low: int, high: int, start: int, end: int)
    ensures Bounds(item, low, high) == Ok((start, end)) <==> GoesFrom(item, start, end, low, high)
  {
    SpanRead(Partition(item, '/').0, start, end, low, high);
  }

  lemma StepRead(item: string, n: int)
    ensures Step(item) == Ok(n) <==>
            n >= 1 && if Partition(item, '/').1 == "" then n == 1 else Numeral(Partition(item, '/').1, n)
  {
  }

  lemma EveryIsValues(vs: set<int>, start: int, end: int, step: int, low: int, high: int)
    ensures Every(vs, start, end, step, low, high) <==>
            low <= start <= end <= high && step >= 1 && vs == Values(Span(start, end, step))
  {
    if step >= 1 {
      var s := Span(start, end, step);
      forall v ensures v <= end && (exists k: nat :: v == start + k * step) <==> s.Holds(v) {
        if s.Holds(v) {
          assert v == start + (v - start) / step * step;
        }
        if k: nat :| v == start + k * step {
          assert (v - start) % step == 0 by { MultipleOf(k, step); }
        }
      }
    }
  }

  lemma MultipleOf(k: nat, n: int)
    requires n >= 1
    ensures k * n >= 0 && k * n % n == 0
  {
    var x := k * n;
    var d := k - x / n;
    assert d * n == x % n;
    Times(d, n);
  }

  lemma Times(d: int, n: int)
    requires n >= 1
    ensures (d >= 1 ==> d * n >= n) && (d <= -1 ==> d * n <= -n)
  {
  }

  /** What an item means is what it is parsed to, and it means nothing when it is not. */
  lemma ItemMeans(item: string, low: int, high: int)
    ensures forall vs :: Means(item, vs, low, high) <==>
              ParseItem(item, low, high).Ok? && vs == Values(ParseItem(item, low, high).value)
  {
    forall vs ensures Means(item, vs, low, high) <==> ParseItem(item, low, high).Ok? && vs == Values(ParseItem(item, low, high).value) {
      if Means(item, vs, low, high) {
        MeaningIsParsed(item, vs, low, high);
      }
      if ParseItem(item, low, high).Ok? {
        ParsedIsMeant(item, low, high);
      }
    }
  }

  /** A meaning by the parts of an item. */
  lemma MeaningIsRead(item: string, vs: set<int>, low: int, high: int) returns (start: int, end: int, n: int)
    requires Means(item, vs, low, high)
    ensures Bounds(item, low, high) == Ok((start, end)) && Step(item) == Ok(n) && Every(vs, start, end, n, low, high)
  {
    if Plain(item, vs, low, high) {
      start, end := PlainIsRead(item, item, vs, low, high);
      n := 1;
    } else if span :| item == span + "/" && Plain(span, vs, low, high) {
      start, end := PlainIsRead(item, span, vs, low, high);
      n := 1;
    } else {
      var span, step, m :| item == span + "/" + step && Numeral(step, m) && Stepped(span, vs, m, low, high);
      n := m;
      if st, en :| Spans(span, st, en, low, high) && Every(vs, st, en, n, low, high) {
        start, end := st, en;
      } else {
        var a :| Numeral(span, a) && Every(vs, a, high, n, low, high);
        start, end := a, high;
      }
      NoSlash(span, start, end, low, high);
      PartitionAt(span, '/', step);
    }
    BoundsRead(item, low, high, start, end);
    StepRead(item, n);
  }

  lemma PlainIsRead(item: string, span: string, vs: set<int>, low: int, high: int) returns (start: int, end: int)
    requires Plain(span, vs, low, high) && (item == span || item == span + "/")
    ensures Partition(item, '/') == (span, "") && Every(vs, start, end, 1, low, high)
    ensures Spans(span, start, end, low, high) || (Numeral(span, start) && end == start)
  {
    if st, en :| Spans(span, st, en, low, high) && Every(vs, st, en, 1, low, high) {
      start, end := st, en;
    } else {
      var a :| Numeral(span, a) && Every(vs, a, a, 1, low, high);
      start, end := a, a;
    }
    NoSlash(span, start, end, low, high);
    if item == span {
      PartitionNone(item, '/');
    } else {
      PartitionAt(span, '/', "");
      assert item == span + "/" + "";
    }
  }

  lemma MeaningIsParsed(item: string, vs: set<int>, low: int, high: int)
    requires Means(item, vs, low, high)
    ensures ParseItem(item, low, high).Ok? && vs == Values(ParseItem(item, low, high).value)
  {
    var start, end, n := MeaningIsRead(item, vs, low, high);
    EveryIsValues(vs, start, end, n, low, high);
  }

  lemma ParsedIsMeant(item: string, low: int, high: int)
    requires ParseItem(item, low, high).Ok?
    ensures Means(item, Values(ParseItem(item, low, high).value), low, high)
  {
    var Span(start, end, n) := ParseItem(item, low, high).value;
    var vs := Values(Span(start, end, n));
    var (span, step) := Partition(item, '/');
    BoundsRead(item, low, high, start, end);
    StepRead(item, n);
    EveryIsValues(vs, start, end, n, low, high);
    PartitionJoins(item, '/');
    if step == "" {
      assert Plain(span, vs, low, high);
      assert '/' in item ==> item == span + "/";
    } else {
      assert item == span + "/" + step && Stepped(span, vs, n, low, high);
    }
  }

  lemma ShapeIs(item: string, start: int, end: int, n: int, low: int, high: int)
    requires low <= start <= end <= high && n >= 1
    requires forall vs :: Every(vs, start, end, n, low, high) ==> Means(item, vs, low, high)
    ensures forall vs :: Means(item, vs, low, high) <==> Every(vs, start, end, n, low, high)
  {
    ItemMeans(item, low, high);
    forall vs ensures Every(vs, start, end, n, low, high) <==> vs == Values(Span(start, end, n)) {
      EveryIsValues(vs, start, end, n, low, high);
    }
    assert Means(item, Values(Span(start, end, n)), low, high);
  }

  /** Each shape, for numbers in range: `*` is all of the field and `*` + "/n" every n-th of
      it, `a` that number, `a-b` those from one to the other, and `a-b/n` and `a/n` every
      n-th of those and of what follows `a`. */
  lemma ShapesMean(from: string, a: int, to: string, b: int, step: string, n: int, low: int, high: int)
    requires Numeral(from, a) && Numeral(to, b) && Numeral(step, n) && low <= a <= b <= high && n >= 1
    ensures forall vs :: Means("*", vs, low, high) <==> Every(vs, low, high, 1, low, high)
    ensures forall vs :: Means("*/" + step, vs, low, high) <==> Every(vs, low, high, n, low, high)
    ensures forall vs :: Means(from, vs, low, high) <==> vs == {a}
    ensures forall vs :: Means(from + "-" + to, vs, low, high) <==> Every(vs, a, b, 1, low, high)
    ensures forall vs :: Means(from + "-" + to + "/" + step, vs, low, high) <==> Every(vs, a, b, n, low, high)
    ensures forall vs :: Means(from + "/" + step, vs, low, high) <==> Every(vs, a, high, n, low, high)
  {
    assert Spans("*", low, high, low, high) && Spans(from + "-" + to, a, b, low, high);
    assert "*/" + step == "*" + "/" + step;
    ShapeIs("*", low, high, 1, low, high);
    ShapeIs("*/" + step, low, high, n, low, high);
    ShapeIs(from, a, a, 1, low, high);
    ShapeIs(from + "-" + to, a, b, 1, low, high);
    ShapeIs(from + "-" + to + "/" + step, a, b, n, low, high);
    ShapeIs(from + "/" + step, a, high, n, low, high);
    forall vs ensures Every(vs, a, a, 1, low, high) <==> vs == {a} {
      EveryIsValues(vs, a, a, 1, low, high);
      assert Values(Span(a, a, 1)) == {a};
    }
  }

  /** `item` has `text` in it, `i` characters from its start. */
  predicate HasAt(item: string, text: string, i: nat) {
    i + |text| <= |item| && item[i..i + |text|] == text
  }

  ghost predicate Within(text: string, item: string) {
    exists i: nat :: HasAt(item, text, i)
  }

  /** What is wrong with an item that means nothing: a text where a number should be, a
      step of 0, or numbers that are not in order within the field. */
  ghost predicate Wrong(item: string, e: Why, low: int, high: int) {
    match e
    case NotANumber(text) => !Decimal.IsNumeral(text) && Within(text, item)
    case BadStep(i) => i == item && exists span, step :: '/' !in span && item == span + "/" + step && Numeral(step, 0)
    case OutOfRange(i) =>
      i == item && exists start, end :: GoesFrom(item, start, end, low, high) && !(low <= start <= end <= high)
    case FieldCount(_) => false
  }

  /** Item `i` is the first that means nothing, and `e` says what is wrong with it. */
  ghost predicate FirstWrong(items: seq<string>, i: int, e: Why, low: int, high: int) {
    && 0 <= i < |items| && ParseItem(items[i], low, high) == Err(e)
    && !Meaningful(items[i], low, high) && Wrong(items[i], e, low, high)
    && forall j :: 0 <= j < i ==> Meaningful(items[j], low, high)
  }

  /** A part of a text is in it. */
  lemma PartIn(item: string, c: char)
    ensures Within(Partition(item, c).0, item) && Within(Partition(item, c).1, item)
  {
    var i := IndexOf(item, c);
    assert HasAt(item, Partition(item, c).0, 0);
    assert HasAt(item, Partition(item, c).1, if i < |item| then i + 1 else 0);
  }

  lemma WithinWithin(part: string, mid: string, item: string)
    requires Within(part, mid) && Within(mid, item)
    ensures Within(part, item)
  {
    var i: nat :| HasAt(mid, part, i);
    var j: nat :| HasAt(item, mid, j);
    forall k | 0 <= k < |part| ensures item[j + i + k] == part[k] {
      assert part[k] == mid[i..i + |part|][k] && mid[i + k] == item[j..j + |mid|][i + k];
    }
    assert HasAt(item, part, j + i);
  }

  lemma StepWrong(item: string, low: int, high: int)
    requires Step(item).Err?
    ensures Wrong(item, Step(item).error, low, high)
  {
    PartitionJoins(item, '/');
    PartIn(item, '/');
    var (span, step) := Partition(item, '/');
    if Number(step).Ok? {
      assert item == span + "/" + step && Numeral(step, 0);
    }
  }

  lemma BoundsWrong(item: string, low: int, high: int)
    requires Bounds(item, low, high).Err?
    ensures Wrong(item, Bounds(item, low, high).error, low, high)
  {
    var span := Partition(item, '/').0;
    PartIn(item, '/');
    PartIn(span, '-');
    WithinWithin(Partition(span, '-').0, span, item);
    WithinWithin(Partition(span, '-').1, span, item);
  }

  lemma ErrorMeans(item: string, low: int, high: int)
    requires ParseItem(item, low, high).Err?
    ensures Wrong(item, ParseItem(item, low, high).error, low, high)
  {
    if Step(item).Err? {
      StepWrong(item, low, high);
    } else if Bounds(item, low, high).Err? {
      BoundsWrong(item, low, high);
    } else {
      var (start, end) := Bounds(item, low, high).value;
      BoundsRead(item, low, high, start, end);
      assert GoesFrom(item, start, end, low, high);
    }
  }

  ghost predicate FieldFine(text: string, low: int, high: int) {
    exists vs :: FieldIs(Split(text, ','), vs, low, high)
  }

  /** `e` says what is wrong with the field's first wrong item. */
  ghost predicate FieldWrong(text: string, e: Why, low: int, high: int) {
    exists i :: FirstWrong(Split(text, ','), i, e, low, high)
  }

  /** The first `k` items are gone through, and `values` are theirs. */
  ghost predicate Through(items: seq<string>, k: nat, values: set<int>, low: int, high: int)
    requires k <= |items|
  {
    && FieldIs(items[..k], values, low, high)
    && (forall v :: v in values ==> low <= v <= high) && (k > 0 ==> values != {})
  }

  lemma ThroughMore(items: seq<string>, k: nat, values: set<int>, low: int, high: int)
    requires k < |items| && Through(items, k, values, low, high) && ParseItem(items[k], low, high).Ok?
    ensures Through(items, k + 1, values + Values(ParseItem(items[k], low, high).value), low, high)
  {
    SpanNotEmpty(items[k], low, high);
    FieldGrows(items, k, values, low, high);
  }

  lemma ThroughAll(text: string, items: seq<string>, values: set<int>, low: int, high: int)
    requires items == Split(text, ',') && Through(items, |items|, values, low, high)
    ensures FieldIs(items, values, low, high) && InRange(values, low, high) && FieldFine(text, low, high)
  {
    assert items[..|items|] == items;
  }

  lemma StopsAt(text: string, items: seq<string>, k: nat, values: set<int>, low: int, high: int)
    requires items == Split(text, ',') && k < |items| && Through(items, k, values, low, high)
    requires ParseItem(items[k], low, high).Err?
    ensures FieldWrong(text, ParseItem(items[k], low, high).error, low, high)
  {
    ErrorMeans(items[k], low, high);
    ItemMeans(items[k], low, high);
    forall j | 0 <= j < k ensures Meaningful(items[j], low, high) {
      assert Meaningful(items[..k][j], low, high);
    }
    assert FirstWrong(items, k, ParseItem(items[k], low, high).error, low, high);
  }

  /** A field of one item is what the item means. */
  lemma OneItem(text: string, vs: set<int>, values: set<int>, low: int, high: int)
    requires ',' !in text && Means(text, vs, low, high) && FieldIs(Split(text, ','), values, low, high)
    ensures values == vs
  {
    var items := Split(text, ',');
    assert items == [text];
    ItemMeans(text, low, high);
    forall v ensures v in values <==> v in vs {
      if v in vs { assert ItemHolds(items, 0, v, low, high); }
    }
  }

  /** The loop of _parse_field: the values of all items, or what is wrong with the first
      that means nothing. */
  method ParseField(text: string, low: int, high: int) returns (r: Parsed<set<int>>)
    ensures r.Ok? ==> FieldIs(Split(text, ','), r.value, low, high) && InRange(r.value, low, high)
    ensures if r.Ok? then FieldFine(text, low, high) else FieldWrong(text, r.error, low, high)
    ensures r.Ok? <==> forall item :: item in Split(text, ',') ==> Meaningful(item, low, high)
    ensures ',' !in text ==> forall vs :: Means(text, vs, low, high) <==> r == Ok(vs)
  {
    var items := Split(text, ',');
    var values: set<int> := {};
    for k := 0 to |items|
      invariant Through(items, k, values, low, high)
    {
      match ParseItem(items[k], low, high)
      case Err(e) =>
        StopsAt(text, items, k, values, low, high);
        FieldMeans(text, Err(e), low, high);
        return Err(e);
      case Ok(span) =>
        ThroughMore(items, k, values, low, high);
        values := values + Values(span);
    }
    ThroughAll(text, items, values, low, high);
    r := Ok(values);
    FieldMeans(text, r, low, high);
  }

  /** Whether a field is read, and what a field of one item is read as. */
  lemma FieldMeans(text: string, r: Parsed<set<int>>, low: int, high: int)
    requires if r.Ok? then FieldIs(Split(text, ','), r.value, low, high) else FieldWrong(text, r.error, low, high)
    ensures r.Ok? <==> forall item :: item in Split(text, ',') ==> Meaningful(item, low, high)
    ensures ',' !in text ==> forall vs :: Means(text, vs, low, high) <==> r == Ok(vs)
  {
    var items := Split(text, ',');
    if r.Err? {
      var i :| FirstWrong(items, i, r.error, low, high);
      assert items[i] in items;
    }
    if ',' !in text {
      assert items == [text];
      ItemMeans(text, low, high);
      if r.Ok? {
        assert Meaningful(items[0], low, high);
        OneItem(text, Values(ParseItem(text, low, high).value), r.value, low, high);
      }
    }
  }

  lemma FieldGrows(items: seq<string>, k: nat, vs: set<int>, low: int, high: int)
    requires k < |items| && FieldIs(items[..k], vs, low, high) && ParseItem(items[k], low, high).Ok?
    ensures FieldIs(items[..k + 1], vs + Values(ParseItem(items[k], low, high).value), low, high)
  {
    var mine := Values(ParseItem(items[k], low, high).value);
    var all, before, now_ := vs + mine, items[..k], items[..k + 1];
    assert now_ == before + [items[k]];
    ItemMeans(items[k], low, high);
    assert Means(items[k], mine, low, high);
    forall v ensures v in all <==> exists i :: ItemHolds(now_, i, v, low, high) {
      if v in vs {
        var i :| ItemHolds(before, i, v, low, high);
        assert ItemHolds(now_, i, v, low, high);
      } else if v in mine {
        assert ItemHolds(now_, k, v, low, high);
      }
      if i :| ItemHolds(now_, i, v, low, high) {
        if i < k { assert ItemHolds(before, i, v, low, high); }
      }
    }
    forall i | 0 <= i < |now_| ensures Meaningful(now_[i], low, high) {
      if i < k { assert Meaningful(before[i], low, high); }
    }
  }

  /** 7 is Sunday too. */
  function Weekdays(values: set<int>): set<int> {
    set d | d in values :: if d == 7 then 0 else d
  }

  lemma WeekdaysInRange(values: set<int>)
    requires InRange(values, 0, 7)
    ensures InRange(Weekdays(values), 0, 6)
    ensures forall d :: 0 <= d <= 6 ==> (d in Weekdays(values) <==> d in values || (d == 0 && 7 in values))
  {
    var d := Member(values, 0, 7);
    assert (if d == 7 then 0 else d) in Weekdays(values);
    if 7 in values { assert 0 in Weekdays(values); }
    forall e | 0 <= e <= 6 && e in values ensures e in Weekdays(values) {
      assert e == if e == 7 then 0 else e;
    }
  }

  /** The five fields of a schedule and the values of each. */
  ghost predicate Reads(parts: seq<string>, s: CronSchedule) {
    && |parts| == 5
    && FieldIs(Split(parts[0], ','), s.minutes, 0, 59)
    && FieldIs(Split(parts[1], ','), s.hours, 0, 23)
    && FieldIs(Split(parts[2], ','), s.days, 1, 31)
    && FieldIs(Split(parts[3], ','), s.months, 1, 12)
    && (exists values :: FieldIs(Split(parts[4], ','), values, 0, 7) && s.weekdays == Weekdays(values))
    && s.anyDay == (parts[2] == "*") && s.anyWeekday == (parts[4] == "*")
  }

  function Low(k: nat): int { if k == 2 || k == 3 then 1 else 0 }

  function High(k: nat): int {
    if k == 0 then 59 else if k == 1 then 23 else if k == 2 then 31 else if k == 3 then 12 else 7
  }

  /** Field `k` is the first with a wrong item, and `e` is about that one. */
  ghost predicate WrongField(parts: seq<string>, k: nat, e: Why) {
    k < |parts| && FieldWrong(parts[k], e, Low(k), High(k)) && forall j :: 0 <= j < k ==> FieldFine(parts[j], Low(j), High(j))
  }

  /** CronSchedule.parse. What it yields has no empty field and no value out of range; it
      fails for the number of fields, or else for the first wrong item there is. */
  method Parse(text: string) returns (r: Parsed<CronSchedule>)
    ensures r.Ok? ==> WellFormed(r.value) && Reads(PythonFields(text), r.value)
    ensures |PythonFields(text)| != 5 ==> r == Err(FieldCount(|PythonFields(text)|))
    ensures |PythonFields(text)| == 5 && r.Err? ==> exists k :: WrongField(PythonFields(text), k, r.error)
  {
    var parts := PythonFields(text);
    if |parts| != 5 {
      return Err(FieldCount(|parts|));
    }
    var minutes := ParseField(parts[0], 0, 59);
    if minutes.Err? {
      assert WrongField(parts, 0, minutes.error);
      return Err(minutes.error);
    }
    var hours := ParseField(parts[1], 0, 23);
    if hours.Err? {
      assert WrongField(parts, 1, hours.error);
      return Err(hours.error);
    }
    var days := ParseField(parts[2], 1, 31);
    if days.Err? {
      assert WrongField(parts, 2, days.error);
      return Err(days.error);
    }
    var months := ParseField(parts[3], 1, 12);
    if months.Err? {
      assert WrongField(parts, 3, months.error);
      return Err(months.error);
    }
    var weekdays := ParseField(parts[4], 0, 7);
    if weekdays.Err? {
      assert WrongField(parts, 4, weekdays.error);
      return Err(weekdays.error);
    }
    WeekdaysInRange(weekdays.value);
    r := Ok(CronSchedule(minutes.value, hours.value, days.value, months.value, Weekdays(weekdays.value),
                           parts[2] == "*", parts[4] == "*"));
  }
}
