/** What was written to an app store since its app last loaded or started, and when
    compaction keeps that answer (kelso/lib/observations.py, kelso/lib/logtab.py). */
module ChangesSinceStart {
  import opened Wrappers
  import opened Orders
  import opened LogTable
  import opened LogObject

  const LOADED_AT: string := "meta/loaded_at"
  const STARTED_AT: string := "meta/started_at"

  /** A load or a start applies every change before it. */
  predicate Applied(key: string) { key == LOADED_AT || key == STARTED_AT }

  predicate RouteKey(key: string) { "config/subdomain" <= key || "routes/" <= key }

  predicate ConfigKey(key: string) { "config/" <= key || "binds/" <= key }

  /** Which keys a start applies: a route key is the subdomain's or under routes/, a config
      key any under config/ or binds/. */
  lemma KeysMean(key: string)
    ensures RouteKey(key) <==> exists rest :: key == "config/subdomain" + rest || key == "routes/" + rest
    ensures ConfigKey(key) <==> exists rest :: key == "config/" + rest || key == "binds/" + rest
    ensures Applied(key) <==> key == "meta/" + "loaded_at" || key == "meta/" + "started_at"
  {
    StartsWith(key, "config/subdomain");
    StartsWith(key, "routes/");
    StartsWith(key, "config/");
    StartsWith(key, "binds/");
  }

  lemma StartsWith(key: string, prefix: string)
    ensures prefix <= key <==> exists rest :: key == prefix + rest
  {
    if prefix <= key { assert key == prefix + key[|prefix|..]; }
  }

  datatype Flags = Flags(config: bool, routes: bool)

  /** What one record of the history does to the flags. */
  function Seen<V>(f: Flags, r: Record<V>, rekeyed: V -> bool): Flags {
    if r.op != Set then f
    else if Applied(r.key) then Flags(false, false)
    else if rekeyed(r.value) then f
    else if RouteKey(r.key) then f.(routes := true)
    else if ConfigKey(r.key) then f.(config := true)
    else f
  }

  function Changes<V>(rs: seq<Record<V>>, rekeyed: V -> bool): Flags {
    if rs == [] then Flags(false, false)
    else Seen(Changes(rs[..|rs| - 1], rekeyed), rs[|rs| - 1], rekeyed)
  }

  /** The loop of changes_since_start. */
  method ChangesSince<V>(log: LogTab<V>, rekeyed: V -> bool) returns (f: Flags)
    ensures f == Changes(log.records, rekeyed)
  {
    var all := log.History("", "");
    var history := all.value;
    f := Flags(false, false);
    for i := 0 to |history|
      invariant f == Changes(history[..i], rekeyed)
    {
      assert history[..i + 1][..i] == history[..i];
      var r := history[i];
      HistorySets(log.records, r);
      if Applied(r.key) {
        f := Flags(false, false);
      } else if rekeyed(r.value) {
      } else if RouteKey(r.key) {
        f := f.(routes := true);
      } else if ConfigKey(r.key) {
        f := f.(config := true);
      }
    }
    assert history[..|history|] == history;
    HistoryIsEnough(log.records, rekeyed);
  }

  lemma {:induction false} HistorySets<V>(rs: seq<Record<V>>, r: Record<V>)
    requires r in Matching(rs, "", "")
    ensures r.op == Set
  {
    if r in Matching(rs[..|rs| - 1], "", "") {
      HistorySets(rs[..|rs| - 1], r);
    }
  }

  lemma {:induction false} HistoryIsEnough<V>(rs: seq<Record<V>>, rekeyed: V -> bool)
    ensures Changes(Matching(rs, "", ""), rekeyed) == Changes(rs, rekeyed)
  {
    if rs != [] {
      var front, r := rs[..|rs| - 1], rs[|rs| - 1];
      HistoryIsEnough(front, rekeyed);
      if r.op == Set {
        assert "" <= r.key && r.key[|r.key|..] == "";
        var m := Matching(front, "", "");
        assert (m + [r])[..|m + [r]| - 1] == m;
      } else {
        assert Matching(rs, "", "") == Matching(front, "", "");
      }
    }
  }

  // --- what the flags mean --------------------------------------------------------------

  /** A record that sets one flag: `routes` says which. */
  predicate Raises<V>(r: Record<V>, routes: bool, rekeyed: V -> bool) {
    && r.op == Set && !Applied(r.key) && !rekeyed(r.value)
    && if routes then RouteKey(r.key) else ConfigKey(r.key) && !RouteKey(r.key)
  }

  function Flag(f: Flags, routes: bool): bool {
    if routes then f.routes else f.config
  }

  predicate Applies<V>(r: Record<V>) { r.op == Set && Applied(r.key) }

  /** Record `i` raises a flag and nothing after it is a load or a start. */
  predicate Outstanding<V>(rs: seq<Record<V>>, i: int, routes: bool, rekeyed: V -> bool) {
    0 <= i < |rs| && Raises(rs[i], routes, rekeyed) && Quiet(rs, i)
  }

  /** No load or start after record `i`. */
  predicate Quiet<V>(rs: seq<Record<V>>, i: int)
    requires 0 <= i < |rs|
  {
    forall j :: i < j < |rs| ==> !Applies(rs[j])
  }

  /** A flag is up exactly when some record that raises it is outstanding. */
  lemma {:induction false} FlagMeans<V>(rs: seq<Record<V>>, routes: bool, rekeyed: V -> bool)
    ensures Flag(Changes(rs, rekeyed), routes) <==> exists i :: Outstanding(rs, i, routes, rekeyed)
  {
    if rs != [] {
      var front, n := rs[..|rs| - 1], |rs| - 1;
      FlagMeans(front, routes, rekeyed);
      if Raises(rs[n], routes, rekeyed) {
        assert Outstanding(rs, n, routes, rekeyed);
      } else if Applies(rs[n]) {
        forall i ensures !Outstanding(rs, i, routes, rekeyed) {
        }
      } else {
        if i :| Outstanding(front, i, routes, rekeyed) {
          assert Outstanding(rs, i, routes, rekeyed);
        }
        if i :| Outstanding(rs, i, routes, rekeyed) {
          assert Outstanding(front, i, routes, rekeyed);
        }
      }
    }
  }

  // --- compaction -------------------------------------------------------------------------

  predicate SetOnly<V>(rs: seq<Record<V>>) {
    forall i :: 0 <= i < |rs| ==> rs[i].op == Set
  }

  predicate NoRekeys<V>(rs: seq<Record<V>>, rekeyed: V -> bool) {
    forall i :: 0 <= i < |rs| ==> !rekeyed(rs[i].value)
  }

  predicate Earlier(a: string, b: string) { LexLeq(a, b) && a != b }

  /** Changes and loads or starts carry timestamps in the order they were written, and
      never the same one. */
  predicate Separated<V>(rs: seq<Record<V>>) {
    forall i, j :: 0 <= i < j < |rs| && Applied(rs[i].key) != Applied(rs[j].key) ==> Earlier(rs[i].ts, rs[j].ts)
  }

  predicate StrictlyTimed<V>(rs: seq<Record<V>>) {
    forall i, j :: 0 <= i < j < |rs| ==> Earlier(rs[i].ts, rs[j].ts)
  }

  /** `i` is where a key was last set. */
  predicate LastSet<V>(rs: seq<Record<V>>, i: int) {
    0 <= i < |rs| && rs[i].op == Set && forall j :: i < j < |rs| ==> rs[j].key != rs[i].key
  }

  lemma {:induction false} LastOf<V>(rs: seq<Record<V>>, i: nat) returns (j: nat)
    requires SetOnly(rs) && i < |rs|
    ensures i <= j < |rs| && rs[j].key == rs[i].key && LastSet(rs, j)
    decreases |rs| - i
  {
    if k :| i < k < |rs| && rs[k].key == rs[i].key {
      j := LastOf(rs, k);
    } else {
      j := i;
    }
  }

  /** In a log of sets the table holds what each key was last set to. */
  lemma {:induction false} TableIsLastSets<V>(rs: seq<Record<V>>, i: nat)
    requires SetOnly(rs) && LastSet(rs, i)
    ensures Get(Load(rs), rs[i].key) == Some(Entry(rs[i].ts, rs[i].value))
    decreases |rs|
  {
    var front, r := rs[..|rs| - 1], rs[|rs| - 1];
    assert rs == front + [r];
    LoadAppend(front, r);
    if i < |front| {
      TableIsLastSets(front, i);
      assert r.key != rs[i].key;
    }
  }

  lemma {:induction false} TableEntryWasSet<V>(rs: seq<Record<V>>, k: string) returns (i: nat)
    requires SetOnly(rs) && k in Load(rs)
    ensures i < |rs| && rs[i].key == k && LastSet(rs, i)
    decreases |rs|
  {
    var front, r := rs[..|rs| - 1], rs[|rs| - 1];
    assert rs == front + [r];
    LoadAppend(front, r);
    if r.key == k {
      i := |rs| - 1;
    } else {
      i := TableEntryWasSet(front, k);
    }
  }

  /** The backfill of a compaction: it is sorted, and holds exactly the last sets whose
      key the tail does not name. */
  lemma BackfillOfSets<V>(rs: seq<Record<V>>, history: nat, i: nat) returns (p: nat)
    requires SetOnly(rs) && history <= |rs| && LastSet(rs, i) && i < |rs| - history
    ensures var c := Compacted(rs, history); p < |c| - history && c[p] == rs[i]
  {
    var tail := Tail(rs, history);
    var t := Load(rs) - Keys(tail);
    TableIsLastSets(rs, i);
    assert rs[i].key !in Keys(tail);
    var place := (rs[i].ts, rs[i].key);
    InPlaces(t, place);
    assert place in SortedPlaces(t);
    p :| 0 <= p < |SortedPlaces(t)| && SortedPlaces(t)[p] == place;
    BackfillSize(t);
    assert Backfill(t)[p] == rs[i];
  }

  lemma BackfillComesFrom<V>(rs: seq<Record<V>>, history: nat, p: nat) returns (i: nat)
    requires SetOnly(rs) && history <= |rs| && p < |Compacted(rs, history)| - history
    ensures i < |rs| - history && rs[i] == Compacted(rs, history)[p] && LastSet(rs, i)
  {
    var c := Compacted(rs, history);
    CompactShape(rs, history);
    var tail := Tail(rs, history);
    i := TableEntryWasSet(rs, c[p].key);
    TableIsLastSets(rs, i);
    if i >= |rs| - history {
      assert tail[i - (|rs| - history)].key == c[p].key;
      BackfillAvoidsTail(rs, history, p);
    }
  }

  lemma BackfillAvoidsTail<V>(rs: seq<Record<V>>, history: nat, p: nat)
    requires history <= |rs| && p < |Compacted(rs, history)| - history
    ensures Compacted(rs, history)[p].key !in Keys(Tail(rs, history))
  {
    var t := Load(rs) - Keys(Tail(rs, history));
    var ps := SortedPlaces(t);
    assert Compacted(rs, history)[p] == Backfill(t)[p];
    assert ps[p] in ps;
    InPlaces(t, ps[p]);
  }

  /** A record's place comes strictly before another's. */
  predicate PlacedBefore<V>(a: Record<V>, b: Record<V>) {
    PlaceLeq((a.ts, a.key), (b.ts, b.key)) && a.key != b.key
  }

  lemma BackfillOrder<V>(rs: seq<Record<V>>, history: nat, p: nat, q: nat)
    requires history <= |rs| && p < q < |Compacted(rs, history)| - history
    ensures PlacedBefore(Compacted(rs, history)[p], Compacted(rs, history)[q])
    ensures !PlacedBefore(Compacted(rs, history)[q], Compacted(rs, history)[p])
  {
    var t := Load(rs) - Keys(Tail(rs, history));
    var ps, b := SortedPlaces(t), Backfill(t);
    assert Compacted(rs, history)[p] == b[p] && Compacted(rs, history)[q] == b[q];
    assert ps[p] in ps && ps[q] in ps;
    InPlaces(t, ps[p]);
    InPlaces(t, ps[q]);
    PlaceIsTotalOrder();
    assert PlaceLeq(ps[p], ps[q]) && ps[p] != ps[q];
  }

  /** The records compaction keeps: the tail, and each key's last set. */
  predicate Survives<V>(rs: seq<Record<V>>, history: nat, i: int) {
    0 <= i < |rs| && (i >= |rs| - history || LastSet(rs, i))
  }

  /** Whether kept record `j` comes after kept record `i` in the compacted log. */
  predicate EndsUpAfter<V>(rs: seq<Record<V>>, history: nat, j: int, i: int)
    requires 0 <= i < |rs| && 0 <= j < |rs|
  {
    if j >= |rs| - history then i < j
    else i < |rs| - history && PlacedBefore(rs[i], rs[j])
  }

  /** The tail of the compacted log is the tail of the log. */
  lemma TailAt<V>(rs: seq<Record<V>>, history: nat, k: nat)
    requires k < history <= |rs|
    ensures history <= |Compacted(rs, history)|
    ensures Compacted(rs, history)[|Compacted(rs, history)| - history + k] == rs[|rs| - history + k]
  {
    CompactShape(rs, history);
    assert Tail(Compacted(rs, history), history)[k] == Tail(rs, history)[k];
  }

  /** Record `i` of the log and record `p` of the compacted one are the same, in the
      same part of the log. */
  ghost predicate Twins<V>(rs: seq<Record<V>>, history: nat, i: int, p: int) {
    var c := Compacted(rs, history);
    && history <= |rs| && history <= |c| && 0 <= i < |rs| && 0 <= p < |c| && c[p] == rs[i]
    && (if i < |rs| - history then p < |c| - history else p - (|c| - history) == i - (|rs| - history))
  }

  /** Every kept record is found after compaction, */
  lemma WhereAfter<V>(rs: seq<Record<V>>, history: nat, i: nat) returns (p: nat)
    requires SetOnly(rs) && history <= |rs| && Survives(rs, history, i)
    ensures Twins(rs, history, i, p)
  {
    CompactShape(rs, history);
    if i < |rs| - history {
      p := BackfillOfSets(rs, history, i);
    } else {
      TailAt(rs, history, i - (|rs| - history));
      p := |Compacted(rs, history)| - history + (i - (|rs| - history));
    }
  }

  /** and every record found after is a kept one. */
  lemma WhereBefore<V>(rs: seq<Record<V>>, history: nat, p: nat) returns (i: nat)
    requires SetOnly(rs) && history <= |rs| && p < |Compacted(rs, history)|
    ensures Twins(rs, history, i, p) && Survives(rs, history, i)
  {
    CompactShape(rs, history);
    var b := |Compacted(rs, history)| - history;
    if p < b {
      i := BackfillComesFrom(rs, history, p);
    } else {
      TailAt(rs, history, p - b);
      i := |rs| - history + (p - b);
    }
  }

  lemma OrderIs<V>(rs: seq<Record<V>>, history: nat, i: nat, p: nat, j: nat, q: nat)
    requires Twins(rs, history, i, p) && Twins(rs, history, j, q)
    ensures p < q <==> EndsUpAfter(rs, history, j, i)
  {
    var b := |Compacted(rs, history)| - history;
    if p < b && q < b {
      if p < q { BackfillOrder(rs, history, p, q); }
      if q < p { BackfillOrder(rs, history, q, p); }
    }
  }

  /** A kept record that raises a flag, with no kept load or start after it once
      compacted. */
  ghost predicate Lasting<V>(rs: seq<Record<V>>, history: nat, i: int, routes: bool, rekeyed: V -> bool) {
    && Survives(rs, history, i) && Raises(rs[i], routes, rekeyed)
    && forall j :: Survives(rs, history, j) && Applied(rs[j].key) ==> !EndsUpAfter(rs, history, j, i)
  }

  /** What compaction makes of a flag, told from the log before it: the flag is up
      exactly when a kept record raises it and no kept load or start sorts after it. */
  lemma FlagAfterCompaction<V>(rs: seq<Record<V>>, history: nat, routes: bool, rekeyed: V -> bool)
    requires SetOnly(rs) && history <= |rs|
    ensures Flag(Changes(Compacted(rs, history), rekeyed), routes) <==> exists i :: Lasting(rs, history, i, routes, rekeyed)
  {
    var c := Compacted(rs, history);
    FlagMeans(c, routes, rekeyed);
    if p :| Outstanding(c, p, routes, rekeyed) {
      var i := WhereBefore(rs, history, p);
      forall j | Survives(rs, history, j) && Applied(rs[j].key) ensures !EndsUpAfter(rs, history, j, i) {
        var q := WhereAfter(rs, history, j);
        OrderIs(rs, history, i, p, j, q);
        assert c[q].op == Set;
        assert Applies(c[q]);
      }
      assert Lasting(rs, history, i, routes, rekeyed);
    }
    if i :| Lasting(rs, history, i, routes, rekeyed) {
      var p := WhereAfter(rs, history, i);
      forall q | p < q < |c| ensures !Applies(c[q]) {
        var j := WhereBefore(rs, history, q);
        OrderIs(rs, history, i, p, j, q);
      }
      assert Outstanding(c, p, routes, rekeyed);
    }
  }

  /** With separated timestamps a kept change and a kept load or start keep their order. */
  lemma SeparatedKeepsOrder<V>(rs: seq<Record<V>>, history: nat, i: nat, j: nat)
    requires Separated(rs) && i < |rs| && j < |rs| && Applied(rs[i].key) != Applied(rs[j].key)
    ensures EndsUpAfter(rs, history, j, i) <==> i < j
  {
    LexTotal(rs[i].ts, rs[j].ts);
    if j < i { LexTotal(rs[j].ts, rs[i].ts); }
  }

  /** Then a flag is up after compaction exactly when a kept record has it outstanding. */
  lemma SeparatedFlagAfter<V>(rs: seq<Record<V>>, history: nat, routes: bool, rekeyed: V -> bool)
    requires SetOnly(rs) && Separated(rs) && history <= |rs|
    ensures Flag(Changes(Compacted(rs, history), rekeyed), routes) <==>
            exists i :: Survives(rs, history, i) && Outstanding(rs, i, routes, rekeyed)
  {
    FlagAfterCompaction(rs, history, routes, rekeyed);
    if i :| Lasting(rs, history, i, routes, rekeyed) {
      forall j | i < j < |rs| ensures !Applies(rs[j]) {
        if Applies(rs[j]) {
          var last := LastOf(rs, j);
          SeparatedKeepsOrder(rs, history, i, last);
          assert Survives(rs, history, last);
        }
      }
      assert Outstanding(rs, i, routes, rekeyed);
    }
    if i :| Survives(rs, history, i) && Outstanding(rs, i, routes, rekeyed) {
      forall j | Survives(rs, history, j) && Applied(rs[j].key) ensures !EndsUpAfter(rs, history, j, i) {
        SeparatedKeepsOrder(rs, history, i, j);
        assert rs[j].op == Set;
      }
      assert Lasting(rs, history, i, routes, rekeyed);
    }
  }

  /** Compaction keeps a flag, in a log of sets where no change shares a timestamp with
      a load or a start, exactly when one of the records that have it outstanding is
      kept: in the tail, or its key's last. */
  lemma CompactKeepsFlagExactly<V>(rs: seq<Record<V>>, history: nat, routes: bool, rekeyed: V -> bool)
    requires SetOnly(rs) && Separated(rs) && history <= |rs|
    ensures Flag(Changes(Compacted(rs, history), rekeyed), routes) == Flag(Changes(rs, rekeyed), routes) <==>
            ((exists i :: Outstanding(rs, i, routes, rekeyed)) ==>
             exists i :: Survives(rs, history, i) && Outstanding(rs, i, routes, rekeyed))
  {
    SeparatedFlagAfter(rs, history, routes, rekeyed);
    FlagMeans(rs, routes, rekeyed);
  }

  /** So it keeps both flags when no secret was rekeyed. (App stores are only ever set.) */
  lemma CompactKeepsChanges<V>(rs: seq<Record<V>>, history: nat, rekeyed: V -> bool)
    requires SetOnly(rs) && Separated(rs) && NoRekeys(rs, rekeyed)
    ensures Changes(Compacted(rs, history), rekeyed) == Changes(rs, rekeyed)
  {
    if history <= |rs| {
      forall routes ensures Flag(Changes(Compacted(rs, history), rekeyed), routes) == Flag(Changes(rs, rekeyed), routes) {
        CompactKeepsFlagExactly(rs, history, routes, rekeyed);
        if i :| Outstanding(rs, i, routes, rekeyed) {
          var last := LastOf(rs, i);
          assert Survives(rs, history, last) && Outstanding(rs, last, routes, rekeyed);
        }
      }
      assert Flag(Changes(Compacted(rs, history), rekeyed), true) == Flag(Changes(rs, rekeyed), true);
      assert Flag(Changes(Compacted(rs, history), rekeyed), false) == Flag(Changes(rs, rekeyed), false);
    }
  }

  lemma StrictlyTimedIsSeparated<V>(rs: seq<Record<V>>)
    requires StrictlyTimed(rs)
    ensures Separated(rs)
  {
  }

  // --- compaction that keeps no history -------------------------------------------------------

  /** A live entry whose key raises a flag, sorted after every load and start. */
  ghost predicate Unapplied<V>(t: Table<V>, k: string, routes: bool, rekeyed: V -> bool) {
    && k in t && Raises(Record(t[k].ts, Set, k, t[k].value), routes, rekeyed)
    && forall j :: j in t && Applied(j) ==> PlaceLeq((t[j].ts, j), (t[k].ts, k))
  }

  lemma PlaceOf<V>(t: Table<V>, k: string) returns (p: nat)
    requires k in t
    ensures p < |SortedPlaces(t)| && SortedPlaces(t)[p] == (t[k].ts, k) && p < |Backfill(t)|
    ensures Backfill(t)[p] == Record(t[k].ts, Set, k, t[k].value)
  {
    InPlaces(t, (t[k].ts, k));
    assert (t[k].ts, k) in SortedPlaces(t);
    p :| 0 <= p < |SortedPlaces(t)| && SortedPlaces(t)[p] == (t[k].ts, k);
  }

  lemma EntryAt<V>(t: Table<V>, p: nat)
    requires p < |Backfill(t)|
    ensures p < |SortedPlaces(t)| && SortedPlaces(t)[p].1 in t && SortedPlaces(t)[p].0 == t[SortedPlaces(t)[p].1].ts
    ensures var k := SortedPlaces(t)[p].1; Backfill(t)[p] == Record(t[k].ts, Set, k, t[k].value)
  {
    InPlaces(t, SortedPlaces(t)[p]);
    assert SortedPlaces(t)[p] in SortedPlaces(t);
  }

  lemma StrictlyPlaced<V>(t: Table<V>, p: nat, q: nat)
    requires p < q < |SortedPlaces(t)|
    ensures PlaceLeq(SortedPlaces(t)[p], SortedPlaces(t)[q]) && !PlaceLeq(SortedPlaces(t)[q], SortedPlaces(t)[p])
  {
    PlaceIsTotalOrder();
    assert SortedPlaces(t)[p] != SortedPlaces(t)[q];
  }

  lemma QuietIsLast<V>(t: Table<V>, p: nat)
    requires p < |Backfill(t)| && !Applied(Backfill(t)[p].key)
    ensures var r := Backfill(t)[p];
            Quiet(Backfill(t), p) <==> forall j :: j in t && Applied(j) ==> PlaceLeq((t[j].ts, j), (r.ts, r.key))
  {
    var b := Backfill(t);
    var r := b[p];
    EntryAt(t, p);
    if Quiet(b, p) {
      forall j | j in t && Applied(j) ensures PlaceLeq((t[j].ts, j), (r.ts, r.key)) {
        var q := PlaceOf(t, j);
        assert Applies(b[q]);
        assert q < p;
        StrictlyPlaced(t, q, p);
      }
    }
    if forall j :: j in t && Applied(j) ==> PlaceLeq((t[j].ts, j), (r.ts, r.key)) {
      forall q | p < q < |b| ensures !Applies(b[q]) {
        EntryAt(t, q);
        StrictlyPlaced(t, p, q);
      }
    }
  }

  /** What a log compacted to its live entries says is outstanding: those sorted after every
      load and start. */
  lemma BackfillFlag<V>(t: Table<V>, routes: bool, rekeyed: V -> bool)
    ensures Flag(Changes(Backfill(t), rekeyed), routes) <==> exists k :: Unapplied(t, k, routes, rekeyed)
  {
    var b := Backfill(t);
    FlagMeans(b, routes, rekeyed);
    if i :| Outstanding(b, i, routes, rekeyed) {
      EntryAt(t, i);
      QuietIsLast(t, i);
      assert Unapplied(t, b[i].key, routes, rekeyed);
    }
    if k :| Unapplied(t, k, routes, rekeyed) {
      var p := PlaceOf(t, k);
      QuietIsLast(t, p);
      assert Outstanding(b, p, routes, rekeyed);
    }
  }

  lemma CompactedToNothing<V>(rs: seq<Record<V>>)
    ensures Compacted(rs, 0) == Backfill(Load(rs))
  {
    assert Tail(rs, 0) == [] && Load(rs) - Keys(Tail(rs, 0)) == Load(rs);
    assert Backfill(Load(rs)) + [] == Backfill(Load(rs));
  }

  lemma LaterIsPlacedAfter(a: string, b: string, j: string, k: string)
    requires Earlier(a, b)
    ensures PlaceLeq((a, j), (b, k)) && !PlaceLeq((b, k), (a, j))
  {
    LexTotal(a, b);
  }

  /** In a log of sets whose changes are separated in time from loads and starts, such an
      entry is a key's last set that is outstanding. */
  lemma UnappliedIsOutstanding<V>(rs: seq<Record<V>>, i: nat, routes: bool, rekeyed: V -> bool)
    requires SetOnly(rs) && Separated(rs) && LastSet(rs, i)
    ensures Unapplied(Load(rs), rs[i].key, routes, rekeyed) <==> Outstanding(rs, i, routes, rekeyed)
  {
    var t := Load(rs);
    TableIsLastSets(rs, i);
    if Unapplied(t, rs[i].key, routes, rekeyed) {
      forall j | i < j < |rs| ensures !Applies(rs[j]) {
        if Applies(rs[j]) {
          var last := LastOf(rs, j);
          TableIsLastSets(rs, last);
          LaterIsPlacedAfter(rs[i].ts, rs[last].ts, rs[i].key, rs[last].key);
        }
      }
    }
    if Outstanding(rs, i, routes, rekeyed) {
      forall k | k in t && Applied(k) ensures PlaceLeq((t[k].ts, k), (rs[i].ts, rs[i].key)) {
        var last := TableEntryWasSet(rs, k);
        TableIsLastSets(rs, last);
        assert last < i by { assert Applies(rs[last]); }
        LaterIsPlacedAfter(rs[last].ts, rs[i].ts, k, rs[i].key);
      }
    }
  }

  // --- both conditions are needed ---------------------------------------------------------

  const A_KEY: string := "config/a"

  lemma PlainConfigKey()
    ensures ConfigKey(A_KEY) && !RouteKey(A_KEY) && !Applied(A_KEY) && LexLeq(A_KEY, STARTED_AT)
  {
    assert A_KEY[0] == 'c' && STARTED_AT[0] == 'm' && LOADED_AT[0] == 'm';
    assert "config/" <= A_KEY by { assert A_KEY[..7] == "config/"; }
    assert |A_KEY| < |"config/subdomain"|;
    assert "routes/"[0] == 'r';
  }

  /** A change written in the same second as the start before it sorts before it, and
      is forgotten. */
  lemma SameSecondLosesChange() returns (rs: seq<Record<int>>)
    ensures SetOnly(rs) && NoRekeys(rs, v => false)
    ensures |rs| == 2 && rs[0].key == STARTED_AT && ConfigKey(rs[1].key) && rs[0].ts == rs[1].ts
    ensures Changes(rs, v => false).config && !Changes(Compacted(rs, 0), v => false).config
  {
    rs := [Record("1", Set, STARTED_AT, 0), Record("1", Set, A_KEY, 0)];
    var never: int -> bool := v => false;
    PlainConfigKey();
    FlagMeans(rs, false, never);
    assert Raises(rs[1], false, never);
    assert Outstanding(rs, 1, false, never);
    FlagAfterCompaction(rs, 0, false, never);
    assert PlacedBefore(rs[1], rs[0]);
    assert Survives(rs, 0, 0) && EndsUpAfter(rs, 0, 0, 1);
    forall i ensures !Lasting(rs, 0, i, false, never) {
      if i == 1 { assert !Lasting(rs, 0, 1, false, never); }
    }
  }

  /** A pending secret that is then rekeyed is no longer pending once compacted. */
  lemma RekeyThenCompactLosesChange() returns (rs: seq<Record<bool>>)
    ensures SetOnly(rs) && StrictlyTimed(rs)
    ensures Changes(rs, v => v).config && !Changes(Compacted(rs, 0), v => v).config
  {
    rs := [Record("1", Set, A_KEY, false), Record("2", Set, A_KEY, true)];
    var isRekey: bool -> bool := v => v;
    PlainConfigKey();
    FlagMeans(rs, false, isRekey);
    assert Raises(rs[0], false, isRekey);
    assert Outstanding(rs, 0, false, isRekey);
    SeparatedFlagAfter(rs, 0, false, isRekey);
    assert !Survives(rs, 0, 0) by { assert rs[1].key == rs[0].key; }
    forall i ensures !(Survives(rs, 0, i) && Outstanding(rs, i, false, isRekey)) {
      if i == 1 { assert isRekey(rs[1].value); }
    }
  }
}
