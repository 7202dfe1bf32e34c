/** The append-only log of set, del and clr records, what it stands for, and its
    compaction (kelso/lib/logtab.py). `V` is what a record's value holds. */
module LogTable {
  import opened Wrappers
  import opened Orders

  datatype Op = Set | Del | Clr

  datatype Record<V> = Record(ts: string, op: Op, key: string, value: V)

  datatype Entry<V> = Entry(ts: string, value: V)

  type Table<V> = map<string, Entry<V>>

  function Apply<V>(t: Table<V>, r: Record<V>): Table<V> {
    match r.op
    case Set => t[r.key := Entry(r.ts, r.value)]
    case Del => t - {r.key}
    case Clr => map k | k in t && !(r.key <= k) :: t[k]
  }

  /** Records applied in order to a table. */
  function LoadFrom<V>(t: Table<V>, rs: seq<Record<V>>): Table<V>
    decreases |rs|
  {
    if rs == [] then t else LoadFrom(Apply(t, rs[0]), rs[1..])
  }

  /** What a log stands for. */
  function Load<V>(rs: seq<Record<V>>): Table<V> {
    LoadFrom(map[], rs)
  }

  lemma {:induction false} LoadConcat<V>(t: Table<V>, a: seq<Record<V>>, b: seq<Record<V>>)
    ensures LoadFrom(t, a + b) == LoadFrom(LoadFrom(t, a), b)
    decreases |a|
  {
    if a == [] {
      assert a + b == b;
    } else {
      LoadConcat(Apply(t, a[0]), a[1..], b);
      assert (a + b)[1..] == a[1..] + b;
    }
  }

  lemma LoadAppend<V>(rs: seq<Record<V>>, r: Record<V>)
    ensures Load(rs + [r]) == Apply(Load(rs), r)
  {
    LoadConcat(map[], rs, [r]);
    assert [r][1..] == [];
  }

  // --- one key at a time --------------------------------------------------------------

  function Get<V>(t: Table<V>, k: string): Option<Entry<V>> {
    if k in t then Some(t[k]) else None
  }

  /** What a record makes of one key. */
  function Step<V>(r: Record<V>, k: string, o: Option<Entry<V>>): Option<Entry<V>> {
    match r.op
    case Set => if r.key == k then Some(Entry(r.ts, r.value)) else o
    case Del => if r.key == k then None else o
    case Clr => if r.key <= k then None else o
  }

  function Steps<V>(rs: seq<Record<V>>, k: string, o: Option<Entry<V>>): Option<Entry<V>>
    decreases |rs|
  {
    if rs == [] then o else Steps(rs[1..], k, Step(rs[0], k, o))
  }

  lemma {:induction false} LoadByKey<V>(t: Table<V>, rs: seq<Record<V>>, k: string)
    ensures Get(LoadFrom(t, rs), k) == Steps(rs, k, Get(t, k))
    decreases |rs|
  {
    if rs != [] {
      LoadByKey(Apply(t, rs[0]), rs[1..], k);
    }
  }

  /** The keys records name (a clr names its prefix). */
  function Keys<V>(rs: seq<Record<V>>): set<string> {
    set i | 0 <= i < |rs| :: rs[i].key
  }

  /** A key that records name comes out the same whatever it was before. */
  lemma {:induction false} NamedKeysForget<V>(rs: seq<Record<V>>, k: string, o1: Option<Entry<V>>, o2: Option<Entry<V>>)
    requires k in Keys(rs)
    ensures Steps(rs, k, o1) == Steps(rs, k, o2)
    decreases |rs|
  {
    if rs[0].key != k {
      assert k in Keys(rs[1..]) by {
        var i :| 0 <= i < |rs| && rs[i].key == k;
        assert rs[1..][i - 1].key == k;
      }
      NamedKeysForget(rs[1..], k, Step(rs[0], k, o1), Step(rs[0], k, o2));
    }
  }

  /** A key they do not name is kept or cleared, and so are its stand-ins. */
  lemma {:induction false} OtherKeysKeep<V>(rs: seq<Record<V>>, k: string, o: Option<Entry<V>>)
    requires k !in Keys(rs)
    ensures Steps(rs, k, o) == o || Steps(rs, k, o) == None
    ensures Steps(rs, k, None) == None
    decreases |rs|
  {
    if rs != [] {
      assert rs[0].key in Keys(rs);
      assert forall i :: 0 <= i < |rs| - 1 ==> rs[1..][i] == rs[i + 1];
      assert Keys(rs[1..]) <= Keys(rs);
      OtherKeysKeep(rs[1..], k, Step(rs[0], k, o));
    }
  }

  /** Replacing what a table holds for the keys records do not name by what they end
      up with, and dropping the rest, changes nothing of where the records lead. */
  lemma ReplayFromBackfill<V>(t: Table<V>, rs: seq<Record<V>>)
    ensures LoadFrom(LoadFrom(t, rs) - Keys(rs), rs) == LoadFrom(t, rs)
  {
    var full := LoadFrom(t, rs);
    var back := full - Keys(rs);
    var again := LoadFrom(back, rs);
    forall k ensures Get(again, k) == Get(full, k) {
      LoadByKey(t, rs, k);
      LoadByKey(back, rs, k);
      if k in Keys(rs) {
        NamedKeysForget(rs, k, Get(t, k), Get(back, k));
      } else {
        OtherKeysKeep(rs, k, Get(t, k));
        OtherKeysKeep(rs, k, Get(back, k));
      }
    }
    SameEntries(again, full);
  }

  lemma SameEntries<V>(a: Table<V>, b: Table<V>)
    requires forall k :: Get(a, k) == Get(b, k)
    ensures a == b
  {
    forall k ensures k in a <==> k in b {
      assert Get(a, k) == Get(b, k);
    }
    forall k | k in a ensures a[k] == b[k] {
      assert Get(a, k) == Get(b, k);
    }
  }

  // --- compaction ---------------------------------------------------------------------

  /** Where an entry sorts: by timestamp, then by key. */
  type Place = (string, string)

  predicate PlaceLeq(a: Place, b: Place) {
    if a.0 != b.0 then LexLeq(a.0, b.0) else LexLeq(a.1, b.1)
  }

  lemma PlaceIsTotalOrder()
    ensures TotalOrder(PlaceLeq)
  {
    LexIsTotalOrder();
    assert TotalOrder(LexLeq);
    forall a: Place, b: Place
      ensures (PlaceLeq(a, b) || PlaceLeq(b, a)) && (PlaceLeq(a, b) && PlaceLeq(b, a) ==> a == b)
    {
      LexTotal(a.0, b.0);
      LexTotal(a.1, b.1);
    }
    forall a: Place, b: Place, c: Place | PlaceLeq(a, b) && PlaceLeq(b, c) ensures PlaceLeq(a, c) {
      LexTotal(a.0, b.0);
      if a.0 != b.0 && b.0 != c.0 { LexTransitive(a.0, b.0, c.0); }
      if a.0 == b.0 == c.0 { LexTransitive(a.1, b.1, c.1); }
    }
  }

  function Places<V>(t: Table<V>): set<Place> {
    set k | k in t :: (t[k].ts, k)
  }

  /** Set records for the entries at these places. */
  function SetRecords<V>(t: Table<V>, places: seq<Place>): seq<Record<V>>
    requires forall p :: p in places ==> p.1 in t
  {
    seq(|places|, i requires 0 <= i < |places| => Record(places[i].0, Set, places[i].1, t[places[i].1].value))
  }

  ghost function SortedPlaces<V>(t: Table<V>): (ps: seq<Place>)
    ensures Lists(ps, Places(t)) && Sorted(ps, PlaceLeq)
    ensures forall p :: p in ps ==> p.1 in t
  {
    PlaceIsTotalOrder();
    var ps := Sort(Listing(Places(t)), PlaceLeq);
    SortedListing(Listing(Places(t)), Places(t), PlaceLeq);
    SortSorts(Listing(Places(t)), PlaceLeq);
    ps
  }

  /** A table's entries as set records, in the order compaction writes them. */
  ghost function Backfill<V>(t: Table<V>): seq<Record<V>> {
    SetRecords(t, SortedPlaces(t))
  }

  /** The last `history` records. */
  function Tail<V>(rs: seq<Record<V>>, history: nat): seq<Record<V>>
    requires history <= |rs|
  {
    rs[|rs| - history..]
  }

  /** What compaction leaves of a log. */
  ghost function Compacted<V>(rs: seq<Record<V>>, history: nat): seq<Record<V>> {
    if history > |rs| then rs
    else Backfill(Load(rs) - Keys(Tail(rs, history))) + Tail(rs, history)
  }

  /** Loading set records for the first places of a table gives the table on them. */
  lemma {:induction false} LoadSetRecords<V>(t: Table<V>, ps: seq<Place>)
    requires Distinct(ps) && forall p :: p in ps ==> p.1 in t && p.0 == t[p.1].ts
    ensures Load(SetRecords(t, ps)) == map k | k in t && (t[k].ts, k) in ps :: t[k]
    decreases |ps|
  {
    if ps != [] {
      var front, last := ps[..|ps| - 1], ps[|ps| - 1];
      LoadSetRecords(t, front);
      var r := Record(last.0, Set, last.1, t[last.1].value);
      assert SetRecords(t, ps) == SetRecords(t, front) + [r];
      LoadAppend(SetRecords(t, front), r);
      assert ps == front + [last];
    }
  }

  lemma LoadBackfill<V>(t: Table<V>)
    ensures Load(Backfill(t)) == t
  {
    var ps := SortedPlaces(t);
    forall p | p in ps ensures p.1 in t && p.0 == t[p.1].ts {
      assert p in Places(t);
    }
    LoadSetRecords(t, ps);
    forall k | k in t ensures (t[k].ts, k) in ps {
      assert (t[k].ts, k) in Places(t);
    }
  }

  /** Compaction does not change what the log stands for. */
  lemma CompactKeepsTable<V>(rs: seq<Record<V>>, history: nat)
    ensures Load(Compacted(rs, history)) == Load(rs)
  {
    if history <= |rs| {
      var head, tail := rs[..|rs| - history], Tail(rs, history);
      assert rs == head + tail;
      LoadConcat(map[], head, tail);
      var back := Load(rs) - Keys(tail);
      LoadBackfill(back);
      LoadConcat(map[], Backfill(back), tail);
      ReplayFromBackfill(Load(head), tail);
    }
  }

  lemma BackfillSize<V>(t: Table<V>)
    ensures |Backfill(t)| == |t|
  {
    ListingSize(SortedPlaces(t), Places(t));
    PlacesSize(t);
  }

  lemma {:induction false} PlacesSize<V>(t: Table<V>)
    ensures |Places(t)| == |t|
    decreases |t|
  {
    if t == map[] {
      assert Places(t) == {};
    } else {
      var k :| k in t;
      PlacesSize(t - {k});
      forall p: Place ensures p in Places(t) <==> p in Places(t - {k}) + {(t[k].ts, k)} {
        if p in Places(t) && p.1 != k {
          assert p.1 in t - {k} && (t - {k})[p.1] == t[p.1];
        }
      }
      assert Places(t) == Places(t - {k}) + {(t[k].ts, k)};
      assert (t[k].ts, k) !in Places(t - {k});
    }
  }

  lemma SubmapSize<V>(t: Table<V>, ks: set<string>)
    ensures |t - ks| <= |t|
  {
    assert (t - ks).Keys <= t.Keys;
    assert t.Keys == (t - ks).Keys + (t.Keys - (t - ks).Keys);
    assert |t| == |t.Keys| && |t - ks| == |(t - ks).Keys|;
  }

  /** The last `history` records are kept as they are and in order; before them there
      is nothing but set records of live entries, one per key, so the log has at most
      `history` records more than the table has keys. */
  lemma CompactShape<V>(rs: seq<Record<V>>, history: nat)
    requires history <= |rs|
    ensures var c := Compacted(rs, history);
            && |c| >= history && Tail(c, history) == Tail(rs, history)
            && |c| <= history + |Load(rs)|
            && (forall i :: 0 <= i < |c| - history ==>
                  c[i].op == Set && Get(Load(rs), c[i].key) == Some(Entry(c[i].ts, c[i].value)))
            && (forall i, j :: 0 <= i < j < |c| - history ==> c[i].key != c[j].key)
  {
    var tail := Tail(rs, history);
    var t := Load(rs) - Keys(tail);
    BackfillSize(t);
    SubmapSize(Load(rs), Keys(tail));
    var c, b := Compacted(rs, history), Backfill(t);
    assert c == b + tail;
    assert Tail(c, history) == tail;
    var ps := SortedPlaces(t);
    forall i | 0 <= i < |c| - history
      ensures c[i] == b[i] && c[i].op == Set && Get(Load(rs), c[i].key) == Some(Entry(c[i].ts, c[i].value))
    {
      assert ps[i] in Places(t);
    }
    forall i, j | 0 <= i < j < |c| - history ensures c[i].key != c[j].key {
      assert ps[i] in Places(t) && ps[j] in Places(t);
    }
  }

  /** Before the kept tail the records are in the order of their times, and at one time of
      their keys. */
  lemma CompactInOrder<V>(rs: seq<Record<V>>, history: nat, i: nat, j: nat)
    requires history <= |rs| && i < j < |Compacted(rs, history)| - history
    ensures var c := Compacted(rs, history);
            ComesAfter(c[j].ts, c[i].ts) || (c[j].ts == c[i].ts && ComesAfter(c[j].key, c[i].key))
  {
    CompactShape(rs, history);
    var c, t := Compacted(rs, history), Load(rs) - Keys(Tail(rs, history));
    var ps, b := SortedPlaces(t), Backfill(t);
    assert c == b + Tail(rs, history);
    assert c[i] == b[i] && c[j] == b[j] && PlaceLeq(ps[i], ps[j]);
    assert ps[i] in Places(t) && ps[j] in Places(t);
    LexMeans(ps[i].0, ps[j].0);
    LexMeans(ps[i].1, ps[j].1);
  }

  /** Compacting again changes nothing. */
  lemma CompactIdempotent<V>(rs: seq<Record<V>>, history: nat)
    ensures Compacted(Compacted(rs, history), history) == Compacted(rs, history)
  {
    if history <= |rs| {
      CompactShape(rs, history);
      CompactKeepsTable(rs, history);
    }
  }
}
