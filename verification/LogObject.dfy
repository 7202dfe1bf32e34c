/** The log as an object: its file's records, and the methods that append to them,
    replay them and rewrite them (kelso/lib/logtab.py). */
module LogObject {
  import opened Wrappers
  import opened Orders
  import opened LogTable

  const MAX_KEY_LENGTH: nat := 512
  const MAX_VAL_LENGTH: nat := 2048

  predicate KeyChar(c: char) {
    'a' <= c <= 'z' || 'A' <= c <= 'Z' || '0' <= c <= '9' || c == '_' || c == '/' || c == '.' || c == '-'
  }

  predicate ValidKey(key: string) {
    0 < |key| <= MAX_KEY_LENGTH && forall i :: 0 <= i < |key| ==> KeyChar(key[i])
  }

  /** A key is one to 512 characters of ASCII: `-`, `.`, `/` and the digits (45 to 57), the
      capitals (65 to 90), `_` (95) and the small letters (97 to 122). */
  lemma ValidKeyMeans(key: string)
    ensures ValidKey(key) <==>
            && key != "" && |key| <= 512
            && forall i :: 0 <= i < |key| ==>
                 var c := key[i] as int; 45 <= c <= 57 || 65 <= c <= 90 || c == 95 || 97 <= c <= 122
  {
  }

  /** What a scan may be asked for: nothing, or a valid key. */
  predicate Askable(key: string) { key == "" || ValidKey(key) }

  predicate HasSuffix(s: string, end: string) {
    |end| <= |s| && s[|s| - |end|..] == end
  }

  lemma EveryKeyEnds()
    ensures forall k :: HasSuffix(k, "")
  {
  }

  /** The set records that match, oldest first. */
  function Matching<V>(rs: seq<Record<V>>, prefix: string, suffix: string): seq<Record<V>> {
    if rs == [] then []
    else
      Matching(rs[..|rs| - 1], prefix, suffix) +
      (var r := rs[|rs| - 1]; if r.op == Set && prefix <= r.key && HasSuffix(r.key, suffix) then [r] else [])
  }

  /** The loop of `load`: records replayed into a dictionary. */
  method Materialize<V>(rs: seq<Record<V>>) returns (t: Table<V>)
    ensures t == Load(rs)
  {
    t := map[];
    for i := 0 to |rs|
      invariant t == Load(rs[..i])
    {
      assert rs[..i + 1] == rs[..i] + [rs[i]];
      LoadAppend(rs[..i], rs[i]);
      var r := rs[i];
      match r.op
      case Set => t := t[r.key := Entry(r.ts, r.value)];
      case Del => t := t - {r.key};
      case Clr =>
        var doomed := set k | k in t && r.key <= k;
        t := t - doomed;
    }
    assert rs[..|rs|] == rs;
  }

  /** The backfill: places gathered in any order, then sorted. */
  method BackfillOf<V>(t: Table<V>) returns (rs: seq<Record<V>>)
    ensures rs == Backfill(t)
  {
    var left := t.Keys;
    var places: seq<Place> := [];
    while left != {}
      invariant left <= t.Keys
      invariant Lists(places, Places(t - left))
      decreases |left|
    {
      var k :| k in left;
      PlaceAdds(t, left, k, places);
      places := places + [(t[k].ts, k)];
      left := left - {k};
    }
    assert t - {} == t;
    var sorted := Sort(places, PlaceLeq);
    SortedIsSortedPlaces(t, places);
    rs := SetRecords(t, sorted);
  }

  lemma InPlaces<V>(t: Table<V>, q: Place)
    ensures q in Places(t) <==> q.1 in t && q.0 == t[q.1].ts
  {
    if q.1 in t && q.0 == t[q.1].ts {
      assert q == (t[q.1].ts, q.1);
    }
  }

  lemma PlaceAdds<V>(t: Table<V>, left: set<string>, k: string, places: seq<Place>)
    requires k in left && left <= t.Keys && Lists(places, Places(t - left))
    ensures Lists(places + [(t[k].ts, k)], Places(t - (left - {k})))
  {
    var p := (t[k].ts, k);
    assert p !in Places(t - left);
    forall q: Place ensures q in Places(t - (left - {k})) <==> q in places + [p] {
      InPlaces(t - left, q);
      InPlaces(t - (left - {k}), q);
      assert q in places <==> q in Places(t - left);
      assert q in places + [p] <==> q in places || q == p;
    }
  }

  lemma SortedIsSortedPlaces<V>(t: Table<V>, places: seq<Place>)
    requires Lists(places, Places(t))
    ensures Sort(places, PlaceLeq) == SortedPlaces(t)
  {
    PlaceIsTotalOrder();
    SortedListing(places, Places(t), PlaceLeq);
    SortSorts(places, PlaceLeq);
    ListingIsMultiset(Sort(places, PlaceLeq), Places(t));
    ListingIsMultiset(SortedPlaces(t), Places(t));
    SortedIsUnique(Sort(places, PlaceLeq), SortedPlaces(t), PlaceLeq);
  }

  lemma CompactedSplit<V>(rs: seq<Record<V>>, history: nat, tail: seq<Record<V>>, named: set<string>)
    requires history <= |rs| && tail == rs[|rs| - history..] && named == Keys(tail)
    ensures Compacted(rs, history) == Backfill(Load(rs) - named) + tail
  {
  }

  /** What compaction writes in place of a log. */
  method Rewritten<V>(rs: seq<Record<V>>, history: nat) returns (out: seq<Record<V>>)
    ensures out == Compacted(rs, history)
  {
    var current := Materialize(rs);
    if |rs| < history {
      return rs;
    }
    var tail := rs[|rs| - history..];
    var named := set i | 0 <= i < |tail| :: tail[i].key;
    CompactedSplit(rs, history, tail, named);
    var backfill := BackfillOf(current - named);
    out := backfill + tail;
  }

  class LogTab<V> {
    var records: seq<Record<V>>
    const strict: bool
    /** How long a log may get before an append compacts it (0: never), and the
        history it keeps then. `size` is the length of the file in bytes. */
    const compactSize: nat
    const compactHistory: nat
    const size: seq<Record<V>> -> nat
    /** validate_value, of the text that a value is written as. */
    const fits: V -> bool

    constructor (strict: bool, compactSize: nat, compactHistory: nat, size: seq<Record<V>> -> nat, fits: V -> bool)
      ensures records == [] && this.strict == strict && this.size == size && this.fits == fits
      ensures this.compactSize == compactSize && this.compactHistory == compactHistory
    {
      this.strict, this.compactSize, this.compactHistory := strict, compactSize, compactHistory;
      this.size, this.fits := size, fits;
      records := [];
    }

    /** Whether an append that leaves these records compacts them. */
    predicate Oversized(rs: seq<Record<V>>) {
      compactSize > 0 && size(rs) > compactSize
    }

    /** What the file holds once a record has been added. */
    ghost function After(rs: seq<Record<V>>, r: Record<V>): (after: seq<Record<V>>)
      ensures Load(after) == Apply(Load(rs), r)
      ensures !Oversized(rs + [r]) ==> after == rs + [r]
    {
      LoadAppend(rs, r);
      CompactKeepsTable(rs + [r], compactHistory);
      if Oversized(rs + [r]) then Compacted(rs + [r], compactHistory) else rs + [r]
    }

    /** What it holds once records have been added one after another. */
    ghost function AfterAll(rs: seq<Record<V>>, adds: seq<Record<V>>): (after: seq<Record<V>>)
      ensures Load(after) == Load(rs + adds)
      decreases |adds|
    {
      if adds == [] then
        assert rs + adds == rs;
        rs
      else
        var front, last := adds[..|adds| - 1], adds[|adds| - 1];
        LoadAppend(rs + front, last);
        assert rs + front + [last] == rs + adds;
        After(AfterAll(rs, front), last)
    }

    /** How many of the additions there were when the log last compacted itself (0: it never did). */
    ghost function LastCompaction(rs: seq<Record<V>>, adds: seq<Record<V>>): (n: nat)
      ensures n <= |adds|
      decreases |adds|
    {
      if adds == [] then 0
      else if Oversized(AfterAll(rs, adds[..|adds| - 1]) + [adds[|adds| - 1]]) then |adds|
      else LastCompaction(rs, adds[..|adds| - 1])
    }

    /** The last addition brought on a compaction, */
    lemma AfterAllCompacted(rs: seq<Record<V>>, adds: seq<Record<V>>)
      requires adds != [] && LastCompaction(rs, adds) == |adds|
      ensures var front, last := adds[..|adds| - 1], adds[|adds| - 1];
              AfterAll(rs, adds) == Compacted(AfterAll(rs, front) + [last], compactHistory)
    {
    }

    /** or was just appended. */
    lemma AfterAllAppended(rs: seq<Record<V>>, adds: seq<Record<V>>)
      requires adds != [] && LastCompaction(rs, adds) < |adds|
      ensures var front, last := adds[..|adds| - 1], adds[|adds| - 1];
              && AfterAll(rs, adds) == AfterAll(rs, front) + [last]
              && LastCompaction(rs, adds) == LastCompaction(rs, front)
    {
    }

    /** Additions that bring on no compaction are just appended. */
    lemma {:induction false} AfterAllPlain(rs: seq<Record<V>>, adds: seq<Record<V>>)
      requires LastCompaction(rs, adds) == 0
      ensures AfterAll(rs, adds) == rs + adds
      decreases |adds|
    {
      if adds == [] {
        assert rs + adds == rs;
      } else {
        AfterAllPlain(rs, adds[..|adds| - 1]);
        assert rs + adds[..|adds| - 1] + [adds[|adds| - 1]] == rs + adds;
      }
    }

    /** Nor do fewer of them. */
    lemma {:induction false} LastCompactionOfFewer(rs: seq<Record<V>>, adds: seq<Record<V>>, n: nat)
      requires LastCompaction(rs, adds) == 0 && n <= |adds|
      ensures LastCompaction(rs, adds[..n]) == 0
      decreases |adds|
    {
      if n < |adds| {
        LastCompactionOfFewer(rs, adds[..|adds| - 1], n);
        assert adds[..|adds| - 1][..n] == adds[..n];
      } else {
        assert adds[..n] == adds;
      }
    }

    lemma {:induction false} AfterAllConcat(rs: seq<Record<V>>, a: seq<Record<V>>, b: seq<Record<V>>)
      ensures AfterAll(rs, a + b) == AfterAll(AfterAll(rs, a), b)
      decreases |b|
    {
      if b == [] {
        assert a + b == a;
      } else {
        AfterAllConcat(rs, a, b[..|b| - 1]);
        assert (a + b)[..|a + b| - 1] == a + b[..|b| - 1];
      }
    }

    lemma AfterOneMore(rs: seq<Record<V>>, adds: seq<Record<V>>, r: Record<V>)
      ensures AfterAll(rs, adds + [r]) == After(AfterAll(rs, adds), r)
    {
      assert (adds + [r])[..|adds + [r]| - 1] == adds;
    }

    /** write_entry and the compaction it may bring on. An invalid key or value changes nothing. */
    method Add(r: Record<V>) returns (ok: bool)
      modifies this`records
      ensures ok == (ValidKey(r.key) && fits(r.value))
      ensures records == if ok then After(old(records), r) else old(records)
      ensures ok ==> records == if compactSize != 0 && size(old(records) + [r]) > compactSize
                                then Compacted(old(records) + [r], compactHistory) else old(records) + [r]
      ensures Load(records) == if ok then Apply(Load(old(records)), r) else Load(old(records))
    {
      ok := ValidKey(r.key) && fits(r.value);
      if ok {
        records := records + [r];
        if Oversized(records) {
          Compact(compactHistory);
        }
      }
    }

    method Write(ts: string, key: string, value: V) returns (ok: bool)
      modifies this`records
      ensures ok == (ValidKey(key) && fits(value))
      ensures records == if ok then After(old(records), Record(ts, Set, key, value)) else old(records)
      ensures Load(records) == if ok then Load(old(records))[key := Entry(ts, value)] else Load(old(records))
    {
      ok := Add(Record(ts, Set, key, value));
    }

    /** Removes every key with the prefix. */
    method Clear(ts: string, prefix: string, comment: V) returns (ok: bool)
      modifies this`records
      ensures ok == (ValidKey(prefix) && fits(comment))
      ensures forall k :: k in Load(records) <==> k in Load(old(records)) && (ok ==> !(prefix <= k))
      ensures forall k :: k in Load(records) ==> Load(records)[k] == Load(old(records))[k]
    {
      ok := Add(Record(ts, Clr, prefix, comment));
    }

    /** Removes one key. A strict log refuses when it is not there. */
    method Delete(ts: string, key: string, comment: V) returns (ok: bool)
      modifies this`records
      ensures ok == (ValidKey(key) && fits(comment) && (strict ==> key in Load(old(records))))
      ensures Load(records) == if ok then Load(old(records)) - {key} else Load(old(records))
    {
      var t := Materialize(records);
      if strict && key !in t {
        return false;
      }
      ok := Add(Record(ts, Del, key, comment));
    }

    method Read(key: string) returns (e: Option<Entry<V>>)
      ensures e == Get(Load(records), key)
    {
      var t := Materialize(records);
      e := if key in t then Some(t[key]) else None;
    }

    /** The entries whose key has the prefix and the suffix, if those are no invalid keys. */
    method Scan(prefix: string, suffix: string) returns (t: Option<Table<V>>)
      ensures t == if Askable(prefix) && Askable(suffix)
                   then Some(map k | k in Load(records) && prefix <= k && HasSuffix(k, suffix) :: Load(records)[k])
                   else None
    {
      if !Askable(prefix) || !Askable(suffix) {
        return None;
      }
      var all := Materialize(records);
      t := Some(map k | k in all && prefix <= k && HasSuffix(k, suffix) :: all[k]);
    }

    /** The loop of `history`: every matching set record, oldest first. */
    method History(prefix: string, suffix: string) returns (r: Option<seq<Record<V>>>)
      ensures r == if Askable(prefix) && Askable(suffix) then Some(Matching(records, prefix, suffix)) else None
    {
      if !Askable(prefix) || !Askable(suffix) {
        return None;
      }
      var found := [];
      for i := 0 to |records|
        invariant found == Matching(records[..i], prefix, suffix)
      {
        assert records[..i + 1][..i] == records[..i];
        var r := records[i];
        if r.op == Set {
          if prefix <= r.key && HasSuffix(r.key, suffix) {
            found := found + [r];
          }
        }
      }
      assert records[..|records|] == records;
      r := Some(found);
    }

    /** Rewrites the log with what is still in effect and its last records. */
    method Compact(history: nat)
      modifies this`records
      ensures records == Compacted(old(records), history)
      ensures Load(records) == Load(old(records))
    {
      CompactKeepsTable(records, history);
      records := Rewritten(records, history);
    }
  }
}
