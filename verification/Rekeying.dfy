/** Moving every secret of a store onto a new key by appending it again
    (kelso/lib/store.py, kelso/lib/rekey.py). */
module Rekeying {
  import opened Wrappers
  import opened LogTable
  import opened LogObject
  import opened KelsoDb
  import Decimal
  import Text
  import C = ChangesSinceStart

  type Key = string

  /** Encryption takes something fresh each time (`salt`); decryption fails with None. */
  datatype Crypto = Crypto(encrypt: (Key, string, nat) -> string, decrypt: (Key, string) -> Option<string>)

  ghost predicate Sound(c: Crypto) {
    forall k, plain, salt {:trigger c.encrypt(k, plain, salt)} :: c.decrypt(k, c.encrypt(k, plain, salt)) == Some(plain)
  }

  /** Where a store's values hold an encrypted text, and how one is put in its place. */
  datatype Sealing<!V> = Sealing(sealed: V -> Option<string>, put: (V, string) -> V)

  ghost predicate Lawful<V(!new)>(s: Sealing<V>) {
    forall v, text {:trigger s.put(v, text)} :: s.sealed(v).Some? ==> s.sealed(s.put(v, text)) == Some(text)
  }

  /** The plaintext a key reads from a value. */
  function Reads<V>(s: Sealing<V>, c: Crypto, k: Key, v: V): Option<string> {
    match s.sealed(v)
    case None => None
    case Some(text) => c.decrypt(k, text)
  }

  /** `v'` is `v` with its secret, which the old key reads, sealed with the new one. */
  ghost predicate Moved<V>(s: Sealing<V>, c: Crypto, from: Key, to: Key, v: V, v': V) {
    && Reads(s, c, from, v).Some?
    && Reads(s, c, to, v') == Reads(s, c, from, v)
    && exists text :: v' == s.put(v, text)
  }

  /** A record that moves a key's secret. */
  ghost predicate Reseals<V>(s: Sealing<V>, c: Crypto, from: Key, to: Key, t: Table<V>, r: Record<V>) {
    r.op == Set && r.key in t && Moved(s, c, from, to, t[r.key].value, r.value)
  }

  /** Records that move secrets under a prefix, and nothing else. */
  ghost predicate Moves<V>(s: Sealing<V>, c: Crypto, from: Key, to: Key, t: Table<V>, prefix: string, adds: seq<Record<V>>) {
    forall i :: 0 <= i < |adds| ==> prefix <= adds[i].key && Reseals(s, c, from, to, t, adds[i])
  }

  /** What rekeying a prefix makes of a table: each secret the old key reads is moved,
      and everything else is as it was. */
  ghost predicate Rekeyed<V>(s: Sealing<V>, c: Crypto, from: Key, to: Key, t: Table<V>, t': Table<V>, prefix: string) {
    && t'.Keys == t.Keys
    && forall k :: k in t ==>
         if prefix <= k && Reads(s, c, from, t[k].value).Some?
         then Moved(s, c, from, to, t[k].value, t'[k].value)
         else t'[k] == t[k]
  }

  /** A key whose secret the old key cannot read. */
  predicate Unreadable<V>(s: Sealing<V>, c: Crypto, from: Key, t: Table<V>, prefix: string, k: string) {
    k in t && prefix <= k && s.sealed(t[k].value).Some? && Reads(s, c, from, t[k].value) == None
  }

  /** Part-way: the keys in `left` are still to be done. */
  ghost predicate Partly<V>(s: Sealing<V>, c: Crypto, from: Key, to: Key, t: Table<V>, t': Table<V>, prefix: string, left: set<string>) {
    && t'.Keys == t.Keys
    && forall k :: k in t ==>
         if k !in left && prefix <= k && Reads(s, c, from, t[k].value).Some?
         then Moved(s, c, from, to, t[k].value, t'[k].value)
         else t'[k] == t[k]
  }

  /** The secrets under a prefix that a key reads. */
  function Readable<V>(s: Sealing<V>, c: Crypto, k: Key, t: Table<V>, prefix: string): set<string> {
    set n | n in t && prefix <= n && Reads(s, c, k, t[n].value).Some?
  }

  /** What is written fits a value. */
  ghost predicate Fit<V>(fits: V -> bool, adds: seq<Record<V>>) {
    forall i :: 0 <= i < |adds| ==> fits(adds[i].value)
  }

  /** What a rekey under way has done to a table `t`, that now is `t'`. */
  ghost predicate Progress<V>(s: Sealing<V>, c: Crypto, from: Key, to: Key, t: Table<V>, t': Table<V>, prefix: string,
                              left: set<string>, unreadable: set<string>, adds: seq<Record<V>>) {
    && Partly(s, c, from, to, t, t', prefix, left)
    && (forall k :: k in unreadable <==> k !in left && Unreadable(s, c, from, t, prefix, k))
    && Moves(s, c, from, to, t, prefix, adds)
  }

  /** Each secret the old key reads has been appended once, but for those still to be done. */
  ghost predicate Accounted<V>(s: Sealing<V>, c: Crypto, from: Key, t: Table<V>, prefix: string, left: set<string>, adds: seq<Record<V>>) {
    Keys(adds) == Readable(s, c, from, t, prefix) - left && |adds| == |Readable(s, c, from, t, prefix) - left|
  }

  ghost predicate Underway<V>(fits: V -> bool, s: Sealing<V>, c: Crypto, from: Key, to: Key, t: Table<V>, t': Table<V>, prefix: string,
                              left: set<string>, unreadable: set<string>, adds: seq<Record<V>>) {
    && Progress(s, c, from, to, t, t', prefix, left, unreadable, adds)
    && Accounted(s, c, from, t, prefix, left, adds) && Fit(fits, adds)
  }

  lemma Starting<V>(fits: V -> bool, s: Sealing<V>, c: Crypto, from: Key, to: Key, t: Table<V>, prefix: string, left: set<string>)
    requires forall k :: k in t && prefix <= k ==> k in left
    ensures Underway(fits, s, c, from, to, t, t, prefix, left, {}, [])
  {
    assert Readable(s, c, from, t, prefix) - left == {};
  }

  lemma PassOver<V>(fits: V -> bool, s: Sealing<V>, c: Crypto, from: Key, to: Key, t: Table<V>, t': Table<V>, prefix: string,
                    left: set<string>, unreadable: set<string>, adds: seq<Record<V>>, k: string)
    requires Underway(fits, s, c, from, to, t, t', prefix, left, unreadable, adds)
    requires k in left && k in t && prefix <= k && Reads(s, c, from, t[k].value) == None
    ensures Underway(fits, s, c, from, to, t, t', prefix, left - {k},
                     unreadable + (if s.sealed(t[k].value).Some? then {k} else {}), adds)
  {
    PassProgresses(s, c, from, to, t, t', prefix, left, unreadable, adds, k);
    assert Readable(s, c, from, t, prefix) - (left - {k}) == Readable(s, c, from, t, prefix) - left;
  }

  lemma PassProgresses<V>(s: Sealing<V>, c: Crypto, from: Key, to: Key, t: Table<V>, t': Table<V>, prefix: string,
                          left: set<string>, unreadable: set<string>, adds: seq<Record<V>>, k: string)
    requires Progress(s, c, from, to, t, t', prefix, left, unreadable, adds)
    requires k in left && k in t && prefix <= k && Reads(s, c, from, t[k].value) == None
    ensures Progress(s, c, from, to, t, t', prefix, left - {k},
                     unreadable + (if s.sealed(t[k].value).Some? then {k} else {}), adds)
  {
    assert Unreadable(s, c, from, t, prefix, k) <==> s.sealed(t[k].value).Some?;
  }

  lemma MoveOne<V>(fits: V -> bool, s: Sealing<V>, c: Crypto, from: Key, to: Key, t: Table<V>, t': Table<V>, prefix: string,
                   left: set<string>, unreadable: set<string>, adds: seq<Record<V>>, r: Record<V>)
    requires Underway(fits, s, c, from, to, t, t', prefix, left, unreadable, adds)
    requires r.op == Set && r.key in left && r.key in t && prefix <= r.key && Moved(s, c, from, to, t[r.key].value, r.value)
    requires fits(r.value)
    ensures Underway(fits, s, c, from, to, t, t'[r.key := Entry(r.ts, r.value)], prefix, left - {r.key}, unreadable, adds + [r])
  {
    MoveProgresses(s, c, from, to, t, t', prefix, left, unreadable, adds, r);
    CountOne(s, c, from, t, prefix, left, adds, r);
  }

  lemma MoveProgresses<V>(s: Sealing<V>, c: Crypto, from: Key, to: Key, t: Table<V>, t': Table<V>, prefix: string,
                          left: set<string>, unreadable: set<string>, adds: seq<Record<V>>, r: Record<V>)
    requires Progress(s, c, from, to, t, t', prefix, left, unreadable, adds)
    requires r.op == Set && r.key in left && r.key in t && prefix <= r.key && Moved(s, c, from, to, t[r.key].value, r.value)
    ensures Progress(s, c, from, to, t, t'[r.key := Entry(r.ts, r.value)], prefix, left - {r.key}, unreadable, adds + [r])
  {
    assert Reseals(s, c, from, to, t, r);
  }

  lemma CountOne<V>(s: Sealing<V>, c: Crypto, from: Key, t: Table<V>, prefix: string, left: set<string>, adds: seq<Record<V>>, r: Record<V>)
    requires Accounted(s, c, from, t, prefix, left, adds)
    requires r.key in left && r.key in Readable(s, c, from, t, prefix)
    ensures Accounted(s, c, from, t, prefix, left - {r.key}, adds + [r])
  {
    var all := Readable(s, c, from, t, prefix);
    assert all - (left - {r.key}) == all - left + {r.key};
    KeysOfMore(adds, r);
  }

  lemma NotTaken<V>(fits: V -> bool, s: Sealing<V>, c: Crypto, from: Key, to: Key, t: Table<V>, prefix: string, k: string, salt: nat)
    requires k in Readable(s, c, from, t, prefix)
    requires !fits(s.put(t[k].value, c.encrypt(to, Reads(s, c, from, t[k].value).value, salt)))
    ensures TooLong(fits, s, c, from, to, t, prefix, k)
  {
  }

  lemma KeysOfMore<V>(adds: seq<Record<V>>, r: Record<V>)
    ensures Keys(adds + [r]) == Keys(adds) + {r.key}
  {
    var more := adds + [r];
    forall k | k in Keys(adds) + {r.key} ensures k in Keys(more) {
      if k in Keys(adds) {
        var i :| 0 <= i < |adds| && adds[i].key == k;
        assert more[i] == adds[i];
      } else {
        assert more[|adds|].key == k;
      }
    }
  }

  lemma SealMoves<V(!new)>(s: Sealing<V>, c: Crypto, from: Key, to: Key, v: V, plain: string, salt: nat)
    requires Sound(c) && Lawful(s) && Reads(s, c, from, v) == Some(plain)
    ensures Moved(s, c, from, to, v, s.put(v, c.encrypt(to, plain, salt)))
  {
    var text := c.encrypt(to, plain, salt);
    assert s.sealed(s.put(v, text)) == Some(text);
  }

  /** A secret the old key reads that does not fit a value when it is sealed with the new one. */
  ghost predicate TooLong<V>(fits: V -> bool, s: Sealing<V>, c: Crypto, from: Key, to: Key, t: Table<V>, prefix: string, k: string) {
    && k in Readable(s, c, from, t, prefix)
    && exists salt :: !fits(s.put(t[k].value, c.encrypt(to, Reads(s, c, from, t[k].value).value, salt)))
  }

  /** Every key on file is one that can be written again. */
  ghost predicate KeysValid<V>(rs: seq<Record<V>>) {
    forall k :: k in Load(rs) ==> ValidKey(k)
  }

  /** When an append is made: the time of the n-th. */
  type Clock = nat -> string

  /** rekey_secrets for the values under one prefix: every secret the old key reads is
      appended again, sealed with the new key; one that has become too long for a value
      ends it there (a ValueError). `adds` are the records appended. */
  method RekeyPrefix<V(!new)>(log: LogTab<V>, s: Sealing<V>, c: Crypto, from: Key, to: Key, prefix: string, clock: Clock)
      returns (done: bool, written: nat, unreadable: set<string>, ghost adds: seq<Record<V>>)
    requires Sound(c) && Lawful(s) && ValidKey(prefix)
    requires KeysValid(log.records)
    modifies log`records
    ensures log.records == log.AfterAll(old(log.records), adds)
    ensures Moves(s, c, from, to, old(Load(log.records)), prefix, adds) && Fit(log.fits, adds)
    ensures written == |adds|
    ensures done ==> Rekeyed(s, c, from, to, old(Load(log.records)), Load(log.records), prefix)
    ensures done ==> forall k :: k in unreadable <==> Unreadable(s, c, from, old(Load(log.records)), prefix, k)
    ensures done ==> Accounted(s, c, from, old(Load(log.records)), prefix, {}, adds)
    ensures !done ==> exists k :: TooLong(log.fits, s, c, from, to, old(Load(log.records)), prefix, k)
  {
    ghost var rs := log.records;
    ghost var t := Load(rs);
    var found := log.Scan(prefix, "");
    var entries := found.value;
    EveryKeyEnds();
    var left := entries.Keys;
    written, unreadable, adds := 0, {}, [];
    Starting(log.fits, s, c, from, to, t, prefix, left);
    while left != {}
      invariant left <= entries.Keys && written == |adds|
      invariant Underway(log.fits, s, c, from, to, t, Load(log.records), prefix, left, unreadable, adds)
      invariant log.records == log.AfterAll(rs, adds)
      decreases |left|
    {
      var k :| k in left;
      var v := entries[k].value;
      var sealed := s.sealed(v);
      var plain := if sealed == None then None else c.decrypt(from, sealed.value);
      if plain == None {
        PassOver(log.fits, s, c, from, to, t, Load(log.records), prefix, left, unreadable, adds, k);
        if sealed.Some? {
          unreadable := unreadable + {k};
        }
      } else {
        SealMoves(s, c, from, to, v, plain.value, written);
        var r := Record(clock(written), Set, k, s.put(v, c.encrypt(to, plain.value, written)));
        log.AfterOneMore(rs, adds, r);
        ghost var before := Load(log.records);
        var ok := log.Write(r.ts, k, r.value);
        if !ok {
          NotTaken(log.fits, s, c, from, to, t, prefix, k, written);
          done := false;
          return;
        }
        MoveOne(log.fits, s, c, from, to, t, before, prefix, left, unreadable, adds, r);
        adds := adds + [r];
        written := written + 1;
      }
      left := left - {k};
    }
    done := true;
  }

  // --- stopping anywhere ----------------------------------------------------------------------

  /** Each value is as it was or has its secret moved, and no key has come or gone. */
  ghost predicate AsItWasOrMoved<V>(s: Sealing<V>, c: Crypto, from: Key, to: Key, t: Table<V>, t': Table<V>) {
    && t'.Keys == t.Keys
    && forall k :: k in t ==> t'[k] == t[k] || Moved(s, c, from, to, t[k].value, t'[k].value)
  }

  ghost predicate AllReseal<V>(s: Sealing<V>, c: Crypto, from: Key, to: Key, t: Table<V>, adds: seq<Record<V>>) {
    forall i :: 0 <= i < |adds| ==> Reseals(s, c, from, to, t, adds[i])
  }

  lemma {:induction false} ResealsLoad<V>(s: Sealing<V>, c: Crypto, from: Key, to: Key, rs: seq<Record<V>>, adds: seq<Record<V>>)
    requires AllReseal(s, c, from, to, Load(rs), adds)
    ensures AsItWasOrMoved(s, c, from, to, Load(rs), Load(rs + adds))
    decreases |adds|
  {
    if adds == [] {
      assert rs + adds == rs;
    } else {
      var front, r := adds[..|adds| - 1], adds[|adds| - 1];
      ResealsLoad(s, c, from, to, rs, front);
      assert rs + adds == rs + front + [r];
      LoadAppend(rs + front, r);
    }
  }

  /** What one log holds after `n` of a rekey's appends. */
  ghost predicate Readily<V>(log: LogTab<V>, s: Sealing<V>, c: Crypto, from: Key, to: Key, rs: seq<Record<V>>, adds: seq<Record<V>>, n: nat)
    requires n <= |adds|
  {
    && AsItWasOrMoved(s, c, from, to, Load(rs), Load(log.AfterAll(rs, adds[..n])))
    && (log.LastCompaction(rs, adds) == 0 ==> rs <= log.AfterAll(rs, adds[..n]))
  }

  /** After any of the appends each value is as it was or has its secret moved, so each
      secret the old key could read is readable with one of the two keys; and if none of
      them brings on a compaction, cutting the log back to its old length undoes them. */
  lemma AnyPrefixIsReadable<V>(log: LogTab<V>, s: Sealing<V>, c: Crypto, from: Key, to: Key, rs: seq<Record<V>>, adds: seq<Record<V>>, n: nat)
    requires n <= |adds| && AllReseal(s, c, from, to, Load(rs), adds)
    ensures Readily(log, s, c, from, to, rs, adds, n)
  {
    ResealsLoad(s, c, from, to, rs, adds[..n]);
    if log.LastCompaction(rs, adds) == 0 {
      log.LastCompactionOfFewer(rs, adds, n);
      log.AfterAllPlain(rs, adds[..n]);
    }
  }

  // --- the app stores -------------------------------------------------------------------

  /** A config value as JSON holds it, or any other value of an app store. */
  datatype AppValue = Config(secret: bool, value: string, rekey: bool) | Other(json: string)

  function AppSealing(): Sealing<AppValue> {
    Sealing((v: AppValue) => if v.Config? && v.secret then Some(v.value) else None,
            (v: AppValue, text: string) => Config(true, text, true))
  }

  /** _rekeyed: the record is marked as an old value sealed again. */
  function IsRekey(v: AppValue): bool { v.Config? && v.rekey }

  lemma AppSealingLawful()
    ensures Lawful(AppSealing())
  {
  }

  const CONFIG: string := "config/"

  lemma ResealIsQuiet(c: Crypto, from: Key, to: Key, t: Table<AppValue>, r: Record<AppValue>)
    requires CONFIG <= r.key && Reseals(AppSealing(), c, from, to, t, r)
    ensures r.op == Set && IsRekey(r.value) && !C.Applied(r.key)
  {
    assert r.key[0] == 'c' && C.LOADED_AT[0] == 'm' && C.STARTED_AT[0] == 'm';
  }

  /** Appending such a record moves no flag. */
  lemma ResealKeepsFlags(c: Crypto, from: Key, to: Key, t: Table<AppValue>, rs: seq<Record<AppValue>>, r: Record<AppValue>)
    requires CONFIG <= r.key && Reseals(AppSealing(), c, from, to, t, r)
    ensures C.Changes(rs + [r], IsRekey) == C.Changes(rs, IsRekey)
  {
    ResealIsQuiet(c, from, to, t, r);
    assert (rs + [r])[..|rs + [r]| - 1] == rs;
  }

  /** What rekeying config values makes of the table: those of the keys written are marked
      as rekeyed, and every other entry is as it was. */
  lemma {:induction false} RekeyedEntries(c: Crypto, from: Key, to: Key, rs: seq<Record<AppValue>>, adds: seq<Record<AppValue>>)
    requires Moves(AppSealing(), c, from, to, Load(rs), CONFIG, adds)
    ensures Load(rs + adds).Keys == Load(rs).Keys
    ensures forall k :: k in Load(rs) ==>
              if k in Keys(adds) then CONFIG <= k && IsRekey(Load(rs + adds)[k].value) else Load(rs + adds)[k] == Load(rs)[k]
    decreases |adds|
  {
    if adds == [] {
      assert rs + adds == rs;
    } else {
      var front, r := adds[..|adds| - 1], adds[|adds| - 1];
      RekeyedEntries(c, from, to, rs, front);
      assert rs + adds == rs + front + [r] && adds == front + [r];
      LoadAppend(rs + front, r);
      KeysOfMore(front, r);
      ResealIsQuiet(c, from, to, Load(rs), r);
    }
  }

  /** A live entry that is outstanding before is so after, unless its key was rekeyed. */
  lemma UnappliedAfterRekey(c: Crypto, from: Key, to: Key, rs: seq<Record<AppValue>>, adds: seq<Record<AppValue>>, k: string, routes: bool)
    requires Moves(AppSealing(), c, from, to, Load(rs), CONFIG, adds)
    ensures C.Unapplied(Load(rs + adds), k, routes, IsRekey) <==> C.Unapplied(Load(rs), k, routes, IsRekey) && k !in Keys(adds)
  {
    RekeyedEntries(c, from, to, rs, adds);
    assert C.LOADED_AT[0] == 'm' && C.STARTED_AT[0] == 'm';
    forall j | C.Applied(j) ensures !(CONFIG <= j) {
    }
  }

  /** An entry is outstanding whose key is not among those rekeyed: it was changed after
      every load and start, by the times in the log. */
  ghost predicate StillUnapplied(t: Table<AppValue>, rekeyed: set<string>, routes: bool) {
    exists k :: C.Unapplied(t, k, routes, IsRekey) && k !in rekeyed
  }

  /** The flag that a rekey leaves, if it last compacted the log after `m` appends (0: never). */
  ghost predicate FlagLeft(rs: seq<Record<AppValue>>, adds: seq<Record<AppValue>>, m: nat, routes: bool)
    requires m <= |adds|
  {
    if m == 0 then C.Flag(C.Changes(rs, IsRekey), routes) else StillUnapplied(Load(rs), Keys(adds[..m]), routes)
  }

  lemma TableOnceRekeyed(c: Crypto, from: Key, to: Key, rs: seq<Record<AppValue>>, adds: seq<Record<AppValue>>, routes: bool)
    requires Moves(AppSealing(), c, from, to, Load(rs), CONFIG, adds)
    ensures C.Flag(C.Changes(Backfill(Load(rs + adds)), IsRekey), routes) <==> StillUnapplied(Load(rs), Keys(adds), routes)
  {
    C.BackfillFlag(Load(rs + adds), routes, IsRekey);
    forall k ensures C.Unapplied(Load(rs + adds), k, routes, IsRekey) <==> C.Unapplied(Load(rs), k, routes, IsRekey) && k !in Keys(adds) {
      UnappliedAfterRekey(c, from, to, rs, adds, k, routes);
    }
  }

  lemma CompactedAfter(log: LogTab<AppValue>, rs: seq<Record<AppValue>>, adds: seq<Record<AppValue>>)
    requires log.compactHistory == 0 && adds != [] && log.LastCompaction(rs, adds) == |adds|
    ensures log.AfterAll(rs, adds) == Backfill(Load(rs + adds))
  {
    var all := log.AfterAll(rs, adds[..|adds| - 1]) + [adds[|adds| - 1]];
    log.AfterAllCompacted(rs, adds);
    CompactKeepsTable(all, 0);
    C.CompactedToNothing(all);
  }

  lemma FlagLeftByFewer(rs: seq<Record<AppValue>>, adds: seq<Record<AppValue>>, m: nat, routes: bool)
    requires m < |adds|
    ensures FlagLeft(rs, adds[..|adds| - 1], m, routes) <==> FlagLeft(rs, adds, m, routes)
  {
    assert adds[..|adds| - 1][..m] == adds[..m];
  }

  /** A flag after a rekey of an app's store. If no append brought on a compaction it is what
      it was. Otherwise it is up exactly when an entry of a key not rekeyed by the last
      compaction is outstanding. (An app's store keeps no history when it compacts.) */
  lemma {:induction false} FlagAfterRekey(log: LogTab<AppValue>, c: Crypto, from: Key, to: Key, rs: seq<Record<AppValue>>, adds: seq<Record<AppValue>>, routes: bool)
    requires log.compactHistory == 0 && Moves(AppSealing(), c, from, to, Load(rs), CONFIG, adds)
    ensures C.Flag(C.Changes(log.AfterAll(rs, adds), IsRekey), routes) <==> FlagLeft(rs, adds, log.LastCompaction(rs, adds), routes)
    decreases |adds|
  {
    if adds != [] {
      var front, r := adds[..|adds| - 1], adds[|adds| - 1];
      var m := log.LastCompaction(rs, adds);
      if m == |adds| {
        CompactedAfter(log, rs, adds);
        TableOnceRekeyed(c, from, to, rs, adds, routes);
        assert adds[..m] == adds;
      } else {
        log.AfterAllAppended(rs, adds);
        FlagAfterRekey(log, c, from, to, rs, front, routes);
        ResealKeepsFlags(c, from, to, Load(rs), log.AfterAll(rs, front), r);
        FlagLeftByFewer(rs, adds, m, routes);
      }
    }
  }

  /** In a log of sets whose changes are separated in time from loads and starts, a rekey
      keeps a flag exactly when it was down, or no append brought on a compaction, or a
      change that is outstanding and its key's last is of a key not rekeyed by then. */
  lemma RekeyKeepsFlagExactly(log: LogTab<AppValue>, c: Crypto, from: Key, to: Key, rs: seq<Record<AppValue>>, adds: seq<Record<AppValue>>, routes: bool)
    requires log.compactHistory == 0 && Moves(AppSealing(), c, from, to, Load(rs), CONFIG, adds)
    requires C.SetOnly(rs) && C.Separated(rs)
    ensures var m := log.LastCompaction(rs, adds);
            C.Flag(C.Changes(log.AfterAll(rs, adds), IsRekey), routes) == C.Flag(C.Changes(rs, IsRekey), routes) <==>
            || m == 0
            || !C.Flag(C.Changes(rs, IsRekey), routes)
            || exists i :: C.LastSet(rs, i) && C.Outstanding(rs, i, routes, IsRekey) && rs[i].key !in Keys(adds[..m])
  {
    var m := log.LastCompaction(rs, adds);
    FlagAfterRekey(log, c, from, to, rs, adds, routes);
    C.FlagMeans(rs, routes, IsRekey);
    if k :| C.Unapplied(Load(rs), k, routes, IsRekey) && k !in Keys(adds[..m]) {
      var i := C.TableEntryWasSet(rs, k);
      C.UnappliedIsOutstanding(rs, i, routes, IsRekey);
    }
    if i :| C.LastSet(rs, i) && C.Outstanding(rs, i, routes, IsRekey) && rs[i].key !in Keys(adds[..m]) {
      C.UnappliedIsOutstanding(rs, i, routes, IsRekey);
    }
  }

  // --- the length of a rekeyed secret ---------------------------------------------------------

  /** A config value as JSON, when its text needs no escapes: a rekeyed record has one field
      more. */
  function ConfigJson(secret: bool, text: string, rekey: bool): string {
    "{\"secret\":" + (if secret then "true" else "false") + ",\"value\":\"" + text + "\"" +
    (if rekey then ",\"rekey\":true" else "") + "}"
  }

  lemma ConfigJsonLength(secret: bool, text: string, rekey: bool)
    ensures |ConfigJson(secret, text, rekey)| == JsonLength(secret, |text|, rekey)
  {
  }

  /** How long that is. */
  function JsonLength(secret: bool, length: nat, rekey: bool): nat {
    (if secret then 26 else 27) + length + (if rekey then 13 else 0)
  }

  /** A Fernet token's length: its version, time, nonce, padded ciphertext and signature
      in base64. */
  function FernetLength(bytes: nat): nat {
    (57 + 16 * (bytes / 16 + 1) + 2) / 3 * 4
  }

  /** Encryption is Fernet's by its lengths, and a log takes a secret by the length of its
      JSON. (Plaintexts are bytes here.) */
  ghost predicate FernetStore(c: Crypto, fits: AppValue -> bool) {
    forall k, text {:trigger c.decrypt(k, text)} :: c.decrypt(k, text).Some? ==>
      && |text| == FernetLength(|c.decrypt(k, text).value|)
      && TakenByLength(fits, text)
  }

  predicate TakenByLength(fits: AppValue -> bool, text: string) {
    && (fits(Config(true, text, false)) <==> JsonLength(true, |text|, false) <= MAX_VAL_LENGTH)
    && (fits(Config(true, text, true)) <==> JsonLength(true, |text|, true) <= MAX_VAL_LENGTH)
  }

  /** A secret that fits a value as it is set but not as it is rekeyed. */
  predicate LongSecret(plain: string) { 1440 <= |plain| <= 1455 }

  lemma LongSecretLengths(bytes: nat)
    ensures JsonLength(true, FernetLength(bytes), false) <= MAX_VAL_LENGTH < JsonLength(true, FernetLength(bytes), true) <==>
            1440 <= bytes <= 1455
  {
    var blocks := bytes / 16 + 1;
    assert 1440 <= bytes <= 1455 <==> blocks == 91;
    if blocks <= 90 {
      assert FernetLength(bytes) <= 1996;
    } else if blocks >= 92 {
      assert FernetLength(bytes) >= 2040;
    }
  }

  /** A stored secret can be written again under another key exactly when it is not long. */
  lemma FitsAgain(c: Crypto, fits: AppValue -> bool, from: Key, to: Key, v: AppValue, text: string)
    requires FernetStore(c, fits) && fits(v) && Reads(AppSealing(), c, from, v).Some?
    requires c.decrypt(to, text) == Reads(AppSealing(), c, from, v)
    ensures fits(Config(true, text, true)) <==> !LongSecret(Reads(AppSealing(), c, from, v).value)
  {
    assert v == Config(true, v.value, v.rekey) && c.decrypt(from, v.value).Some?;
    LongSecretLengths(|c.decrypt(from, v.value).value|);
  }

  /** Secrets under a key's reading that are long. */
  ghost predicate HasLongSecret(c: Crypto, from: Key, t: Table<AppValue>) {
    exists k :: k in Readable(AppSealing(), c, from, t, CONFIG) && LongSecret(Reads(AppSealing(), c, from, t[k].value).value)
  }

  ghost predicate StoreFits<V>(fits: V -> bool, t: Table<V>) {
    forall k :: k in t ==> fits(t[k].value)
  }

  /** A rekey that is through has met no long secret, */
  lemma DoneMeansNoLong(c: Crypto, fits: AppValue -> bool, from: Key, to: Key, t: Table<AppValue>, adds: seq<Record<AppValue>>)
    requires FernetStore(c, fits) && StoreFits(fits, t) && Fit(fits, adds)
    requires Moves(AppSealing(), c, from, to, t, CONFIG, adds) && Accounted(AppSealing(), c, from, t, CONFIG, {}, adds)
    ensures !HasLongSecret(c, from, t)
  {
    forall k | k in Readable(AppSealing(), c, from, t, CONFIG) ensures !LongSecret(Reads(AppSealing(), c, from, t[k].value).value) {
      assert k in Keys(adds);
      var i :| 0 <= i < |adds| && adds[i].key == k;
      assert Reseals(AppSealing(), c, from, to, t, adds[i]);
      FitsAgain(c, fits, from, to, t[k].value, adds[i].value.value);
    }
  }

  /** and one that stopped has. */
  lemma StoppedMeansLong(c: Crypto, fits: AppValue -> bool, from: Key, to: Key, t: Table<AppValue>, k: string)
    requires Sound(c) && FernetStore(c, fits) && StoreFits(fits, t)
    requires TooLong(fits, AppSealing(), c, from, to, t, CONFIG, k)
    ensures HasLongSecret(c, from, t)
  {
    var plain := Reads(AppSealing(), c, from, t[k].value).value;
    var salt :| !fits(AppSealing().put(t[k].value, c.encrypt(to, plain, salt)));
    FitsAgain(c, fits, from, to, t[k].value, c.encrypt(to, plain, salt));
  }

  /** A secret of an app's store that the old key reads has become too long. */
  ghost predicate AppTooLong(log: LogTab<AppValue>, c: Crypto, from: Key, to: Key, rs: seq<Record<AppValue>>) {
    exists k :: TooLong(log.fits, AppSealing(), c, from, to, Load(rs), CONFIG, k)
  }

  /** AppStore.rekey_secrets. In a store whose values fit it is through exactly when no
      secret that the old key reads has 1440 to 1455 bytes. */
  method RekeyAppStore(log: LogTab<AppValue>, c: Crypto, from: Key, to: Key, clock: Clock)
      returns (done: bool, written: nat, unreadable: set<string>, ghost adds: seq<Record<AppValue>>)
    requires Sound(c) && KeysValid(log.records)
    modifies log`records
    ensures log.records == log.AfterAll(old(log.records), adds)
    ensures Moves(AppSealing(), c, from, to, old(Load(log.records)), CONFIG, adds)
    ensures written == |adds|
    ensures done ==> Rekeyed(AppSealing(), c, from, to, old(Load(log.records)), Load(log.records), CONFIG)
    ensures done ==> forall k :: k in unreadable <==> Unreadable(AppSealing(), c, from, old(Load(log.records)), CONFIG, k)
    ensures done ==> written == |Readable(AppSealing(), c, from, old(Load(log.records)), CONFIG)|
    ensures !done ==> AppTooLong(log, c, from, to, old(log.records))
    ensures FernetStore(c, log.fits) && StoreFits(log.fits, old(Load(log.records))) ==>
              (done <==> !HasLongSecret(c, from, old(Load(log.records))))
    ensures log.LastCompaction(old(log.records), adds) == 0 ==>
              C.Changes(log.records, IsRekey) == C.Changes(old(log.records), IsRekey)
  {
    ghost var rs := log.records;
    ghost var t := Load(rs);
    AppSealingLawful();
    done, written, unreadable, adds := RekeyPrefix(log, AppSealing(), c, from, to, CONFIG, clock);
    if FernetStore(c, log.fits) && StoreFits(log.fits, t) {
      if done {
        DoneMeansNoLong(c, log.fits, from, to, t, adds);
      } else {
        ghost var k :| TooLong(log.fits, AppSealing(), c, from, to, t, CONFIG, k);
        StoppedMeansLong(c, log.fits, from, to, t, k);
      }
    }
    assert Readable(AppSealing(), c, from, t, CONFIG) - {} == Readable(AppSealing(), c, from, t, CONFIG);
    if log.LastCompaction(rs, adds) == 0 {
      RekeyKeepsChanges(log, c, from, to, rs, adds);
    }
  }

  // --- a store on which it stops ------------------------------------------------------------

  /** A text of a Fernet token's length that holds the plaintext after its first '0'. */
  function Padded(plain: string): (text: string)
    ensures |text| == FernetLength(|plain|)
  {
    seq(FernetLength(|plain|) - |plain| - 1, i => '1') + ("0" + plain)
  }

  function Unpadded(text: string): Option<string> {
    var i := Text.IndexOf(text, '0');
    if i < |text| && |text| == FernetLength(|text| - i - 1) then Some(text[i + 1..]) else None
  }

  /** Stands for encryption by its lengths alone: every key reads what any key wrote. */
  function Padding(): Crypto {
    Crypto((k: Key, plain: string, salt: nat) => Padded(plain), (k: Key, text: string) => Unpadded(text))
  }

  /** validate_value of JSON, for values without escapes. */
  function FitsJson(v: AppValue): bool {
    match v
    case Config(secret, value, rekey) => JsonLength(secret, |value|, rekey) <= MAX_VAL_LENGTH
    case Other(json) => |json| <= MAX_VAL_LENGTH
  }

  lemma UnpadsPadded(plain: string)
    ensures Unpadded(Padded(plain)) == Some(plain)
  {
    var fill := FernetLength(|plain|) - |plain| - 1;
    var text := Padded(plain);
    assert text[fill] == '0' && forall i :: 0 <= i < fill ==> text[i] == '1';
    assert Text.IndexOf(text, '0') == fill;
    assert text[fill + 1..] == plain;
  }

  lemma PaddingIsFernetLike()
    ensures Sound(Padding()) && FernetStore(Padding(), FitsJson)
  {
    forall k: Key, plain, salt: nat ensures Padding().decrypt(k, Padding().encrypt(k, plain, salt)) == Some(plain) {
      UnpadsPadded(plain);
    }
  }

  lemma LongSecretFits(plain: string)
    requires |plain| == 1440
    ensures FernetLength(1440) == 2020 && FitsJson(Config(true, Padded(plain), false))
  {
  }

  lemma OneKeyValid()
    ensures ValidKey(CONFIG + "key")
  {
    var key := CONFIG + "key";
    forall i | 0 <= i < |key| ensures KeyChar(key[i]) {
      assert key[i] in CONFIG || key[i] in "key";
    }
  }

  /** Records that carry a rekey of an app's config through: each fits, moves a secret, and
      every secret that the old key reads is among them, once. */
  ghost predicate Completes(fits: AppValue -> bool, c: Crypto, from: Key, to: Key, t: Table<AppValue>, adds: seq<Record<AppValue>>) {
    && Fit(fits, adds) && Moves(AppSealing(), c, from, to, t, CONFIG, adds)
    && Accounted(AppSealing(), c, from, t, CONFIG, {}, adds)
  }

  lemma LongIsNeverCompleted(c: Crypto, fits: AppValue -> bool, from: Key, to: Key, t: Table<AppValue>, adds: seq<Record<AppValue>>)
    requires FernetStore(c, fits) && StoreFits(fits, t) && HasLongSecret(c, from, t)
    ensures !Completes(fits, c, from, to, t, adds)
  {
    if Completes(fits, c, from, to, t, adds) {
      DoneMeansNoLong(c, fits, from, to, t, adds);
    }
  }

  function LongPlain(): string {
    seq(1440, (i: nat) => 's')
  }

  /** A store with one secret of 1440 bytes, as set_config writes it. The record fits, the old
      key reads it, and no records can carry a rekey to any key through. */
  lemma LongSecretStopsRekey(ts: string) returns (rs: seq<Record<AppValue>>)
    ensures rs == [Record(ts, Set, CONFIG + "key", Config(true, Padded(LongPlain()), false))]
    ensures Sound(Padding()) && FernetStore(Padding(), FitsJson)
    ensures KeysValid(rs) && StoreFits(FitsJson, Load(rs))
    ensures Load(rs) == map[CONFIG + "key" := Entry(ts, rs[0].value)]
    ensures forall from :: GetConfig(Padding(), from, rs[0].value) == Some((true, LongPlain()))
    ensures forall from :: HasLongSecret(Padding(), from, Load(rs))
    ensures forall from, to, adds :: !Completes(FitsJson, Padding(), from, to, Load(rs), adds)
  {
    var key, v := CONFIG + "key", Config(true, Padded(LongPlain()), false);
    rs := [Record(ts, Set, key, v)];
    LoadAppend([], rs[0]);
    assert [] + rs == rs;
    var t := Load(rs);
    assert t == map[key := Entry(ts, v)];
    OneKeyValid();
    LongSecretFits(LongPlain());
    PaddingIsFernetLike();
    UnpadsPadded(LongPlain());
    assert CONFIG <= key by { assert key[..|CONFIG|] == CONFIG; }
    forall from ensures HasLongSecret(Padding(), from, t) {
      assert key in Readable(AppSealing(), Padding(), from, t, CONFIG);
    }
    forall from, to, adds ensures !Completes(FitsJson, Padding(), from, to, t, adds) {
      LongIsNeverCompleted(Padding(), FitsJson, from, to, t, adds);
    }
  }

  lemma {:induction false} RekeyKeepsChanges(log: LogTab<AppValue>, c: Crypto, from: Key, to: Key, rs: seq<Record<AppValue>>, adds: seq<Record<AppValue>>)
    requires log.LastCompaction(rs, adds) == 0 && Moves(AppSealing(), c, from, to, Load(rs), CONFIG, adds)
    ensures C.Changes(log.AfterAll(rs, adds), IsRekey) == C.Changes(rs, IsRekey)
    decreases |adds|
  {
    if adds != [] {
      RekeyKeepsChanges(log, c, from, to, rs, adds[..|adds| - 1]);
      ResealKeepsFlags(c, from, to, Load(rs), log.AfterAll(rs, adds[..|adds| - 1]), adds[|adds| - 1]);
    }
  }

  /** get_config: whether a value is a secret, and its plaintext. */
  function GetConfig(c: Crypto, k: Key, v: AppValue): Option<(bool, string)> {
    if !v.Config? then None
    else if !v.secret then Some((false, v.value))
    else
      match c.decrypt(k, v.value)
      case None => None
      case Some(plain) => Some((true, plain))
  }

  /** get_config gives back what set_config stored: a secret sealed, anything else as it is. */
  lemma GetUndoesSet(c: Crypto, k: Key, plain: string, salt: nat, rekey: bool)
    requires Sound(c)
    ensures GetConfig(c, k, Config(true, c.encrypt(k, plain, salt), rekey)) == Some((true, plain))
    ensures GetConfig(c, k, Config(false, plain, rekey)) == Some((false, plain))
  {
  }

  /** The key a config value is filed under. */
  lemma ConfigKeys(name: string)
    ensures var key := "config/" + name;
            !C.Applied(key) && C.ConfigKey(key) && (C.RouteKey(key) <==> "subdomain" <= name)
  {
    var key := "config/" + name;
    assert key[0] == 'c' && C.LOADED_AT[0] == 'm' && C.STARTED_AT[0] == 'm' && "routes/"[0] == 'r';
    assert key[7..] == name && key[..7] == "config/" && "config/subdomain" == "config/" + "subdomain";
    PrefixAfter("config/", "subdomain", name);
  }

  lemma PrefixAfter(p: string, a: string, b: string)
    ensures p + a <= p + b <==> a <= b
  {
    if p + a <= p + b { assert forall i :: 0 <= i < |a| ==> a[i] == (p + a)[|p| + i] == (p + b)[|p| + i] == b[i]; }
  }

  lemma FlagsAfter(rs: seq<Record<AppValue>>, r: Record<AppValue>)
    ensures C.Changes(rs + [r], IsRekey) == C.Seen(C.Changes(rs, IsRekey), r, IsRekey)
  {
    assert (rs + [r])[..|rs + [r]| - 1] == rs;
  }

  /** Setting a config value, secret or not, raises a flag: that of the routes for the
      subdomain, else that of the config. Sealing a secret again raises none. */
  lemma SettingRaisesFlag(rs: seq<Record<AppValue>>, ts: string, name: string, secret: bool, text: string)
    ensures C.Changes(rs + [Record(ts, Set, "config/" + name, Config(secret, text, false))], IsRekey) ==
            if "subdomain" <= name then C.Changes(rs, IsRekey).(routes := true) else C.Changes(rs, IsRekey).(config := true)
    ensures C.Changes(rs + [Record(ts, Set, "config/" + name, Config(true, text, true))], IsRekey) == C.Changes(rs, IsRekey)
  {
    ConfigKeys(name);
    FlagsAfter(rs, Record(ts, Set, "config/" + name, Config(secret, text, false)));
    FlagsAfter(rs, Record(ts, Set, "config/" + name, Config(true, text, true)));
  }

  /** What get_config gave with the old key it gives with the new one, for every config
      value the old key could read and every plain one. */
  lemma ConfigSurvivesRekey(c: Crypto, from: Key, to: Key, t: Table<AppValue>, t': Table<AppValue>, k: string)
    requires Rekeyed(AppSealing(), c, from, to, t, t', CONFIG)
    requires k in t && "config/" <= k && GetConfig(c, from, t[k].value).Some?
    ensures k in t' && GetConfig(c, to, t'[k].value) == GetConfig(c, from, t[k].value)
  {
    var v := t[k].value;
    if v.secret {
      assert Reads(AppSealing(), c, from, v).Some?;
      assert Moved(AppSealing(), c, from, to, v, t'[k].value);
    } else {
      assert Reads(AppSealing(), c, from, v) == None;
    }
  }

  // --- kelsodb --------------------------------------------------------------------------

  function KelsoSealing(): Sealing<KelsoValue> {
    Sealing((v: KelsoValue) => v.Sealed(), (v: KelsoValue, text: string) => v.With(text))
  }

  lemma KelsoSealingLawful()
    ensures Lawful(KelsoSealing())
  {
  }

  const SECRETS: string := "system/secrets/"
  const TOKENS: string := "system/tokens/"

  lemma PrefixesApart(k: string)
    ensures !(SECRETS <= k && TOKENS <= k)
  {
    assert SECRETS[7] == 's' && TOKENS[7] == 't';
  }

  /** What rekeying kelsodb makes of its table: secrets and tokens the old key reads are
      moved, a token's expiry is kept, and everything else is as it was. */
  ghost predicate KelsoRekeyed(c: Crypto, from: Key, to: Key, t: Table<KelsoValue>, t': Table<KelsoValue>) {
    && t'.Keys == t.Keys
    && forall k :: k in t ==>
         if ("system/secrets/" <= k || "system/tokens/" <= k) && Reads(KelsoSealing(), c, from, t[k].value).Some?
         then && Reads(KelsoSealing(), c, to, t'[k].value) == Reads(KelsoSealing(), c, from, t[k].value)
              && (t[k].value.Secret? ==> t'[k].value.Secret?)
              && (t[k].value.Token? ==> t'[k].value.Token? && t'[k].value.exp == t[k].value.exp)
         else t'[k] == t[k]
  }

  /** get_secret and get_token, of an unexpired token. */
  function GetSecret(c: Crypto, k: Key, v: KelsoValue): Option<string> {
    match v
    case Secret(blob) => c.decrypt(k, blob)
    case _ => None
  }

  function GetToken(c: Crypto, k: Key, v: KelsoValue): Option<(string, int)> {
    match v
    case Token(tok, exp) => (match c.decrypt(k, tok) case None => None case Some(plain) => Some((plain, exp)))
    case _ => None
  }

  /** What they gave with the old key they give with the new one. */
  lemma KelsoSurvivesRekey(c: Crypto, from: Key, to: Key, t: Table<KelsoValue>, t': Table<KelsoValue>, k: string)
    requires KelsoRekeyed(c, from, to, t, t') && k in t
    ensures k in t'
    ensures "system/secrets/" <= k && GetSecret(c, from, t[k].value).Some? ==>
              GetSecret(c, to, t'[k].value) == GetSecret(c, from, t[k].value)
    ensures "system/tokens/" <= k && GetToken(c, from, t[k].value).Some? ==> GetToken(c, to, t'[k].value) == GetToken(c, from, t[k].value)
  {
  }

  lemma BothPrefixes(c: Crypto, from: Key, to: Key, t: Table<KelsoValue>, mid: Table<KelsoValue>, t': Table<KelsoValue>)
    requires Rekeyed(KelsoSealing(), c, from, to, t, mid, SECRETS)
    requires Rekeyed(KelsoSealing(), c, from, to, mid, t', TOKENS)
    ensures KelsoRekeyed(c, from, to, t, t')
    ensures forall k :: Unreadable(KelsoSealing(), c, from, mid, TOKENS, k) <==> Unreadable(KelsoSealing(), c, from, t, TOKENS, k)
  {
    forall k | k in t && TOKENS <= k ensures mid[k] == t[k] {
      PrefixesApart(k);
    }
    forall k | k in t && SECRETS <= k ensures t'[k] == mid[k] {
      PrefixesApart(k);
    }
  }

  /** The tokens' pass finds the tokens as the secrets' pass found them. */
  lemma BothPassesReseal(c: Crypto, from: Key, to: Key, t: Table<KelsoValue>, mid: Table<KelsoValue>, a: seq<Record<KelsoValue>>, b: seq<Record<KelsoValue>>)
    requires Rekeyed(KelsoSealing(), c, from, to, t, mid, SECRETS)
    requires Moves(KelsoSealing(), c, from, to, t, SECRETS, a) && Moves(KelsoSealing(), c, from, to, mid, TOKENS, b)
    ensures AllReseal(KelsoSealing(), c, from, to, t, a + b)
  {
    forall i | 0 <= i < |b| ensures Reseals(KelsoSealing(), c, from, to, t, b[i]) {
      assert Reseals(KelsoSealing(), c, from, to, mid, b[i]);
      PrefixesApart(b[i].key);
    }
  }

  lemma TokensUntouched(c: Crypto, from: Key, to: Key, t: Table<KelsoValue>, mid: Table<KelsoValue>)
    requires Rekeyed(KelsoSealing(), c, from, to, t, mid, SECRETS)
    ensures Readable(KelsoSealing(), c, from, mid, TOKENS) == Readable(KelsoSealing(), c, from, t, TOKENS)
  {
    forall k | k in t && TOKENS <= k ensures mid[k] == t[k] {
      PrefixesApart(k);
    }
  }

  /** The secrets and tokens of kelsodb that a key cannot read. */
  ghost predicate KelsoUnreadable(c: Crypto, from: Key, t: Table<KelsoValue>, k: string) {
    Unreadable(KelsoSealing(), c, from, t, SECRETS, k) || Unreadable(KelsoSealing(), c, from, t, TOKENS, k)
  }

  function KelsoReadable(c: Crypto, from: Key, t: Table<KelsoValue>): nat {
    |Readable(KelsoSealing(), c, from, t, SECRETS)| + |Readable(KelsoSealing(), c, from, t, TOKENS)|
  }

  /** A secret or token of kelsodb that the old key reads has become too long. */
  ghost predicate KelsoTooLong(fits: KelsoValue -> bool, c: Crypto, from: Key, to: Key, t: Table<KelsoValue>) {
    || (exists k :: TooLong(fits, KelsoSealing(), c, from, to, t, SECRETS, k))
    || (exists k :: TooLong(fits, KelsoSealing(), c, from, to, t, TOKENS, k))
  }

  lemma TooLongAsBefore(fits: KelsoValue -> bool, c: Crypto, from: Key, to: Key, t: Table<KelsoValue>, mid: Table<KelsoValue>)
    requires Rekeyed(KelsoSealing(), c, from, to, t, mid, SECRETS)
    requires exists k :: TooLong(fits, KelsoSealing(), c, from, to, mid, TOKENS, k)
    ensures KelsoTooLong(fits, c, from, to, t)
  {
    var k :| TooLong(fits, KelsoSealing(), c, from, to, mid, TOKENS, k);
    PrefixesApart(k);
    assert mid[k] == t[k];
    TokensUntouched(c, from, to, t, mid);
    assert TooLong(fits, KelsoSealing(), c, from, to, t, TOKENS, k);
  }

  /** A secret and a token of kelsodb as JSON, when their texts need no escapes. */
  function SecretJson(text: string): string { "\"" + text + "\"" }

  function TokenJson(text: string, exp: int): string {
    "{\"tok\":\"" + text + "\",\"exp\":" + (if exp < 0 then "-" + Decimal.Numeral(-exp) else Decimal.Numeral(exp)) + "}"
  }

  lemma KelsoJsonLengths(text: string, exp: int)
    ensures |SecretJson(text)| == SecretLength(|text|) && |TokenJson(text, exp)| == TokenLength(|text|, exp)
  {
  }

  /** How long those are. */
  function SecretLength(length: nat): nat {
    2 + length
  }

  function TokenLength(length: nat, exp: int): nat {
    17 + length + if exp < 0 then 1 + |Decimal.Numeral(-exp)| else |Decimal.Numeral(exp)|
  }

  ghost predicate KelsoTakenByLength(fits: KelsoValue -> bool, text: string) {
    && (fits(Secret(text)) <==> SecretLength(|text|) <= MAX_VAL_LENGTH)
    && forall exp :: fits(Token(text, exp)) <==> TokenLength(|text|, exp) <= MAX_VAL_LENGTH
  }

  /** Encryption is Fernet's by its lengths, and kelsodb takes what it holds by the length
      of its JSON. */
  ghost predicate FernetKelso(c: Crypto, fits: KelsoValue -> bool) {
    forall k, text {:trigger c.decrypt(k, text)} :: c.decrypt(k, text).Some? ==>
      && |text| == FernetLength(|c.decrypt(k, text).value|)
      && KelsoTakenByLength(fits, text)
  }

  /** Sealed again a value of kelsodb has its old length: no field is added to it. */
  lemma KelsoFitsAgain(c: Crypto, fits: KelsoValue -> bool, from: Key, to: Key, v: KelsoValue, salt: nat)
    requires Sound(c) && FernetKelso(c, fits) && fits(v) && Reads(KelsoSealing(), c, from, v).Some?
    ensures fits(v.With(c.encrypt(to, Reads(KelsoSealing(), c, from, v).value, salt)))
  {
    var plain := Reads(KelsoSealing(), c, from, v).value;
    var was, text := v.Sealed().value, c.encrypt(to, plain, salt);
    assert c.decrypt(from, was) == Some(plain) && c.decrypt(to, text) == Some(plain);
    assert v.Token? ==> (fits(Token(was, v.exp)) <==> fits(Token(text, v.exp)));
  }

  /** So a store whose values fit has none that becomes too long. */
  lemma KelsoNeverTooLong(c: Crypto, fits: KelsoValue -> bool, from: Key, to: Key, t: Table<KelsoValue>)
    requires Sound(c) && FernetKelso(c, fits) && StoreFits(fits, t)
    ensures !KelsoTooLong(fits, c, from, to, t)
  {
    forall prefix, k ensures !TooLong(fits, KelsoSealing(), c, from, to, t, prefix, k) {
      if k in Readable(KelsoSealing(), c, from, t, prefix) {
        forall salt: nat ensures fits(KelsoSealing().put(t[k].value, c.encrypt(to, Reads(KelsoSealing(), c, from, t[k].value).value, salt))) {
          KelsoFitsAgain(c, fits, from, to, t[k].value, salt);
        }
      }
    }
  }

  lemma BothCounted(c: Crypto, from: Key, to: Key, t: Table<KelsoValue>, mid: Table<KelsoValue>, a: seq<Record<KelsoValue>>, b: seq<Record<KelsoValue>>)
    requires Rekeyed(KelsoSealing(), c, from, to, t, mid, SECRETS)
    requires Accounted(KelsoSealing(), c, from, t, SECRETS, {}, a) && Accounted(KelsoSealing(), c, from, mid, TOKENS, {}, b)
    ensures |a| + |b| == KelsoReadable(c, from, t)
  {
    TokensUntouched(c, from, to, t, mid);
    NothingLeft(Readable(KelsoSealing(), c, from, t, SECRETS));
    NothingLeft(Readable(KelsoSealing(), c, from, mid, TOKENS));
  }

  /** KelsoStore.rekey_secrets: the secrets, then the tokens. `adds` are the records that the
      two passes appended. Of a store whose values fit it is always through. */
  method RekeyKelsoStore(log: LogTab<KelsoValue>, c: Crypto, from: Key, to: Key, clock: Clock)
      returns (done: bool, written: nat, unreadable: set<string>, ghost adds: seq<Record<KelsoValue>>)
    requires Sound(c) && KeysValid(log.records)
    modifies log`records
    ensures log.records == log.AfterAll(old(log.records), adds)
    ensures AllReseal(KelsoSealing(), c, from, to, old(Load(log.records)), adds)
    ensures written == |adds|
    ensures done ==> KelsoRekeyed(c, from, to, old(Load(log.records)), Load(log.records))
    ensures done ==> forall k :: k in unreadable <==> KelsoUnreadable(c, from, old(Load(log.records)), k)
    ensures done ==> written == KelsoReadable(c, from, old(Load(log.records)))
    ensures !done ==> KelsoTooLong(log.fits, c, from, to, old(Load(log.records)))
    ensures FernetKelso(c, log.fits) && StoreFits(log.fits, old(Load(log.records))) ==> done
  {
    KelsoSealingLawful();
    ghost var rs, t := log.records, Load(log.records);
    if FernetKelso(c, log.fits) && StoreFits(log.fits, t) {
      KelsoNeverTooLong(c, log.fits, from, to, t);
    }
    var readSecrets, w1, u1, adds1 := RekeyPrefix(log, KelsoSealing(), c, from, to, SECRETS, clock);
    if !readSecrets {
      return false, w1, u1, adds1;
    }
    ghost var mid := Load(log.records);
    var readTokens, w2, u2, adds2 := RekeyPrefix(log, KelsoSealing(), c, from, to, TOKENS, (n: nat) => clock(w1 + n));
    done, written, unreadable, adds := readTokens, w1 + w2, u1 + u2, adds1 + adds2;
    BothPassesReseal(c, from, to, t, mid, adds1, adds2);
    log.AfterAllConcat(rs, adds1, adds2);
    if done {
      BothPrefixes(c, from, to, t, mid, Load(log.records));
      BothCounted(c, from, to, t, mid, adds1, adds2);
    } else {
      TooLongAsBefore(log.fits, c, from, to, t, mid);
    }
  }

  lemma NothingLeft(s: set<string>)
    ensures s - {} == s
  {
  }

  // --- every store ----------------------------------------------------------------------

  /** What rekey reports: how many stores and values, and for each app and then kelsodb
      what the old key could not read. */
  datatype RekeyResult = RekeyResult(apps: nat, values: nat, unreadable: seq<set<string>>, kelsoUnreadable: set<string>)

  /** How many records there are in all. */
  function Count<V>(adds: seq<seq<Record<V>>>): nat {
    if adds == [] then 0 else Count(adds[..|adds| - 1]) + |adds[|adds| - 1]|
  }

  function Lengths<V>(adds: seq<seq<Record<V>>>): seq<nat> {
    seq(|adds|, i requires 0 <= i < |adds| => |adds[i]|)
  }

  /** All that was written to an app's store are these records, each moving a secret. */
  ghost predicate Wrote(log: LogTab<AppValue>, c: Crypto, from: Key, to: Key, was: seq<Record<AppValue>>, now_: seq<Record<AppValue>>, adds: seq<Record<AppValue>>) {
    now_ == log.AfterAll(was, adds) && AllReseal(AppSealing(), c, from, to, Load(was), adds)
  }

  /** A store of Fernet tokens whose values fit. */
  ghost predicate InOrder(log: LogTab<AppValue>, c: Crypto, was: seq<Record<AppValue>>) {
    FernetStore(c, log.fits) && StoreFits(log.fits, Load(was))
  }

  /** In such a store the old key reads no long secret. */
  ghost predicate NoneLong(log: LogTab<AppValue>, c: Crypto, from: Key, was: seq<Record<AppValue>>) {
    InOrder(log, c, was) ==> !HasLongSecret(c, from, Load(was))
  }

  lemma TooLongIsLong(log: LogTab<AppValue>, c: Crypto, from: Key, to: Key, was: seq<Record<AppValue>>)
    requires Sound(c) && InOrder(log, c, was) && AppTooLong(log, c, from, to, was)
    ensures HasLongSecret(c, from, Load(was))
  {
    var k :| TooLong(log.fits, AppSealing(), c, from, to, Load(was), CONFIG, k);
    StoppedMeansLong(c, log.fits, from, to, Load(was), k);
  }

  /** The store is rekeyed, and `unreadable` is what could not be. */
  ghost predicate StoreRekeyed(c: Crypto, from: Key, to: Key, was: seq<Record<AppValue>>, now_: seq<Record<AppValue>>, unreadable: set<string>) {
    && Rekeyed(AppSealing(), c, from, to, Load(was), Load(now_), CONFIG)
    && forall k :: k in unreadable <==> Unreadable(AppSealing(), c, from, Load(was), CONFIG, k)
  }

  /** What a turn leaves of a store: rekeyed, if it was gone through, which then had no
      long secret. */
  ghost predicate Turn(log: LogTab<AppValue>, c: Crypto, from: Key, to: Key, was: seq<Record<AppValue>>, now_: seq<Record<AppValue>>,
                       adds: seq<Record<AppValue>>, unreadable: Option<set<string>>) {
    && Wrote(log, c, from, to, was, now_, adds)
    && (unreadable.Some? ==> StoreRekeyed(c, from, to, was, now_, unreadable.value) && NoneLong(log, c, from, was))
  }

  /** What a rekey has come to in one store. */
  datatype Account = Account(now_: seq<Record<AppValue>>, adds: seq<Record<AppValue>>, unreadable: Option<set<string>>)

  ghost predicate Accounts(stores: seq<LogTab<AppValue>>, c: Crypto, from: Key, to: Key, was: seq<seq<Record<AppValue>>>, book: seq<Account>) {
    && |was| == |book| == |stores|
    && forall i :: 0 <= i < |book| ==> Turn(stores[i], c, from, to, was[i], book[i].now_, book[i].adds, book[i].unreadable)
  }

  lemma AccountOne(stores: seq<LogTab<AppValue>>, c: Crypto, from: Key, to: Key, was: seq<seq<Record<AppValue>>>, book: seq<Account>, n: nat, a: Account)
    requires Accounts(stores, c, from, to, was, book) && n < |stores|
    requires Turn(stores[n], c, from, to, was[n], a.now_, a.adds, a.unreadable)
    ensures Accounts(stores, c, from, to, was, book[n := a])
  {
  }

  lemma AccountNone(stores: seq<LogTab<AppValue>>, c: Crypto, from: Key, to: Key, was: seq<seq<Record<AppValue>>>)
    requires |was| == |stores|
    ensures Accounts(stores, c, from, to, was, Opened(was))
  {
  }

  /** The records appended to each store. */
  function Appended(book: seq<Account>): seq<seq<Record<AppValue>>> {
    seq(|book|, i requires 0 <= i < |book| => book[i].adds)
  }

  /** The accounts before anything is written. */
  ghost function Opened(was: seq<seq<Record<AppValue>>>): seq<Account> {
    seq(|was|, i requires 0 <= i < |was| => Account(was[i], [], None))
  }

  /** The accounts once `n` stores have had their turn, with what was written in all. */
  ghost predicate Books(stores: seq<LogTab<AppValue>>, c: Crypto, from: Key, to: Key, was: seq<seq<Record<AppValue>>>, book: seq<Account>, n: nat, values: nat) {
    && Accounts(stores, c, from, to, was, book) && values == Count(Appended(book))
    && forall i :: n <= i < |book| ==> book[i] == Account(was[i], [], None)
  }

  lemma BooksOpened(stores: seq<LogTab<AppValue>>, c: Crypto, from: Key, to: Key, was: seq<seq<Record<AppValue>>>)
    requires |was| == |stores|
    ensures Books(stores, c, from, to, was, Opened(was), 0, 0)
  {
    AccountNone(stores, c, from, to, was);
    assert Appended(Opened(was)) == seq(|was|, i => []);
    CountNone<AppValue>(|was|);
  }

  lemma BooksTurn(stores: seq<LogTab<AppValue>>, c: Crypto, from: Key, to: Key, was: seq<seq<Record<AppValue>>>, book: seq<Account>, n: nat, values: nat, a: Account)
    requires Books(stores, c, from, to, was, book, n, values) && n < |stores|
    requires Turn(stores[n], c, from, to, was[n], a.now_, a.adds, a.unreadable)
    ensures Books(stores, c, from, to, was, book[n := a], n + 1, values + |a.adds|)
  {
    AccountOne(stores, c, from, to, was, book, n, a);
    CountSet(Appended(book), n, a.adds);
    assert Appended(book[n := a]) == Appended(book)[n := a.adds];
  }

  /** What could not be read in the first `n` stores. */
  predicate Read(book: seq<Account>, n: nat, unreadable: seq<set<string>>) {
    |unreadable| == n <= |book| && forall i :: 0 <= i < n ==> book[i].unreadable == Some(unreadable[i])
  }

  lemma ReadTurn(book: seq<Account>, n: nat, unreadable: seq<set<string>>, a: Account)
    requires Read(book, n, unreadable) && n < |book|
    ensures a.unreadable.Some? ==> Read(book[n := a], n + 1, unreadable + [a.unreadable.value])
  {
  }

  /** One turn of the loop over the apps' stores. */
  method RekeyStore(stores: seq<LogTab<AppValue>>, n: nat, c: Crypto, from: Key, to: Key, clock: Clock, values: nat, read: seq<set<string>>,
                    ghost was: seq<seq<Record<AppValue>>>, ghost book: seq<Account>)
      returns (done: bool, written: nat, unreadable: set<string>, ghost a: Account)
    requires Sound(c) && n < |stores| && Books(stores, c, from, to, was, book, n, values) && Read(book, n, read)
    requires stores[n].records == was[n] && KeysValid(was[n])
    modifies stores[n]
    ensures a.now_ == stores[n].records && Books(stores, c, from, to, was, book[n := a], n + 1, values + written)
    ensures done ==> Read(book[n := a], n + 1, read + [unreadable])
    ensures !done ==> AppTooLong(stores[n], c, from, to, was[n])
  {
    ghost var adds;
    done, written, unreadable, adds := RekeyAppStore(stores[n], c, from, to, clock);
    a := Account(stores[n].records, adds, if done then Some(unreadable) else None);
    BooksTurn(stores, c, from, to, was, book, n, values, a);
    ReadTurn(book, n, read, a);
  }

  /** The loop over the apps' stores: how many values were written and which could not be
      read, up to where a secret has become too long (a ValueError). `was` is what each
      store held. */
  method RekeyApps(stores: seq<LogTab<AppValue>>, c: Crypto, from: Key, to: Key, clock: (nat, nat) -> string, ghost was: seq<seq<Record<AppValue>>>)
      returns (done: bool, values: nat, unreadable: seq<set<string>>, ghost book: seq<Account>)
    requires Sound(c)
    requires forall i, j :: 0 <= i < j < |stores| ==> stores[i] != stores[j]
    requires |was| == |stores| && forall i :: 0 <= i < |stores| ==> stores[i].records == was[i] && KeysValid(was[i])
    modifies stores
    ensures Accounts(stores, c, from, to, was, book) && forall i :: 0 <= i < |stores| ==> stores[i].records == book[i].now_
    ensures values == Count(Appended(book))
    ensures done ==> Read(book, |stores|, unreadable)
    ensures !done ==> exists i :: 0 <= i < |stores| && AppTooLong(stores[i], c, from, to, was[i])
  {
    done, values, unreadable := true, 0, [];
    book := Opened(was);
    BooksOpened(stores, c, from, to, was);
    var n := 0;
    while n < |stores| && done
      invariant n <= |stores| && Books(stores, c, from, to, was, book, n, values)
      invariant forall i :: 0 <= i < |stores| ==> stores[i].records == book[i].now_
      invariant done ==> Read(book, n, unreadable)
      invariant !done ==> exists i :: 0 <= i < |stores| && AppTooLong(stores[i], c, from, to, was[i])
      decreases |stores| - n
    {
      var through, w, u, a := RekeyStore(stores, n, c, from, to, (k: nat) => clock(n, k), values, unreadable, was, book);
      book := book[n := a];
      done, values := through, values + w;
      if done {
        unreadable := unreadable + [u];
      }
      n := n + 1;
    }
  }

  lemma {:induction false} CountNone<V>(n: nat)
    ensures Count<V>(seq(n, i => [])) == 0
  {
    if n > 0 {
      CountNone<V>(n - 1);
      assert seq<seq<Record<V>>>(n, i => [])[..n - 1] == seq(n - 1, i => []);
    }
  }

  lemma {:induction false} CountSet<V>(adds: seq<seq<Record<V>>>, n: nat, more: seq<Record<V>>)
    requires n < |adds| && adds[n] == []
    ensures Count(adds[n := more]) == Count(adds) + |more|
    decreases |adds|
  {
    var front := adds[..|adds| - 1];
    if n < |adds| - 1 {
      CountSet(front, n, more);
      assert adds[n := more][..|adds| - 1] == front[n := more];
    } else {
      assert adds[n := more][..|adds| - 1] == front;
    }
  }

  /** Every store holds Fernet tokens and values that fit. */
  ghost predicate AllInOrder(stores: seq<LogTab<AppValue>>, kelso: LogTab<KelsoValue>, c: Crypto, was: seq<seq<Record<AppValue>>>, db: seq<Record<KelsoValue>>) {
    && |was| == |stores| && (forall i :: 0 <= i < |stores| ==> InOrder(stores[i], c, was[i]))
    && FernetKelso(c, kelso.fits) && StoreFits(kelso.fits, Load(db))
  }

  /** Some app's store has a long secret. */
  ghost predicate SomeLong(c: Crypto, from: Key, was: seq<seq<Record<AppValue>>>) {
    exists i :: 0 <= i < |was| && HasLongSecret(c, from, Load(was[i]))
  }

  lemma StoppedAtLong(stores: seq<LogTab<AppValue>>, kelso: LogTab<KelsoValue>, c: Crypto, from: Key, to: Key, was: seq<seq<Record<AppValue>>>, db: seq<Record<KelsoValue>>)
    requires Sound(c) && AllInOrder(stores, kelso, c, was, db)
    requires exists i :: 0 <= i < |stores| && AppTooLong(stores[i], c, from, to, was[i])
    ensures SomeLong(c, from, was)
  {
    var i :| 0 <= i < |stores| && AppTooLong(stores[i], c, from, to, was[i]);
    TooLongIsLong(stores[i], c, from, to, was[i]);
  }

  lemma ReadToTheEnd(stores: seq<LogTab<AppValue>>, kelso: LogTab<KelsoValue>, c: Crypto, from: Key, to: Key, was: seq<seq<Record<AppValue>>>, db: seq<Record<KelsoValue>>,
                     book: seq<Account>, unreadable: seq<set<string>>)
    requires AllInOrder(stores, kelso, c, was, db)
    requires Accounts(stores, c, from, to, was, book) && Read(book, |stores|, unreadable)
    ensures !SomeLong(c, from, was)
  {
    forall i | 0 <= i < |was| ensures !HasLongSecret(c, from, Load(was[i])) {
      assert NoneLong(stores[i], c, from, was[i]);
    }
  }

  /** rekey: each app's store in turn, then kelsodb. It ends where a secret has become too
      long (a ValueError): with Fernet's lengths, and stores whose values fit, exactly when an
      app has a secret of 1440 to 1455 bytes that the old key reads. `book` says what it came to in each app's store, which held `was`;
      `kelsoAdds` are the records appended to kelsodb. */
  method RekeyAll(stores: seq<LogTab<AppValue>>, kelso: LogTab<KelsoValue>, c: Crypto, from: Key, to: Key, clock: (nat, nat) -> string,
                  ghost was: seq<seq<Record<AppValue>>>)
      returns (r: Option<RekeyResult>, ghost book: seq<Account>, ghost kelsoAdds: seq<Record<KelsoValue>>)
    requires Sound(c)
    requires forall i, j :: 0 <= i < j < |stores| ==> stores[i] != stores[j]
    requires |was| == |stores| && forall i :: 0 <= i < |stores| ==> stores[i].records == was[i] && KeysValid(was[i])
    requires KeysValid(kelso.records)
    modifies stores, kelso
    ensures Accounts(stores, c, from, to, was, book) && forall i :: 0 <= i < |stores| ==> stores[i].records == book[i].now_
    ensures kelso.records == kelso.AfterAll(old(kelso.records), kelsoAdds)
    ensures AllReseal(KelsoSealing(), c, from, to, old(Load(kelso.records)), kelsoAdds)
    ensures r.Some? ==> r.value.apps == |stores| == |r.value.unreadable|
    ensures r.Some? ==> r.value.values == Count(Appended(book)) + |kelsoAdds|
    ensures r.Some? ==> forall i :: 0 <= i < |stores| ==> StoreRekeyed(c, from, to, was[i], stores[i].records, r.value.unreadable[i])
    ensures r.Some? ==> KelsoRekeyed(c, from, to, old(Load(kelso.records)), Load(kelso.records))
    ensures r.Some? ==> forall k :: k in r.value.kelsoUnreadable <==> KelsoUnreadable(c, from, old(Load(kelso.records)), k)
    ensures r == None ==>
              || (exists i :: 0 <= i < |stores| && AppTooLong(stores[i], c, from, to, was[i]))
              || KelsoTooLong(kelso.fits, c, from, to, old(Load(kelso.records)))
    ensures AllInOrder(stores, kelso, c, was, old(kelso.records)) ==> (r.Some? <==> !SomeLong(c, from, was))
  {
    kelsoAdds := [];
    ghost var db := kelso.records;
    var through, values, unreadable, accounts := RekeyApps(stores, c, from, to, clock, was);
    book := accounts;
    if !through {
      if AllInOrder(stores, kelso, c, was, db) {
        StoppedAtLong(stores, kelso, c, from, to, was, db);
      }
      return None, book, kelsoAdds;
    }
    if AllInOrder(stores, kelso, c, was, db) {
      ReadToTheEnd(stores, kelso, c, from, to, was, db, book, unreadable);
    }
    var done, w, u, more := RekeyKelsoStore(kelso, c, from, to, (n: nat) => clock(|stores|, n));
    kelsoAdds := more;
    if !done {
      return None, book, kelsoAdds;
    }
    r := Some(RekeyResult(|stores|, values + w, unreadable, u));
  }

  // --- a rekey that dies ------------------------------------------------------------------------

  function Total(ns: seq<nat>): nat {
    if ns == [] then 0 else Total(ns[..|ns| - 1]) + ns[|ns| - 1]
  }

  /** Of the first `n` appends of a rekey, how many went to log `i`: the logs are written
      one after the other. */
  function Share(lengths: seq<nat>, i: nat, n: nat): (k: nat)
    requires i < |lengths|
    ensures k <= lengths[i]
  {
    var before := Total(lengths[..i]);
    if n <= before then 0 else if n - before < lengths[i] then n - before else lengths[i]
  }

  lemma {:induction false} TotalGrows(ns: seq<nat>, i: nat, j: nat)
    requires i <= j <= |ns|
    ensures Total(ns[..i]) <= Total(ns[..j])
    decreases j
  {
    if i < j {
      assert ns[..j][..j - 1] == ns[..j - 1];
      TotalGrows(ns, i, j - 1);
    }
  }

  /** No log is written before those ahead of it are done. */
  lemma SharesInTurn(lengths: seq<nat>, i: nat, j: nat, n: nat)
    requires i < j < |lengths| && Share(lengths, j, n) > 0
    ensures Share(lengths, i, n) == lengths[i]
  {
    assert lengths[..i + 1][..i] == lengths[..i];
    TotalGrows(lengths, i + 1, j);
  }

  /** The shares of the first `n` appends are `n` in all. */
  lemma {:induction false} SharesAddUp(lengths: seq<nat>, n: nat, m: nat)
    requires m <= |lengths|
    ensures Total(seq(m, i requires 0 <= i < m => Share(lengths, i, n))) == if n < Total(lengths[..m]) then n else Total(lengths[..m])
    decreases m
  {
    var shares := seq(m, i requires 0 <= i < m => Share(lengths, i, n));
    if m > 0 {
      SharesAddUp(lengths, n, m - 1);
      assert shares[..m - 1] == seq(m - 1, i requires 0 <= i < m - 1 => Share(lengths, i, n));
      assert lengths[..m][..m - 1] == lengths[..m - 1];
    }
  }

  /** A rekey that dies after any number of its appends, in whatever store: in every store
      each value is as it was or has its secret moved, and where no append brought on a
      compaction, cutting the log back to its old length restores it. */
  lemma AnyStopIsReadable(stores: seq<LogTab<AppValue>>, kelso: LogTab<KelsoValue>, c: Crypto, from: Key, to: Key,
                          apps: seq<seq<Record<AppValue>>>, db: seq<Record<KelsoValue>>,
                          appAdds: seq<seq<Record<AppValue>>>, kelsoAdds: seq<Record<KelsoValue>>, n: nat)
    requires |stores| == |apps| == |appAdds|
    requires forall i :: 0 <= i < |apps| ==> AllReseal(AppSealing(), c, from, to, Load(apps[i]), appAdds[i])
    requires AllReseal(KelsoSealing(), c, from, to, Load(db), kelsoAdds)
    ensures var lengths := Lengths(appAdds) + [|kelsoAdds|];
            && (forall i :: 0 <= i < |stores| ==>
                  Readily(stores[i], AppSealing(), c, from, to, apps[i], appAdds[i], Share(lengths, i, n)))
            && Readily(kelso, KelsoSealing(), c, from, to, db, kelsoAdds, Share(lengths, |stores|, n))
  {
    var lengths := Lengths(appAdds) + [|kelsoAdds|];
    forall i | 0 <= i < |stores|
      ensures Readily(stores[i], AppSealing(), c, from, to, apps[i], appAdds[i], Share(lengths, i, n))
    {
      AnyPrefixIsReadable(stores[i], AppSealing(), c, from, to, apps[i], appAdds[i], Share(lengths, i, n));
    }
    AnyPrefixIsReadable(kelso, KelsoSealing(), c, from, to, db, kelsoAdds, Share(lengths, |stores|, n));
  }
}
