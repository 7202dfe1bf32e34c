/** Which backups the keep policy wants, and that it does not matter when the others
    are forgotten (kelso/lib/backup.py). */
module Retention {
  import opened Orders
  import opened Sums

  datatype Reason = Scheduled | Manual | Update | PreRestore | OtherReason(text: string)

  /** A backup is named by its run, which is when it began; later runs have greater names. */
  datatype Backup = Backup(run: string, time: string, reason: Reason)

  datatype BackupKeep = BackupKeep(daily: nat, weekly: nat, monthly: nat, manual: nat)

  /** The day, week and month of a backup's time (strftime of three formats). */
  datatype Periods = Periods(day: string -> string, week: string -> string, month: string -> string)

  predicate Newer(a: Backup, b: Backup) {
    a.run != b.run && LexLeq(b.run, a.run)
  }

  /** A later run comes after in the order of strings: where the two first differ it has the
      greater character, or it goes on where the other ends. */
  lemma NewerMeans(a: Backup, b: Backup)
    ensures Newer(a, b) <==> ComesAfter(a.run, b.run)
  {
    LexMeans(b.run, a.run);
  }

  lemma NewerTotal(a: Backup, b: Backup)
    requires a.run != b.run
    ensures Newer(a, b) <==> !Newer(b, a)
  {
    LexTotal(a.run, b.run);
  }

  lemma NewerTransitive(a: Backup, b: Backup, c: Backup)
    requires Newer(a, b) && Newer(b, c)
    ensures Newer(a, c)
  {
    LexTransitive(c.run, b.run, a.run);
    LexTotal(a.run, b.run);
    LexTotal(b.run, c.run);
  }

  /** One owner's backups: no two of the same run. */
  predicate OneRunEach(s: set<Backup>) {
    forall a, b :: a in s && b in s && a.run == b.run ==> a == b
  }

  // --- one selection ----------------------------------------------------------------------

  /** A selection keeps, of the backups taken for one reason, the newest in each of the
      newest `count` buckets. */
  datatype Selection = Selection(reason: Reason, bucket: Backup -> string, count: nat)

  /** The buckets that have a backup newer than `x`. */
  function NewerBuckets(s: set<Backup>, sel: Selection, x: Backup): set<string> {
    set y | y in s && y.reason == sel.reason && Newer(y, x) :: sel.bucket(y)
  }

  predicate Picked(s: set<Backup>, sel: Selection, x: Backup) {
    && x in s && x.reason == sel.reason
    && sel.bucket(x) !in NewerBuckets(s, sel, x)
    && |NewerBuckets(s, sel, x)| < sel.count
  }

  function Picks(s: set<Backup>, sel: Selection): set<Backup> {
    set x | x in s && Picked(s, sel, x)
  }

  lemma NewerBucketsMonotone(a: set<Backup>, b: set<Backup>, sel: Selection, x: Backup)
    requires b <= a
    ensures NewerBuckets(b, sel, x) <= NewerBuckets(a, sel, x)
    ensures |NewerBuckets(b, sel, x)| <= |NewerBuckets(a, sel, x)|
  {
    SubsetSize(NewerBuckets(b, sel, x), NewerBuckets(a, sel, x));
  }

  /** What is wanted among many is wanted among fewer. */
  lemma PickedAmongFewer(a: set<Backup>, b: set<Backup>, sel: Selection, x: Backup)
    requires b <= a && x in b && Picked(a, sel, x)
    ensures Picked(b, sel, x)
  {
    NewerBucketsMonotone(a, b, sel, x);
  }

  lemma {:induction false} NewestOf(s: set<Backup>) returns (x: Backup)
    requires s != {} && OneRunEach(s)
    ensures x in s && forall y :: y in s && y != x ==> Newer(x, y)
    decreases |s|
  {
    x :| x in s;
    if s - {x} != {} {
      var z := NewestOf(s - {x});
      NewerTotal(x, z);
      if Newer(x, z) {
        forall y | y in s && y != x ensures Newer(x, y) {
          if y != z { NewerTransitive(x, z, y); }
        }
      } else {
        x := z;
      }
    }
  }

  lemma {:induction false} OldestOf(s: set<Backup>) returns (x: Backup)
    requires s != {} && OneRunEach(s)
    ensures x in s && forall y :: y in s && y != x ==> Newer(y, x)
    decreases |s|
  {
    x :| x in s;
    if s - {x} != {} {
      var z := OldestOf(s - {x});
      NewerTotal(x, z);
      if Newer(z, x) {
        forall y | y in s && y != x ensures Newer(y, x) {
          if y != z { NewerTransitive(y, z, x); }
        }
      } else {
        x := z;
      }
    }
  }

  /** What is older has at least the same newer buckets. */
  lemma NewerBucketsGrow(s: set<Backup>, sel: Selection, y: Backup, x: Backup)
    requires Newer(y, x)
    ensures NewerBuckets(s, sel, y) <= NewerBuckets(s, sel, x)
  {
    forall b | b in NewerBuckets(s, sel, y) ensures b in NewerBuckets(s, sel, x) {
      var z :| z in s && z.reason == sel.reason && Newer(z, y) && sel.bucket(z) == b;
      NewerTransitive(z, y, x);
    }
  }

  /** While no more than `count` buckets are newer, each of them has its newest picked. */
  lemma FewBucketsPicked(s: set<Backup>, sel: Selection, x: Backup)
    requires OneRunEach(s) && |NewerBuckets(s, sel, x)| <= sel.count
    ensures NewerBuckets(Picks(s, sel), sel, x) == NewerBuckets(s, sel, x)
  {
    NewerBucketsMonotone(s, Picks(s, sel), sel, x);
    forall b | b in NewerBuckets(s, sel, x) ensures b in NewerBuckets(Picks(s, sel), sel, x) {
      var inBucket := set y | y in s && y.reason == sel.reason && Newer(y, x) && sel.bucket(y) == b;
      var y0 :| y0 in s && y0.reason == sel.reason && Newer(y0, x) && sel.bucket(y0) == b;
      assert y0 in inBucket;
      var y := NewestOf(inBucket);
      assert b !in NewerBuckets(s, sel, y) by {
        if b in NewerBuckets(s, sel, y) {
          var z :| z in s && z.reason == sel.reason && Newer(z, y) && sel.bucket(z) == b;
          NewerTransitive(z, y, x);
          assert z in inBucket;
          NewerTotal(z, y);
        }
      }
      NewerBucketsGrow(s, sel, y, x);
      SubsetSize(NewerBuckets(s, sel, y) + {b}, NewerBuckets(s, sel, x));
      assert Picked(s, sel, y);
    }
  }

  /** When `count` buckets or more are newer, so are `count` picks. */
  lemma {:induction false} ManyBucketsPicked(s: set<Backup>, sel: Selection, x: Backup)
    requires OneRunEach(s) && |NewerBuckets(s, sel, x)| >= sel.count
    ensures |NewerBuckets(Picks(s, sel), sel, x)| >= sel.count
    decreases |set y | y in s && y.reason == sel.reason && Newer(y, x)|
  {
    if |NewerBuckets(s, sel, x)| == sel.count {
      FewBucketsPicked(s, sel, x);
    } else {
      var newer := set y | y in s && y.reason == sel.reason && Newer(y, x);
      assert |NewerBuckets(s, sel, x)| > 0;
      var b :| b in NewerBuckets(s, sel, x);
      var y0 :| y0 in s && y0.reason == sel.reason && Newer(y0, x) && sel.bucket(y0) == b;
      assert y0 in newer;
      var z := OldestOf(newer);
      OldestCovers(s, sel, x, z);
      var newerStill := set y | y in s && y.reason == sel.reason && Newer(y, z);
      assert newerStill <= newer - {z} by {
        forall y | y in newerStill ensures y in newer - {z} {
          NewerTransitive(y, z, x);
        }
      }
      SubsetSize(newerStill, newer - {z});
      ManyBucketsPicked(s, sel, z);
      NewerBucketsGrow(Picks(s, sel), sel, z, x);
      SubsetSize(NewerBuckets(Picks(s, sel), sel, z), NewerBuckets(Picks(s, sel), sel, x));
    }
  }

  lemma OldestCovers(s: set<Backup>, sel: Selection, x: Backup, z: Backup)
    requires |NewerBuckets(s, sel, x)| > sel.count
    requires forall y :: y in s && y.reason == sel.reason && Newer(y, x) && y != z ==> Newer(y, z)
    ensures |NewerBuckets(s, sel, z)| >= sel.count
  {
    assert NewerBuckets(s, sel, x) <= NewerBuckets(s, sel, z) + {sel.bucket(z)};
    SubsetSize(NewerBuckets(s, sel, x), NewerBuckets(s, sel, z) + {sel.bucket(z)});
  }

  /** Dropping backups a selection does not pick changes nothing of what it picks. */
  lemma PicksIgnoreDropped(a: set<Backup>, b: set<Backup>, sel: Selection)
    requires OneRunEach(a) && Picks(a, sel) <= b <= a
    ensures Picks(b, sel) == Picks(a, sel)
  {
    forall x | x in Picks(a, sel) ensures x in Picks(b, sel) {
      PickedAmongFewer(a, b, sel, x);
    }
    forall x | x in Picks(b, sel) ensures x in Picks(a, sel) {
      NewerBucketsMonotone(b, Picks(a, sel), sel, x);
      if |NewerBuckets(a, sel, x)| >= sel.count {
        ManyBucketsPicked(a, sel, x);
      } else {
        FewBucketsPicked(a, sel, x);
      }
    }
  }

  // --- the policy ---------------------------------------------------------------------------

  /** The selections of a policy: by day, week and month for scheduled backups, and by
      count, each in a bucket of its own, for the rest. */
  function Policy(keep: BackupKeep, p: Periods): seq<Selection> {
    Dated(keep, p) + Counted(keep)
  }

  function Dated(keep: BackupKeep, p: Periods): seq<Selection> {
    [ Selection(Scheduled, (b: Backup) => p.day(b.time), keep.daily),
      Selection(Scheduled, (b: Backup) => p.week(b.time), keep.weekly),
      Selection(Scheduled, (b: Backup) => p.month(b.time), keep.monthly) ]
  }

  function Counted(keep: BackupKeep): seq<Selection> {
    [ Selection(Manual, (b: Backup) => b.run, keep.manual),
      Selection(Update, (b: Backup) => b.run, 1),
      Selection(PreRestore, (b: Backup) => b.run, 1) ]
  }

  /** What any of the selections picks. */
  function Kept(s: set<Backup>, sels: seq<Selection>): set<Backup> {
    if sels == [] then {} else Picks(s, sels[0]) + Kept(s, sels[1..])
  }

  lemma {:induction false} KeptIsSubset(s: set<Backup>, sels: seq<Selection>)
    ensures Kept(s, sels) <= s
  {
    if sels != [] { KeptIsSubset(s, sels[1..]); }
  }

  lemma {:induction false} KeptAmongFewer(a: set<Backup>, b: set<Backup>, sels: seq<Selection>)
    requires b <= a
    ensures Kept(a, sels) * b <= Kept(b, sels)
  {
    if sels != [] {
      KeptAmongFewer(a, b, sels[1..]);
      forall x | x in Picks(a, sels[0]) && x in b ensures x in Picks(b, sels[0]) {
        PickedAmongFewer(a, b, sels[0], x);
      }
    }
  }

  lemma {:induction false} KeptIgnoresDropped(a: set<Backup>, b: set<Backup>, sels: seq<Selection>)
    requires OneRunEach(a) && Kept(a, sels) <= b <= a
    ensures Kept(b, sels) == Kept(a, sels)
  {
    if sels != [] {
      PicksIgnoreDropped(a, b, sels[0]);
      KeptIgnoresDropped(a, b, sels[1..]);
    }
  }

  /** Retention is path independent: forgetting what is expired before more backups are
      taken leaves what forgetting afterwards leaves. */
  lemma PathIndependent(s: set<Backup>, t: set<Backup>, sels: seq<Selection>)
    requires OneRunEach(s + t)
    ensures Kept(Kept(s, sels) + t, sels) == Kept(s + t, sels)
  {
    KeptIsSubset(s, sels);
    KeptIsSubset(s + t, sels);
    KeptAmongFewer(s + t, s, sels);
    KeptIgnoresDropped(s + t, Kept(s, sels) + t, sels);
  }

  /** Forgetting again forgets nothing more. */
  lemma KeptIdempotent(s: set<Backup>, sels: seq<Selection>)
    requires OneRunEach(s)
    ensures Kept(Kept(s, sels), sels) == Kept(s, sels)
  {
    assert s + {} == s && Kept(s, sels) + {} == Kept(s, sels);
    PathIndependent(s, {}, sels);
  }

  /** A run of the backup job: the backups it takes, and whether it forgets afterwards. */
  datatype Job = Job(taken: set<Backup>, forgets: bool)

  function Repository(s: set<Backup>, jobs: seq<Job>, sels: seq<Selection>): set<Backup> {
    if jobs == [] then s
    else
      var j := jobs[|jobs| - 1];
      var all := Repository(s, jobs[..|jobs| - 1], sels) + j.taken;
      if j.forgets then Kept(all, sels) else all
  }

  function Taken(s: set<Backup>, jobs: seq<Job>): set<Backup> {
    if jobs == [] then s else Taken(s, jobs[..|jobs| - 1]) + jobs[|jobs| - 1].taken
  }

  lemma {:induction false} RepositoryIsSubset(s: set<Backup>, jobs: seq<Job>, sels: seq<Selection>)
    ensures Repository(s, jobs, sels) <= Taken(s, jobs)
  {
    if jobs != [] {
      RepositoryIsSubset(s, jobs[..|jobs| - 1], sels);
      KeptIsSubset(Repository(s, jobs[..|jobs| - 1], sels) + jobs[|jobs| - 1].taken, sels);
    }
  }

  lemma OneRunEachFewer(a: set<Backup>, b: set<Backup>)
    requires OneRunEach(a) && b <= a
    ensures OneRunEach(b)
  {
  }

  /** Forgetting after every run, after some of them or once at the end leaves the same
      backups: those the policy wants among all that were ever taken. */
  lemma {:induction false} WhenToForgetDoesNotMatter(s: set<Backup>, jobs: seq<Job>, sels: seq<Selection>)
    requires OneRunEach(Taken(s, jobs))
    ensures Kept(Repository(s, jobs, sels), sels) == Kept(Taken(s, jobs), sels)
    ensures jobs != [] && jobs[|jobs| - 1].forgets ==> Repository(s, jobs, sels) == Kept(Taken(s, jobs), sels)
  {
    if jobs != [] {
      var front, j := jobs[..|jobs| - 1], jobs[|jobs| - 1];
      var r, all := Repository(s, front, sels), Taken(s, front);
      OneRunEachFewer(Taken(s, jobs), all);
      WhenToForgetDoesNotMatter(s, front, sels);
      RepositoryIsSubset(s, front, sels);
      OneRunEachFewer(Taken(s, jobs), r + j.taken);
      PathIndependent(r, j.taken, sels);
      PathIndependent(all, j.taken, sels);
      KeptIdempotent(r + j.taken, sels);
    }
  }

  // --- the loops ------------------------------------------------------------------------------

  predicate NewestFirst(xs: seq<Backup>) {
    forall i, j :: 0 <= i < j < |xs| ==> Newer(xs[i], xs[j])
  }

  function Members(xs: seq<Backup>): set<Backup> { set x | x in xs }

  function Buckets(xs: seq<Backup>, sel: Selection): set<string> {
    set x | x in xs :: sel.bucket(x)
  }

  /** Of backups newest first, those before one are those newer than it. */
  lemma NewerAreBefore(s: set<Backup>, sel: Selection, xs: seq<Backup>, i: nat)
    requires NewestFirst(xs) && i < |xs|
    requires forall x :: x in xs <==> x in s && x.reason == sel.reason
    ensures NewerBuckets(s, sel, xs[i]) == Buckets(xs[..i], sel)
  {
    forall y | y in s && y.reason == sel.reason && Newer(y, xs[i]) ensures y in xs[..i] {
      var k :| 0 <= k < |xs| && xs[k] == y;
      if k > i { NewerTotal(xs[i], y); }
    }
    forall y | y in xs[..i] ensures y in s && y.reason == sel.reason && Newer(y, xs[i]) {
      var k :| 0 <= k < i && xs[k] == y;
      assert y in xs;
    }
  }

  /** `xs` lists the backups of a selection's reason, newest first. */
  ghost predicate ListsNewestFirst(xs: seq<Backup>, s: set<Backup>, sel: Selection) {
    NewestFirst(xs) && forall x :: x in xs <==> x in s && x.reason == sel.reason
  }

  /** One step of a pass: when its backup is picked, and what it adds. */
  lemma PassStep(s: set<Backup>, xs: seq<Backup>, sel: Selection, i: nat)
    requires ListsNewestFirst(xs, s, sel) && i < |xs|
    ensures var seen := Buckets(xs[..i], sel);
            && (Picked(s, sel, xs[i]) <==> sel.bucket(xs[i]) !in seen && |seen| < sel.count)
            && Buckets(xs[..i + 1], sel) == seen + {sel.bucket(xs[i])}
            && RunsPicked(s, sel, xs[..i + 1]) ==
               RunsPicked(s, sel, xs[..i]) + if Picked(s, sel, xs[i]) then {xs[i].run} else {}
  {
    NewerAreBefore(s, sel, xs, i);
    RunsPickedStep(s, sel, xs, i);
    assert xs[i] in xs;
    BucketsStep(xs, sel, i);
  }

  lemma BucketsStep(xs: seq<Backup>, sel: Selection, i: nat)
    requires i < |xs|
    ensures Buckets(xs[..i + 1], sel) == Buckets(xs[..i], sel) + {sel.bucket(xs[i])}
  {
    assert xs[..i + 1] == xs[..i] + [xs[i]];
    assert forall x :: x in xs[..i + 1] <==> x in xs[..i] || x == xs[i];
  }

  /** The runs a selection picks. */
  function PickedRuns(s: set<Backup>, sel: Selection): set<string> {
    set x | x in Picks(s, sel) :: x.run
  }

  /** One pass over the backups of a reason, newest first. */
  method SelectRuns(ghost s: set<Backup>, xs: seq<Backup>, sel: Selection) returns (kept: set<string>)
    requires ListsNewestFirst(xs, s, sel)
    ensures kept == PickedRuns(s, sel)
  {
    kept := {};
    var seen: set<string> := {};
    for i := 0 to |xs|
      invariant seen == Buckets(xs[..i], sel) && |seen| <= sel.count
      invariant kept == RunsPicked(s, sel, xs[..i])
    {
      PassStep(s, xs, sel, i);
      var bucket := sel.bucket(xs[i]);
      if bucket !in seen {
        if |seen| == sel.count {
          NothingPickedLater(s, sel, xs, i);
          return;
        }
        kept := kept + {xs[i].run};
      }
      seen := seen + {bucket};
    }
    AllPicked(s, sel, xs, |xs|);
  }

  lemma AllPicked(s: set<Backup>, sel: Selection, xs: seq<Backup>, n: nat)
    requires n == |xs| && ListsNewestFirst(xs, s, sel)
    ensures RunsPicked(s, sel, xs[..n]) == PickedRuns(s, sel)
  {
    assert xs[..n] == xs;
    AllPickedHere(s, sel, xs);
  }

  /** Where every backup is a bucket of its own, the first `count` are picked. */
  lemma FirstOnes(s: set<Backup>, xs: seq<Backup>, sel: Selection)
    requires ListsNewestFirst(xs, s, sel) && OwnBucketEach(sel)
    ensures var n := if sel.count < |xs| then sel.count else |xs|;
            (set x | x in xs[..n] :: x.run) == PickedRuns(s, sel)
  {
    var n := if sel.count < |xs| then sel.count else |xs|;
    forall i | 0 <= i < |xs| ensures Picked(s, sel, xs[i]) <==> i < n {
      PassStep(s, xs, sel, i);
      OwnBuckets(xs, sel, i);
      OwnBucketIsNew(xs, sel, i);
    }
    forall x ensures x in xs[..n] <==> x in Picks(s, sel) {
      if x in Picks(s, sel) {
        var k :| 0 <= k < |xs| && xs[k] == x;
      }
      if x in xs[..n] { assert x in xs; }
    }
  }

  lemma OwnBucketIsNew(xs: seq<Backup>, sel: Selection, i: nat)
    requires NewestFirst(xs) && i < |xs| && OwnBucketEach(sel)
    ensures sel.bucket(xs[i]) !in Buckets(xs[..i], sel)
  {
    forall x | x in xs[..i] ensures sel.bucket(x) != sel.bucket(xs[i]) {
      var k :| 0 <= k < i && xs[k] == x;
      assert Newer(xs[k], xs[i]);
    }
  }

  lemma OwnBuckets(xs: seq<Backup>, sel: Selection, i: nat)
    requires NewestFirst(xs) && i <= |xs| && OwnBucketEach(sel)
    ensures |Buckets(xs[..i], sel)| == i
  {
    var some := xs[..i];
    assert forall j, k :: 0 <= j < k < i ==> some[j] == xs[j] && some[k] == xs[k] && Newer(xs[j], xs[k]);
    ListingSize(some, Members(some));
    AsManyRuns(Members(some));
    assert Buckets(some, sel) == set x | x in Members(some) :: x.run;
  }

  function RunsPicked(s: set<Backup>, sel: Selection, xs: seq<Backup>): set<string> {
    set x | x in xs && Picked(s, sel, x) :: x.run
  }

  lemma RunsPickedStep(s: set<Backup>, sel: Selection, xs: seq<Backup>, i: nat)
    requires i < |xs|
    ensures RunsPicked(s, sel, xs[..i + 1]) ==
            RunsPicked(s, sel, xs[..i]) + if Picked(s, sel, xs[i]) then {xs[i].run} else {}
  {
    assert xs[..i + 1] == xs[..i] + [xs[i]];
    assert xs[i] in xs[..i + 1];
    forall x | x in xs[..i] ensures x in xs[..i + 1] {
    }
  }

  lemma AllPickedHere(s: set<Backup>, sel: Selection, xs: seq<Backup>)
    requires forall x :: x in xs <==> x in s && x.reason == sel.reason
    ensures RunsPicked(s, sel, xs) == PickedRuns(s, sel)
  {
    forall x ensures x in Picks(s, sel) <==> x in xs && Picked(s, sel, x) {
    }
    assert forall x :: x in xs && Picked(s, sel, x) ==> x in Picks(s, sel);
    forall r | r in RunsPicked(s, sel, xs) ensures r in PickedRuns(s, sel) {
      var x :| x in xs && Picked(s, sel, x) && x.run == r;
      assert x in Picks(s, sel);
    }
  }

  /** Once `count` buckets have been seen nothing further on is picked. */
  lemma NothingPickedLater(s: set<Backup>, sel: Selection, xs: seq<Backup>, i: nat)
    requires ListsNewestFirst(xs, s, sel) && i < |xs|
    requires |Buckets(xs[..i], sel)| == sel.count
    ensures RunsPicked(s, sel, xs[..i]) == PickedRuns(s, sel)
  {
    forall j | i <= j < |xs| ensures !Picked(s, sel, xs[j]) {
      NewerAreBefore(s, sel, xs, j);
      assert forall x :: x in xs[..i] ==> x in xs[..j];
      SubsetSize(Buckets(xs[..i], sel), Buckets(xs[..j], sel));
    }
    forall x | x in xs && Picked(s, sel, x) ensures x in xs[..i] {
      var k :| 0 <= k < |xs| && xs[k] == x;
    }
    assert forall x :: x in xs[..i] ==> x in xs;
    assert RunsPicked(s, sel, xs[..i]) == RunsPicked(s, sel, xs);
    AllPickedHere(s, sel, xs);
  }

  // --- expired --------------------------------------------------------------------------------

  predicate DistinctRuns(xs: seq<Backup>) {
    forall i, j :: 0 <= i < j < |xs| ==> xs[i].run != xs[j].run
  }

  /** sorted(..., key=run, reverse=True) of backups with distinct runs, by insertion. */
  method SortNewestFirst(xs: seq<Backup>) returns (out: seq<Backup>)
    requires DistinctRuns(xs)
    ensures NewestFirst(out) && forall x :: x in out <==> x in xs
  {
    out := [];
    for i := 0 to |xs|
      invariant NewestFirst(out) && forall x :: x in out <==> x in xs[..i]
    {
      assert xs[..i + 1] == xs[..i] + [xs[i]];
      forall x | x in out ensures x.run != xs[i].run {
        var k :| 0 <= k < i && xs[..i][k] == x;
      }
      out := InsertNewest(out, xs[i]);
    }
    assert xs[..|xs|] == xs;
  }

  method InsertNewest(xs: seq<Backup>, x: Backup) returns (out: seq<Backup>)
    requires NewestFirst(xs) && forall y :: y in xs ==> y.run != x.run
    ensures NewestFirst(out) && forall y :: y in out <==> y == x || y in xs
  {
    var i := 0;
    while i < |xs| && Newer(xs[i], x)
      invariant 0 <= i <= |xs| && forall k :: 0 <= k < i ==> Newer(xs[k], x)
    {
      i := i + 1;
    }
    forall k | i <= k < |xs| ensures Newer(x, xs[k]) {
      NewerTotal(x, xs[i]);
      if k > i { NewerTransitive(x, xs[i], xs[k]); }
    }
    out := xs[..i] + [x] + xs[i..];
  }

  function OfReason(xs: seq<Backup>, reason: Reason): (r: seq<Backup>)
    ensures forall x :: x in r <==> x in xs && x.reason == reason
  {
    if xs == [] then []
    else
      assert forall x :: x in xs <==> x == xs[0] || x in xs[1..];
      (if xs[0].reason == reason then [xs[0]] else []) + OfReason(xs[1..], reason)
  }

  lemma {:induction false} OfReasonSorted(xs: seq<Backup>, reason: Reason)
    requires NewestFirst(xs)
    ensures NewestFirst(OfReason(xs, reason))
  {
    if xs != [] {
      OfReasonSorted(xs[1..], reason);
      var rest := OfReason(xs[1..], reason);
      forall k | 0 <= k < |rest| ensures Newer(xs[0], rest[k]) {
        assert rest[k] in xs[1..];
      }
    }
  }

  function Without(xs: seq<Backup>, runs: set<string>): seq<Backup> {
    if xs == [] then []
    else (if xs[0].run in runs then [] else [xs[0]]) + Without(xs[1..], runs)
  }

  /** The runs the three selections of scheduled backups pick. */
  method ScheduledRuns(ghost s: set<Backup>, newestFirst: seq<Backup>, sels: seq<Selection>) returns (kept: set<string>)
    requires NewestFirst(newestFirst) && (forall x :: x in newestFirst <==> x in s)
    requires forall k :: 0 <= k < |sels| ==> sels[k].reason == Scheduled
    ensures kept == RunsOf(Kept(s, sels))
  {
    kept := {};
    var scheduled := OfReason(newestFirst, Scheduled);
    OfReasonSorted(newestFirst, Scheduled);
    for k := 0 to |sels|
      invariant kept == RunsOf(Kept(s, sels[..k]))
    {
      var runs := SelectRuns(s, scheduled, sels[k]);
      KeptStep(s, sels, k);
      kept := kept + runs;
    }
    assert sels[..|sels|] == sels;
  }

  /** The runs picked by count alone. */
  method CountedRuns(ghost s: set<Backup>, newestFirst: seq<Backup>, sels: seq<Selection>) returns (kept: set<string>)
    requires NewestFirst(newestFirst) && (forall x :: x in newestFirst <==> x in s)
    requires forall k :: 0 <= k < |sels| ==> OwnBucketEach(sels[k])
    ensures kept == RunsOf(Kept(s, sels))
  {
    kept := {};
    for k := 0 to |sels|
      invariant kept == RunsOf(Kept(s, sels[..k]))
    {
      var ofReason := OfReason(newestFirst, sels[k].reason);
      OfReasonSorted(newestFirst, sels[k].reason);
      assert OwnBucketEach(sels[k]);
      FirstOnes(s, ofReason, sels[k]);
      KeptStep(s, sels, k);
      var first := ofReason[..if sels[k].count < |ofReason| then sels[k].count else |ofReason|];
      kept := kept + set x | x in first :: x.run;
    }
    assert sels[..|sels|] == sels;
  }

  ghost predicate OwnBucketEach(sel: Selection) {
    forall x :: sel.bucket(x) == x.run
  }

  lemma KeptHead(s: set<Backup>, sel: Selection, rest: seq<Selection>)
    ensures Kept(s, [sel] + rest) == Picks(s, sel) + Kept(s, rest)
  {
    assert ([sel] + rest)[1..] == rest;
  }

  lemma UnionAssoc<T>(a: set<T>, b: set<T>, c: set<T>)
    ensures a + b + c == a + (b + c)
  {
  }

  lemma {:induction false} KeptConcat(s: set<Backup>, a: seq<Selection>, b: seq<Selection>)
    ensures Kept(s, a + b) == Kept(s, a) + Kept(s, b)
  {
    if a == [] {
      assert a + b == b;
    } else {
      var sel, rest := a[0], a[1..];
      assert a == [sel] + rest && a + b == [sel] + (rest + b);
      KeptHead(s, sel, rest);
      KeptHead(s, sel, rest + b);
      KeptConcat(s, rest, b);
      UnionAssoc(Picks(s, sel), Kept(s, rest), Kept(s, b));
    }
  }

  lemma RunsConcat(a: set<Backup>, b: set<Backup>)
    ensures RunsOf(a + b) == RunsOf(a) + RunsOf(b)
  {
  }

  // --- what is kept, backup by backup ---------------------------------------------------------

  /** The backups of the same reason that are newer. */
  function NewerOnes(s: set<Backup>, b: Backup): set<Backup> {
    set y | y in s && y.reason == b.reason && Newer(y, b)
  }

  /** The newest of its period, with fewer than `count` periods that have newer ones. */
  predicate NewestOfRecent(s: set<Backup>, b: Backup, period: string -> string, count: nat) {
    && (forall y :: y in NewerOnes(s, b) ==> period(y.time) != period(b.time))
    && |set y | y in NewerOnes(s, b) :: period(y.time)| < count
  }

  /** What the keep policy wants: of the scheduled backups the newest of each of the last
      days, weeks and months that have one, the last manual ones, and the last one from
      before an update and a restore. */
  predicate Wanted(s: set<Backup>, b: Backup, keep: BackupKeep, p: Periods) {
    match b.reason
    case Scheduled =>
      || NewestOfRecent(s, b, p.day, keep.daily)
      || NewestOfRecent(s, b, p.week, keep.weekly)
      || NewestOfRecent(s, b, p.month, keep.monthly)
    case Manual => |NewerOnes(s, b)| < keep.manual
    case Update => NewerOnes(s, b) == {}
    case PreRestore => NewerOnes(s, b) == {}
    case OtherReason(_) => false
  }

  lemma PickedByPeriod(s: set<Backup>, sel: Selection, b: Backup, period: string -> string)
    requires b in s && b.reason == sel.reason && forall x: Backup :: sel.bucket(x) == period(x.time)
    ensures b in Picks(s, sel) <==> NewestOfRecent(s, b, period, sel.count)
  {
    assert NewerBuckets(s, sel, b) == set y | y in NewerOnes(s, b) :: period(y.time);
  }

  lemma {:induction false} AsManyRuns(xs: set<Backup>)
    requires OneRunEach(xs)
    ensures |set x | x in xs :: x.run| == |xs|
    decreases |xs|
  {
    if xs != {} {
      var x :| x in xs;
      AsManyRuns(xs - {x});
      assert (set y | y in xs :: y.run) == (set y | y in xs - {x} :: y.run) + {x.run};
    }
  }

  lemma PickedByCount(s: set<Backup>, sel: Selection, b: Backup)
    requires OneRunEach(s) && b in s && b.reason == sel.reason && OwnBucketEach(sel)
    ensures b in Picks(s, sel) <==> |NewerOnes(s, b)| < sel.count
  {
    AsManyRuns(NewerOnes(s, b));
    assert NewerBuckets(s, sel, b) == set y | y in NewerOnes(s, b) :: y.run;
  }

  lemma KeptOfThree(s: set<Backup>, x: Selection, y: Selection, z: Selection)
    ensures Kept(s, [x, y, z]) == Picks(s, x) + Picks(s, y) + Picks(s, z)
  {
    KeptHead(s, x, [y, z]);
    KeptHead(s, y, [z]);
    KeptHead(s, z, []);
    assert [x] + [y, z] == [x, y, z] && [y] + [z] == [y, z] && [z] + [] == [z];
  }

  lemma DatedKeeps(s: set<Backup>, b: Backup, keep: BackupKeep, p: Periods)
    requires b in s
    ensures b in Kept(s, Dated(keep, p)) <==>
            && b.reason == Scheduled
            && (NewestOfRecent(s, b, p.day, keep.daily) || NewestOfRecent(s, b, p.week, keep.weekly) || NewestOfRecent(s, b, p.month, keep.monthly))
  {
    var d := Dated(keep, p);
    KeptOfThree(s, d[0], d[1], d[2]);
    assert d == [d[0], d[1], d[2]];
    if b.reason == Scheduled {
      PickedByPeriod(s, d[0], b, p.day);
      PickedByPeriod(s, d[1], b, p.week);
      PickedByPeriod(s, d[2], b, p.month);
    }
  }

  lemma CountedKeeps(s: set<Backup>, b: Backup, keep: BackupKeep)
    requires OneRunEach(s) && b in s
    ensures b in Kept(s, Counted(keep)) <==>
            match b.reason
            case Manual => |NewerOnes(s, b)| < keep.manual
            case Update => NewerOnes(s, b) == {}
            case PreRestore => NewerOnes(s, b) == {}
            case _ => false
  {
    var c := Counted(keep);
    KeptOfThree(s, c[0], c[1], c[2]);
    assert c == [c[0], c[1], c[2]];
    forall i | 0 <= i < 3 && b.reason == c[i].reason ensures b in Picks(s, c[i]) <==> |NewerOnes(s, b)| < c[i].count {
      PickedByCount(s, c[i], b);
    }
  }

  /** The selections of the policy keep exactly the backups it wants. */
  lemma PolicyWants(s: set<Backup>, b: Backup, keep: BackupKeep, p: Periods)
    requires OneRunEach(s)
    ensures b in Kept(s, Policy(keep, p)) <==> b in s && Wanted(s, b, keep, p)
  {
    KeptIsSubset(s, Policy(keep, p));
    if b in s {
      KeptConcat(s, Dated(keep, p), Counted(keep));
      DatedKeeps(s, b, keep, p);
      CountedKeeps(s, b, keep);
    }
  }

  /** `part` is `whole` with some left out. */
  predicate PartOf(part: seq<Backup>, whole: seq<Backup>)
    decreases |whole|
  {
    if part == [] then true
    else if whole == [] then false
    else (part[0] == whole[0] && PartOf(part[1..], whole[1..])) || PartOf(part, whole[1..])
  }

  lemma {:induction false} WithoutIsPart(xs: seq<Backup>, runs: set<string>)
    ensures PartOf(Without(xs, runs), xs)
  {
    if xs != [] {
      WithoutIsPart(xs[1..], runs);
      var rest := Without(xs[1..], runs);
      assert Without(xs, runs) == if xs[0].run in runs then rest else [xs[0]] + rest;
      assert ([xs[0]] + rest)[1..] == rest;
    }
  }

  lemma MembersOneRunEach(xs: seq<Backup>)
    requires DistinctRuns(xs)
    ensures OneRunEach(Members(xs))
  {
  }

  /** expired: the backups of one owner that the policy does not want, in the order given. */
  method Expired(backups: seq<Backup>, keep: BackupKeep, p: Periods) returns (doomed: seq<Backup>)
    requires DistinctRuns(backups)
    ensures doomed == Without(backups, RunsOf(Kept(Members(backups), Policy(keep, p))))
    ensures forall b :: b in doomed <==> b in backups && b !in Kept(Members(backups), Policy(keep, p))
    ensures forall b :: b in doomed <==> b in backups && !Wanted(Members(backups), b, keep, p)
    ensures PartOf(doomed, backups)
  {
    ghost var s := Members(backups);
    var newestFirst := SortNewestFirst(backups);
    var dated, counted := Dated(keep, p), Counted(keep);
    var byDate := ScheduledRuns(s, newestFirst, dated);
    var byCount := CountedRuns(s, newestFirst, counted);
    KeptConcat(s, dated, counted);
    RunsConcat(Kept(s, dated), Kept(s, counted));
    doomed := Without(backups, byDate + byCount);
    KeptIsSubset(s, Policy(keep, p));
    WithoutMeans(backups, Kept(s, Policy(keep, p)));
    WithoutIsPart(backups, byDate + byCount);
    MembersOneRunEach(backups);
    forall b ensures b in Kept(s, Policy(keep, p)) <==> b in s && Wanted(s, b, keep, p) {
      PolicyWants(s, b, keep, p);
    }
  }

  function RunsOf(s: set<Backup>): set<string> { set x | x in s :: x.run }

  lemma {:induction false} KeptFront(s: set<Backup>, sels: seq<Selection>)
    requires sels != []
    ensures Kept(s, sels) == Kept(s, sels[..|sels| - 1]) + Picks(s, sels[|sels| - 1])
  {
    if |sels| > 1 {
      KeptFront(s, sels[1..]);
      assert sels[1..][..|sels| - 2] == sels[..|sels| - 1][1..];
    }
  }

  lemma KeptStep(s: set<Backup>, sels: seq<Selection>, k: nat)
    requires k < |sels|
    ensures RunsOf(Kept(s, sels[..k + 1])) == RunsOf(Kept(s, sels[..k])) + PickedRuns(s, sels[k])
  {
    assert sels[..k + 1][..k] == sels[..k];
    KeptFront(s, sels[..k + 1]);
    assert Kept(s, sels[..k + 1]) == Kept(s, sels[..k]) + Picks(s, sels[k]);
  }

  lemma {:induction false} WithoutMember(xs: seq<Backup>, runs: set<string>, b: Backup)
    ensures b in Without(xs, runs) <==> b in xs && b.run !in runs
  {
    if xs != [] {
      WithoutMember(xs[1..], runs, b);
      assert xs == [xs[0]] + xs[1..];
    }
  }

  lemma WithoutMeans(xs: seq<Backup>, s: set<Backup>)
    requires DistinctRuns(xs)
    requires s <= Members(xs)
    ensures forall b :: b in Without(xs, RunsOf(s)) <==> b in xs && b !in s
  {
    forall b ensures b in Without(xs, RunsOf(s)) <==> b in xs && b !in s {
      WithoutMember(xs, RunsOf(s), b);
      if b in xs && b.run in RunsOf(s) {
        var x :| x in s && x.run == b.run;
        var i :| 0 <= i < |xs| && xs[i] == x;
        var j :| 0 <= j < |xs| && xs[j] == b;
      }
    }
  }
}
