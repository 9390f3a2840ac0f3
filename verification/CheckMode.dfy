// Check mode after a run, whatever refs the files share.

module CheckMode {
  import opened Actions
  import opened Squash
  import opened Tables
  import opened Installer
  import opened PendingFacts
  import opened Recovery
  import opened Resumption
  import opened Checks

  /** r is there exactly if what stands for it installs it; an update, or
      nothing, leaves that open. */
  ghost predicate Settled(kept: Kept, r: Ref, m: Installation) {
    Decides(kept) ==> (kept.action.action == Install <==> r in m)
  }

  ghost predicate AllSettled(s: seq<RefAction>, m: Installation) {
    forall r :: Settled(Keeper(s, r), r, m)
  }

  /** Check mode is clean exactly if, on each ref, the machine is as the last of
      the actions behind the counter to install or uninstall it says, in name
      order. */
  lemma {:induction false} CleanIffSettled(files: Table, counter: Counter, m: Installation)
    ensures Deltas(Due(files, counter), m) == [] <==> AllSettled(Concat(Existing(files, counter), files.Keys), m)
  {
    var existing := Existing(files, counter);
    assert existing.Keys == files.Keys;
    DueDistinct(files, counter);
    NoDeltasIffAsDecided(Due(files, counter), m);
    forall r
      ensures AsVerdict(VerdictOf(Due(files, counter), r), StatusOf(m, r)) <==>
                Settled(Keeper(Concat(existing, files.Keys), r), r, m)
    {
      FlattenedVerdict(existing, r);
      SettledByVerdict(Concat(existing, files.Keys), r, m);
    }
    SettledIff(Due(files, counter), Concat(existing, files.Keys), m);
  }

  lemma {:induction false} SettledByVerdict(s: seq<RefAction>, r: Ref, m: Installation)
    ensures AsVerdict(VerdictOf(s, r), StatusOf(m, r)) <==> Settled(Keeper(s, r), r, m)
  {
    KeeperVerdict(s, r);
  }

  lemma {:induction false} SettledIff(s: seq<RefAction>, t: seq<RefAction>, m: Installation)
    requires forall r :: AsVerdict(VerdictOf(s, r), StatusOf(m, r)) <==> Settled(Keeper(t, r), r, m)
    ensures AsDecided(s, m) <==> AllSettled(t, m)
  {
  }

  /** What is behind the counter once a run has performed the first k pending
      actions. */
  ghost function Behind(files: Table, counter: Counter, k: nat): Table
    requires k <= |Pending(files, counter)|
  {
    map name | name in files :: Existing(files, counter)[name] + PassedBy(files, counter, k, name)
  }

  lemma {:induction false} ExistingIsBehind(files: Table, counter: Counter, k: nat)
    requires LoadedFiles(files) && k <= |Pending(files, counter)|
    ensures Existing(files, CounterAfter(files, counter, k)) == Behind(files, counter, k)
  {
    hide CounterAfter, Pending, PassedBy, ExistingActions, LoadedFiles;
    var existing, behind := Existing(files, CounterAfter(files, counter, k)), Behind(files, counter, k);
    forall name | name in files ensures existing[name] == behind[name] {
      ExistingAfterRun(files, counter, k, name);
    }
    SameTable(existing, behind);
  }

  ghost function BehindInOrder(files: Table, counter: Counter, k: nat): seq<RefAction>
    requires k <= |Pending(files, counter)|
  {
    Concat(Behind(files, counter, k), files.Keys)
  }

  /** What was behind the counter, and then what the run performed. */
  ghost function BeforeAndRun(files: Table, counter: Counter, k: nat): seq<RefAction>
    requires k <= |Pending(files, counter)|
  {
    Concat(Existing(files, counter), files.Keys) + Performed(files, counter, k)
  }

  /** Whether a machine is found clean after a run, for any loaded files. */
  lemma {:induction false} CleanAfterRunIff(files: Table, counter: Counter, k: nat, m: Installation)
    requires LoadedFiles(files) && k <= |Pending(files, counter)|
    ensures Deltas(Due(files, CounterAfter(files, counter, k)), Perform(Performed(files, counter, k), m)) == [] <==>
              AllSettled(BehindInOrder(files, counter, k), Perform(Performed(files, counter, k), m))
  {
    hide CounterAfter, Pending, Performed, AllSettled, Due, Deltas, LoadedFiles, Behind;
    ExistingIsBehind(files, counter, k);
    CleanIffSettled(files, CounterAfter(files, counter, k), Perform(Performed(files, counter, k), m));
  }

  // ------------------------------------------------------ over all machines

  lemma {:induction false} ThereAfter(s: seq<RefAction>, m: Installation, r: Ref)
    ensures r in Perform(s, m) <==>
              if Decides(Keeper(s, r)) then Keeper(s, r).action.action == Install else r in m
  {
    PerformByVerdict(s, m, r);
    KeeperVerdict(s, r);
  }

  lemma {:induction false} SettledOnward(s: seq<RefAction>, t: seq<RefAction>, m: Installation, r: Ref)
    requires Settled(Keeper(s, r), r, m)
    ensures Settled(Keeper(s + t, r), r, Perform(t, m))
  {
    KeeperConcat(s, t, r);
    ThereAfter(t, m, r);
  }

  /** If check mode is clean before the run, it is clean after it. */
  ghost predicate StaysClean(files: Table, counter: Counter, k: nat, m: Installation)
    requires k <= |Pending(files, counter)|
  {
    Deltas(Due(files, counter), m) == [] ==>
      Deltas(Due(files, CounterAfter(files, counter, k)), Perform(Performed(files, counter, k), m)) == []
  }

  lemma {:induction false} StaysCleanIf(files: Table, counter: Counter, k: nat, m: Installation)
    requires LoadedFiles(files) && k <= |Pending(files, counter)|
    requires DecideAlike(BehindInOrder(files, counter, k), BeforeAndRun(files, counter, k))
    ensures StaysClean(files, counter, k, m)
  {
    assert Existing(files, counter).Keys == files.Keys;
    hide CounterAfter, Pending, Performed, Due, Deltas, LoadedFiles, Behind, Keeper, Existing;
    var existing, done := Concat(Existing(files, counter), files.Keys), Performed(files, counter, k);
    CleanIffSettled(files, counter, m);
    CleanAfterRunIff(files, counter, k, m);
    if AllSettled(existing, m) {
      forall r ensures Settled(Keeper(BehindInOrder(files, counter, k), r), r, Perform(done, m)) {
        SettledOnward(existing, done, m, r);
        assert DecidesAlike(BehindInOrder(files, counter, k), BeforeAndRun(files, counter, k), r);
      }
    }
  }

  /** A machine on which r is not as behind leaves it, unless s says so. */
  ghost function Contrary(behind: Kept, r: Ref): Installation {
    if behind.Keep? && behind.action.action == Install then map[] else map[r := Current]
  }

  lemma {:induction false} ContraryTells(behind: seq<RefAction>, s: seq<RefAction>, r: Ref)
    requires Settled(Keeper(behind, r), r, Perform(s, Contrary(Keeper(behind, r), r)))
    ensures DecidesAlike(behind, s, r)
  {
    ThereAfter(s, Contrary(Keeper(behind, r), r), r);
  }

  lemma {:induction false} SettledByItself(s: seq<RefAction>, base: Installation)
    ensures AllSettled(s, Perform(s, base))
  {
    forall r ensures Settled(Keeper(s, r), r, Perform(s, base)) {
      ThereAfter(s, base, r);
    }
  }

  lemma {:induction false} AlikeIfClean(files: Table, counter: Counter, k: nat, r: Ref)
    requires LoadedFiles(files) && k <= |Pending(files, counter)|
    requires StaysClean(files, counter, k, Perform(Concat(Existing(files, counter), files.Keys),
                                                   Contrary(Keeper(BehindInOrder(files, counter, k), r), r)))
    ensures DecidesAlike(BehindInOrder(files, counter, k), BeforeAndRun(files, counter, k), r)
  {
    assert Existing(files, counter).Keys == files.Keys;
    hide CounterAfter, Pending, Performed, Due, Deltas, LoadedFiles, BehindInOrder, Keeper, Existing, Contrary, Settled,
      Perform, Concat, DecidesAlike;
    var existing, done := Concat(Existing(files, counter), files.Keys), Performed(files, counter, k);
    var behind := BehindInOrder(files, counter, k);
    var base := Contrary(Keeper(behind, r), r);
    SettledByItself(existing, base);
    CleanIffSettled(files, counter, Perform(existing, base));
    CleanAfterRunIff(files, counter, k, Perform(existing, base));
    PerformConcat(existing, done, base);
    assert Settled(Keeper(behind, r), r, Perform(existing + done, base));
    ContraryTells(behind, existing + done, r);
  }

  /** For any loaded files and any stop: every machine that is found clean before
      the run is found clean after it exactly if, on each ref, what is behind
      the counter then, in name order, decides as what was behind it and the run
      together do. */
  lemma {:induction false} RunKeepsCleanIff(files: Table, counter: Counter, k: nat)
    requires LoadedFiles(files) && k <= |Pending(files, counter)|
    ensures (forall m :: StaysClean(files, counter, k, m)) <==>
              DecideAlike(BehindInOrder(files, counter, k), BeforeAndRun(files, counter, k))
  {
    hide CounterAfter, Pending, Performed, Due, Deltas, LoadedFiles, BehindInOrder, BeforeAndRun, Keeper, StaysClean;
    if DecideAlike(BehindInOrder(files, counter, k), BeforeAndRun(files, counter, k)) {
      forall m ensures StaysClean(files, counter, k, m) {
        StaysCleanIf(files, counter, k, m);
      }
    }
    if forall m :: StaysClean(files, counter, k, m) {
      forall r ensures DecidesAlike(BehindInOrder(files, counter, k), BeforeAndRun(files, counter, k), r) {
        AlikeIfClean(files, counter, k, r);
      }
    }
  }

  // ------------------------------------------------------------- an example

  /** The counter after a first complete run over two files that share a ref. */
  lemma {:induction false} FirstRun(n: string, a: RefAction, o: string, b: RefAction)
    requires n != o && SortsBefore(n, o) && a.ref == b.ref
    requires a.action == Install && a.source == n && b.action == Uninstall && b.source == o
    ensures CounterAfterAll(Contested(n, a, o, b), map[]) == map[o := b.serial]
  {
    SecondFileWins(n, a, o, b);
    ContestedPending(n, a, o, b);
    ContestedCounter(n, a, o, b);
  }

  lemma {:induction false} SecondRunInstalls(n: string, a: RefAction, o: string, b: RefAction)
    requires n != o && SortsBefore(n, o) && a.ref == b.ref
    requires a.action == Install && a.source == n && b.action == Uninstall && b.source == o
    ensures Pending(Contested(n, a, o, b), map[o := b.serial]) == [a]
  {
    var files, counter := Contested(n, a, o, b), map[o := b.serial];
    FirstRun(n, a, o, b);
    FirstFileReturns(n, a, o, b);
    LeftAfter(n, a, o, b);
    PendingDistinct(files, counter);
    forall x | x in Pending(files, counter) ensures x == a {
      PendingFromSome(files, counter, x);
    }
    OnlyAction(Pending(files, counter), a);
  }

  lemma {:induction false} OnlyAction(s: seq<RefAction>, a: RefAction)
    requires DistinctRefs(s) && VerdictOf(s, a.ref) != Untouched && forall x :: x in s ==> x == a
    ensures s == [a]
  {
    forall i | 0 <= i < |s| ensures s[i] == a {
      assert s[i] in s;
    }
    var other := if |s| > 1 then 1 else 0;
    assert s != [] && s[0].ref == s[other].ref;
  }

  lemma {:induction false} TakesOne(a: RefAction)
    ensures TakeApplied([a], a.serial) == [a]
  {
    assert [a][1..] == [] && TakeApplied([], a.serial) == [];
    assert TakeApplied([a], a.serial) == [[a][0]] + TakeApplied([a][1..], a.serial);
  }

  lemma {:induction false} BehindFirst(n: string, a: RefAction, o: string, b: RefAction)
    requires n != o
    ensures Existing(Contested(n, a, o, b), map[o := b.serial]) == map[n := [], o := [b]]
    ensures Existing(Contested(n, a, o, b), map[o := b.serial, n := a.serial]) == Contested(n, a, o, b)
  {
    TakesOne(a);
    TakesOne(b);
  }

  lemma {:induction false} DueRemoves(n: string, a: RefAction, o: string, b: RefAction, counter: Counter)
    requires n != o && SortsBefore(n, o) && a.ref == b.ref && a.action == Install && b.action == Uninstall
    requires counter == map[o := b.serial] || counter == map[o := b.serial, n := a.serial]
    ensures VerdictOf(Due(Contested(n, a, o, b), counter), a.ref) == Removed
  {
    BehindFirst(n, a, o, b);
    Single(b);
    FlattenPriority(Existing(Contested(n, a, o, b), counter), a.ref, o);
  }

  lemma {:induction false} DueOnlyOn(n: string, a: RefAction, o: string, b: RefAction, counter: Counter, x: RefAction)
    requires n != o && a.ref == b.ref && x in Due(Contested(n, a, o, b), counter)
    ensures x.ref == a.ref
  {
    var existing := Existing(Contested(n, a, o, b), counter);
    var table := SquashedTable(existing);
    InSquashed(Concat(table, table.Keys), x);
    ConcatMember(table, table.Keys, x);
    var name :| name in table && x in table[name];
    InSquashed(existing[name], x);
    FiltersPartition(name, Contested(n, a, o, b)[name], counter);
    assert x in Contested(n, a, o, b)[name];
  }

  lemma {:induction false} CleanWhenAbsent(n: string, a: RefAction, o: string, b: RefAction)
    requires n != o && SortsBefore(n, o) && a.ref == b.ref && a.action == Install && b.action == Uninstall
    ensures Deltas(Due(Contested(n, a, o, b), map[o := b.serial]), map[]) == []
  {
    var files, counter := Contested(n, a, o, b), map[o := b.serial];
    var due := Due(files, counter);
    DueRemoves(n, a, o, b, counter);
    DueDistinct(files, counter);
    NoDeltasIffAsDecided(due, map[]);
    forall r ensures AsVerdict(VerdictOf(due, r), StatusOf(map[], r)) {
      if r != a.ref {
        assert !Mentions(due, r) by {
          forall x | x in due ensures x.ref != r {
            DueOnlyOn(n, a, o, b, counter, x);
          }
        }
        UnmentionedUntouched(due, r);
      }
    }
  }

  lemma {:induction false} SecondRun(n: string, a: RefAction, o: string, b: RefAction)
    requires n != o && SortsBefore(n, o) && a.ref == b.ref
    requires a.action == Install && a.source == n && b.action == Uninstall && b.source == o
    ensures CounterAfterAll(Contested(n, a, o, b), map[o := b.serial]) == map[o := b.serial, n := a.serial]
  {
    SecondRunInstalls(n, a, o, b);
    hide Pending, Contested;
    AllPerformed(Contested(n, a, o, b), map[o := b.serial]);
    ProgressOfOne([a], a);
  }

  lemma {:induction false} NotCleanWhenThere(due: seq<RefAction>, m: Installation, r: Ref)
    requires DistinctRefs(due) && VerdictOf(due, r) == Removed && r in m
    ensures Deltas(due, m) != []
  {
    NoDeltasIffAsDecided(due, m);
    assert !AsVerdict(VerdictOf(due, r), StatusOf(m, r));
  }

  /** Two files share a ref, and the first run has removed it: check mode is
      clean.  The second run, a complete one, installs it again, and check mode
      finds it. */
  lemma {:induction false} SharedRefNotClean(n: string, a: RefAction, o: string, b: RefAction)
    requires n != o && SortsBefore(n, o) && a.ref == b.ref
    requires a.action == Install && a.source == n && b.action == Uninstall && b.source == o
    ensures var files := Contested(n, a, o, b);
            var counter := CounterAfterAll(files, map[]);
            && Deltas(Due(files, counter), map[]) == []
            && Deltas(Due(files, CounterAfterAll(files, counter)), Perform(Pending(files, counter), map[])) != []
  {
    hide Pending, Due, Contested, CounterAfterAll, Deltas, VerdictOf;
    FirstRun(n, a, o, b);
    SecondRunInstalls(n, a, o, b);
    SecondRun(n, a, o, b);
    CleanWhenAbsent(n, a, o, b);
    var files, later := Contested(n, a, o, b), map[o := b.serial, n := a.serial];
    DueRemoves(n, a, o, b, later);
    DueDistinct(files, later);
    Single(a);
    PerformByVerdict([a], map[], a.ref);
    NotCleanWhenThere(Due(files, later), Perform([a], map[]), a.ref);
  }
}
