// What check mode says after complete runs and after interrupted ones.

module Checks {
  import opened Actions
  import opened ActionSort
  import opened ActionFile
  import opened Squash
  import opened Tables
  import opened Installer
  import opened PendingFacts
  import opened Recovery
  import opened Resumption

  ghost function Existing(files: Table, counter: Counter): Table {
    Selected(OnlyExisting, files, counter)
  }

  lemma {:induction false} DueVerdict(files: Table, counter: Counter, name: string, r: Ref)
    requires GoodFiles(files) && OnlyIn(files, name, r)
    ensures VerdictOf(Due(files, counter), r) == VerdictOf(Get(Existing(files, counter), name), r)
  {
    var existing := Existing(files, counter);
    assert existing.Keys == files.Keys;
    forall other | other in existing && other != name ensures !Mentions(existing[other], r) {
      FiltersPartition(other, files[other], counter);
      assert forall a :: a in existing[other] ==> a in files[other];
    }
    VerdictBySoleFile(existing, files.Keys, name, r);
    FlattenedVerdict(existing, r);
  }

  lemma {:induction false} DueDistinct(files: Table, counter: Counter)
    ensures DistinctRefs(Due(files, counter))
  {
    var table := SquashedTable(Existing(files, counter));
    SquashKeepsOnePerRef(Concat(table, table.Keys));
  }

  // ------------------------------------------------- what the counter passes

  /** The actions of s up to the last that is in done. */
  ghost function Reached(s: seq<RefAction>, done: seq<RefAction>): seq<RefAction> {
    if s == [] || s[|s|-1] in done then s else Reached(s[..|s|-1], done)
  }

  lemma {:induction false} ReachedAndNot(s: seq<RefAction>, done: seq<RefAction>)
    ensures s == Reached(s, done) + Unreached(s, done)
  {
    if s != [] && s[|s|-1] !in done {
      ReachedAndNot(s[..|s|-1], done);
      assert s == s[..|s|-1] + [s[|s|-1]];
      ConcatAssociates(Reached(s[..|s|-1], done), Unreached(s[..|s|-1], done), [s[|s|-1]]);
    }
  }

  /** The new actions of a file that a run puts behind the counter when it
      performs the first k pending ones. */
  ghost function PassedBy(files: Table, counter: Counter, k: nat, name: string): seq<RefAction>
    requires name in files && k <= |Pending(files, counter)|
  {
    Reached(Todo(files, counter)[name], Performed(files, counter, k))
  }

  lemma {:induction false} ExistingAfterRun(files: Table, counter: Counter, k: nat, name: string)
    requires LoadedFiles(files) && name in files && k <= |Pending(files, counter)|
    ensures Existing(files, CounterAfter(files, counter, k))[name]
         == Existing(files, counter)[name] + PassedBy(files, counter, k, name)
  {
    hide CounterAfter, Pending, Performed, Unreached, Reached, NewActions, ExistingActions;
    var existing, todo := Existing(files, counter)[name], Todo(files, counter)[name];
    var counter', done := CounterAfter(files, counter, k), Performed(files, counter, k);
    FiltersPartition(name, files[name], counter);
    FiltersPartition(name, files[name], counter');
    TodoAfterRunIn(files, counter, k, name);
    ReachedAndNot(todo, done);
    ConcatAssociates(existing, Reached(todo, done), Unreached(todo, done));
    SameFronts(Existing(files, counter')[name], existing + Reached(todo, done), Unreached(todo, done));
  }

  lemma {:induction false} SameFronts(s: seq<RefAction>, t: seq<RefAction>, u: seq<RefAction>)
    requires s + u == t + u
    ensures s == t
  {
    assert |s| == |t|;
    assert s == (s + u)[..|s|] && t == (t + u)[..|t|];
  }

  // ----------------------------------------------------------- check mode

  /** One ref after a run: passed and left make up what was new, and the run
      performed the action that stands for the ref, or none on it. */
  lemma {:induction false} StatusAfterRun(due: Verdict, passed: seq<RefAction>, left: seq<RefAction>, r: Ref,
                                          performed: bool, status: Status)
    requires AsVerdict(due, status)
    requires Keeper(passed + left, r).Keep? ==>
               if performed then Keeper(passed + left, r).action !in left
               else Keeper(passed + left, r).action in left && Keeper(passed + left, r).action !in passed
    requires Keeper(passed + left, r).Nothing? ==> !performed
    ensures (var done := if performed then VerdictOf(passed + left, r) else Untouched;
             AsVerdict(due.Then(VerdictOf(passed, r)), done.On(status)) <==>
               performed || AsVerdict(VerdictOf(passed, r), status))
  {
    KeeperConcat(passed, left, r);
    KeeperVerdict(passed, r);
    KeeperVerdict(passed + left, r);
  }

  lemma {:induction false} KeeperBySoleFile(table: Table, names: set<string>, name: string, r: Ref)
    requires names <= table.Keys && OnlyIn(table, name, r)
    ensures Keeper(Concat(table, names), r) == if name in names then Keeper(table[name], r) else Nothing
    decreases |names|
  {
    if names != {} {
      var least := Least(names);
      var rest := names - {least};
      KeeperConcat(table[least], Concat(table, rest), r);
      KeeperBySoleFile(table, rest, name, r);
      KeeperExists(table[least], r);
    }
  }

  lemma {:induction false} TodoOnlyIn(files: Table, counter: Counter, name: string, r: Ref)
    requires LoadedFiles(files) && OnlyIn(files, name, r)
    ensures OnlyIn(Todo(files, counter), name, r)
  {
    forall other | other in files && other != name ensures !Mentions(Todo(files, counter)[other], r) {
      NewIncreases(other, files[other], counter);
    }
  }

  /** The action that stands for r has been performed by the first k. */
  ghost predicate IsPerformed(files: Table, counter: Counter, k: nat, name: string, r: Ref)
    requires name in files && k <= |Pending(files, counter)|
  {
    var kept := Keeper(Todo(files, counter)[name], r);
    kept.Keep? && kept.action in Performed(files, counter, k)
  }

  lemma {:induction false} PerformedOnRef(files: Table, counter: Counter, k: nat, name: string, r: Ref)
    requires LoadedFiles(files) && OnlyIn(files, name, r) && name in files && k <= |Pending(files, counter)|
    ensures VerdictOf(Performed(files, counter, k), r)
         == if IsPerformed(files, counter, k, name, r) then VerdictOf(Todo(files, counter)[name], r) else Untouched
  {
    TodoOnlyIn(files, counter, name, r);
    KeeperBySoleFile(Todo(files, counter), files.Keys, name, r);
    DoneIsKeeper(files, counter, k, r);
    KeeperVerdict(Todo(files, counter)[name], r);
  }

  lemma {:induction false} WhereKeeperIs(files: Table, counter: Counter, k: nat, name: string, r: Ref)
    requires LoadedFiles(files) && OnlyIn(files, name, r) && name in files && k <= |Pending(files, counter)|
    ensures (var todo, done := Todo(files, counter)[name], Performed(files, counter, k);
             var kept := Keeper(todo, r);
             kept.Keep? ==>
               && kept.action in Pending(files, counter)
               && (if IsPerformed(files, counter, k, name, r) then kept.action !in Unreached(todo, done)
                   else kept.action in Unreached(todo, done) && kept.action !in Reached(todo, done)))
  {
    var todo, done := Todo(files, counter)[name], Performed(files, counter, k);
    var kept := Keeper(todo, r);
    TodoOnlyIn(files, counter, name, r);
    KeeperBySoleFile(Todo(files, counter), files.Keys, name, r);
    ReachedAndNot(todo, done);
    if kept.Keep? {
      PendingMember(files, counter, kept.action);
      TodoAfterRunIn(files, counter, k, name);
      var before := RunCuts(files, counter, k, name);
      SameFronts(before, Reached(todo, done), Unreached(todo, done));
    }
  }

  lemma {:induction false} CleanOnRefIff(files: Table, counter: Counter, k: nat, m: Installation, name: string, r: Ref)
    requires GoodFiles(files) && OnlyIn(files, name, r) && name in files && k <= |Pending(files, counter)|
    requires AsVerdict(VerdictOf(Due(files, counter), r), StatusOf(m, r))
    ensures AsVerdict(VerdictOf(Due(files, CounterAfter(files, counter, k)), r),
                      StatusOf(Perform(Performed(files, counter, k), m), r)) <==>
              (|| IsPerformed(files, counter, k, name, r)
               || AsVerdict(VerdictOf(PassedBy(files, counter, k, name), r), StatusOf(m, r)))
  {
    var todo, done := Todo(files, counter)[name], Performed(files, counter, k);
    DueVerdict(files, counter, name, r);
    DueVerdict(files, CounterAfter(files, counter, k), name, r);
    ExistingAfterRun(files, counter, k, name);
    VerdictConcat(Existing(files, counter)[name], Reached(todo, done), r);
    PerformByVerdict(done, m, r);
    PerformedOnRef(files, counter, k, name, r);
    WhereKeeperIs(files, counter, k, name, r);
    ReachedAndNot(todo, done);
    StatusAfterRun(VerdictOf(Due(files, counter), r), Reached(todo, done), Unreached(todo, done), r,
                   IsPerformed(files, counter, k, name, r), StatusOf(m, r));
  }

  lemma {:induction false} UnmentionedClean(files: Table, counter: Counter, k: nat, m: Installation, name: string,
                                            r: Ref)
    requires GoodFiles(files) && OnlyIn(files, name, r) && name !in files && k <= |Pending(files, counter)|
    ensures AsVerdict(VerdictOf(Due(files, CounterAfter(files, counter, k)), r),
                      StatusOf(Perform(Performed(files, counter, k), m), r))
  {
    DueVerdict(files, CounterAfter(files, counter, k), name, r);
  }

  /** a was not performed, and its file's new actions that the counter has
      passed leave its ref as it is on the machine. */
  ghost predicate WaitsInAccord(files: Table, counter: Counter, k: nat, m: Installation, a: RefAction)
    requires k <= |Pending(files, counter)|
  {
    a.source in files ==> AsVerdict(VerdictOf(PassedBy(files, counter, k, a.source), a.ref), StatusOf(m, a.ref))
  }

  ghost predicate AllWaitInAccord(files: Table, counter: Counter, k: nat, m: Installation)
    requires k <= |Pending(files, counter)|
  {
    forall a :: a in Pending(files, counter) && a !in Performed(files, counter, k) ==>
                  WaitsInAccord(files, counter, k, m, a)
  }

  /** If check mode finds no delta before a run, it finds none after the run's
      first k actions exactly if, for each action still waiting, what the
      counter has passed in its file has already been true of its ref. */
  lemma {:induction false} CheckCleanAfterIff(files: Table, counter: Counter, k: nat, m: Installation)
    requires GoodFiles(files) && k <= |Pending(files, counter)| && Deltas(Due(files, counter), m) == []
    ensures Deltas(Due(files, CounterAfter(files, counter, k)), Perform(Performed(files, counter, k), m)) == [] <==>
              AllWaitInAccord(files, counter, k, m)
  {
    var counter', m' := CounterAfter(files, counter, k), Perform(Performed(files, counter, k), m);
    DueDistinct(files, counter);
    DueDistinct(files, counter');
    NoDeltasIffAsDecided(Due(files, counter), m);
    NoDeltasIffAsDecided(Due(files, counter'), m');
    if AsDecided(Due(files, counter'), m') {
      forall a | a in Pending(files, counter) && a !in Performed(files, counter, k)
        ensures WaitsInAccord(files, counter, k, m, a)
      {
        WaitsIfClean(files, counter, k, m, a);
      }
    }
    if AllWaitInAccord(files, counter, k, m) {
      forall r ensures AsVerdict(VerdictOf(Due(files, counter'), r), StatusOf(m', r)) {
        CleanIfAllWait(files, counter, k, m, r);
      }
    }
  }

  lemma {:induction false} SourceIsSoleFile(files: Table, counter: Counter, a: RefAction)
    requires GoodFiles(files) && a in Pending(files, counter)
    ensures a.source in files && OnlyIn(files, a.source, a.ref)
    ensures Keeper(Todo(files, counter)[a.source], a.ref) == Keep(a)
  {
    var name := SoleFile(files, a.ref);
    PendingFromSoleFile(files, counter, name, a);
    TodoOnlyIn(files, counter, name, a.ref);
    KeeperBySoleFile(Todo(files, counter), files.Keys, name, a.ref);
    PendingMember(files, counter, a);
  }

  lemma {:induction false} WaitsIfClean(files: Table, counter: Counter, k: nat, m: Installation, a: RefAction)
    requires GoodFiles(files) && k <= |Pending(files, counter)| && AsDecided(Due(files, counter), m)
    requires AsDecided(Due(files, CounterAfter(files, counter, k)), Perform(Performed(files, counter, k), m))
    requires a in Pending(files, counter) && a !in Performed(files, counter, k)
    ensures WaitsInAccord(files, counter, k, m, a)
  {
    SourceIsSoleFile(files, counter, a);
    assert AsVerdict(VerdictOf(Due(files, counter), a.ref), StatusOf(m, a.ref));
    CleanOnRefIff(files, counter, k, m, a.source, a.ref);
  }

  lemma {:induction false} CleanIfAllWait(files: Table, counter: Counter, k: nat, m: Installation, r: Ref)
    requires GoodFiles(files) && k <= |Pending(files, counter)| && AsDecided(Due(files, counter), m)
    requires AllWaitInAccord(files, counter, k, m)
    ensures AsVerdict(VerdictOf(Due(files, CounterAfter(files, counter, k)), r),
                      StatusOf(Perform(Performed(files, counter, k), m), r))
  {
    hide Pending, Performed, CounterAfter, Due, PassedBy, Deltas;
    var name := SoleFile(files, r);
    assert AsVerdict(VerdictOf(Due(files, counter), r), StatusOf(m, r));
    if name !in files {
      UnmentionedClean(files, counter, k, m, name, r);
    } else {
      CleanOnRefIff(files, counter, k, m, name, r);
      if !IsPerformed(files, counter, k, name, r) {
        PassedInAccord(files, counter, k, m, name, r);
      }
    }
  }

  lemma {:induction false} KeptWaits(files: Table, counter: Counter, k: nat, m: Installation, name: string,
                                     a: RefAction)
    requires GoodFiles(files) && k <= |Pending(files, counter)| && name in files && OnlyIn(files, name, a.ref)
    requires AllWaitInAccord(files, counter, k, m)
    requires Keeper(Todo(files, counter)[name], a.ref) == Keep(a) && a !in Performed(files, counter, k)
    ensures AsVerdict(VerdictOf(PassedBy(files, counter, k, name), a.ref), StatusOf(m, a.ref))
  {
    hide Pending, Performed, PassedBy, VerdictOf, NewActions;
    WhereKeeperIs(files, counter, k, name, a.ref);
    TodoSource(files, counter, name, a);
    assert WaitsInAccord(files, counter, k, m, a);
  }

  lemma {:induction false} PassedInAccord(files: Table, counter: Counter, k: nat, m: Installation, name: string, r: Ref)
    requires GoodFiles(files) && k <= |Pending(files, counter)| && name in files && OnlyIn(files, name, r)
    requires AllWaitInAccord(files, counter, k, m)
    requires !IsPerformed(files, counter, k, name, r)
    ensures AsVerdict(VerdictOf(PassedBy(files, counter, k, name), r), StatusOf(m, r))
  {
    hide GoodFiles, OnlyIn, Pending, Performed, PassedBy, VerdictOf, NewActions, AllWaitInAccord, Keeper;
    var kept := Keeper(Todo(files, counter)[name], r);
    if kept.Keep? {
      KeptWaits(files, counter, k, m, name, kept.action);
    } else {
      NothingPassedOn(files, counter, k, name, r);
    }
  }

  lemma {:induction false} NothingPassedOn(files: Table, counter: Counter, k: nat, name: string, r: Ref)
    requires name in files && k <= |Pending(files, counter)| && Keeper(Todo(files, counter)[name], r).Nothing?
    ensures VerdictOf(PassedBy(files, counter, k, name), r) == Untouched
  {
    var todo, done := Todo(files, counter)[name], Performed(files, counter, k);
    ReachedAndNot(todo, done);
    KeeperConcat(Reached(todo, done), Unreached(todo, done), r);
    KeeperVerdict(Reached(todo, done), r);
  }

  /** If check mode finds no delta before a complete run, it finds none after. */
  lemma {:induction false} RunKeepsCheckClean(files: Table, counter: Counter, m: Installation)
    requires GoodFiles(files) && Deltas(Due(files, counter), m) == []
    ensures Deltas(Due(files, CounterAfterAll(files, counter)), Perform(Pending(files, counter), m)) == []
  {
    AllPerformed(files, counter);
    CheckCleanAfterIff(files, counter, |Pending(files, counter)|, m);
  }

  // -------------------------------------------------------------- an example

  lemma {:induction false} TwoAscending(s: seq<RefAction>, b: RefAction, c: RefAction)
    requires DistinctRefs(s) && SerialsAscend(s) && b.serial < c.serial
    requires forall x :: x in s <==> x == b || x == c
    ensures s == [b, c]
  {
    assert b in s && c in s;
    forall i | 0 <= i < |s| ensures Mentions([b, c], s[i].ref) {
      assert s[i] in s && b in [b, c] && c in [b, c];
    }
    AtLeastAsLong(s, [b, c]);
  }

  lemma {:induction false} PendingOfThree(n: string, a: RefAction, b: RefAction, c: RefAction)
    requires a.source == b.source == c.source == n && !a.isDependency && !b.isDependency && !c.isDependency
    requires a.serial < b.serial < c.serial && c.serial as int - a.serial as int <= MAX_INT32
    requires a.action == b.action == Install && c.action == Uninstall && a.ref == c.ref && a.ref != b.ref
    ensures GoodFiles(map[n := [a, b, c]]) && Pending(map[n := [a, b, c]], map[]) == [b, c]
  {
    hide Keeper, Concat, Pending;
    var files := map[n := [a, b, c]];
    ThreeGood(n, a, b, c);
    assert Todo(files, map[]) == files;
    OneFile(files, n);
    forall x ensures x in Pending(files, map[]) <==> x == b || x == c {
      PendingMember(files, map[], x);
      KeepersOfThree(a, b, c, x.ref);
    }
    PendingAscends(files, map[]);
    TwoAscending(Pending(files, map[]), b, c);
  }

  lemma {:induction false} ThreeGood(n: string, a: RefAction, b: RefAction, c: RefAction)
    requires a.source == b.source == c.source == n && !a.isDependency && !b.isDependency && !c.isDependency
    requires a.serial < b.serial < c.serial && c.serial as int - a.serial as int <= MAX_INT32
    ensures GoodFiles(map[n := [a, b, c]])
  {
    assert forall x :: x in [a, b, c] <==> x == a || x == b || x == c;
  }

  lemma {:induction false} OneFile(files: Table, n: string)
    requires files.Keys == {n}
    ensures Concat(files, files.Keys) == files[n]
  {
    assert Least({n}) == n && {n} - {n} == {};
    assert files[n] + [] == files[n];
  }

  lemma {:induction false} KeepersOfThree(a: RefAction, b: RefAction, c: RefAction, r: Ref)
    requires a.action == b.action == Install && c.action == Uninstall && a.ref == c.ref && a.ref != b.ref
    ensures Keeper([a, b, c], r) == if r == b.ref then Keep(b) else if r == c.ref then Keep(c) else Nothing
  {
    assert [a, b, c][..2] == [a, b] && [a, b][..1] == [a] && [a][..0] == [];
  }

  /** Install one ref, install another, uninstall the first: interrupted before
      the uninstall, the run has put the squashed install behind the counter,
      and check mode misses the ref. */
  lemma {:induction false} InterruptedRunNotClean(n: string, a: RefAction, b: RefAction, c: RefAction)
    requires a.source == b.source == c.source == n && !a.isDependency && !b.isDependency && !c.isDependency
    requires a.serial < b.serial < c.serial && c.serial as int - a.serial as int <= MAX_INT32
    requires a.action == b.action == Install && c.action == Uninstall && a.ref == c.ref && a.ref != b.ref
    ensures (var files := map[n := [a, b, c]];
             && Deltas(Due(files, map[]), map[]) == [] && |Pending(files, map[])| == 2
             && Deltas(Due(files, CounterAfter(files, map[], 1)), Perform(Performed(files, map[], 1), map[])) != [])
  {
    hide Due, CounterAfter, Deltas, Pending, WaitsInAccord;
    var files := map[n := [a, b, c]];
    PendingOfThree(n, a, b, c);
    NothingDueAtFirst(files);
    CheckCleanAfterIff(files, map[], 1, map[]);
    assert [b, c][..1] == [b];
    UninstallWaits(n, a, b, c);
    assert c in [b, c] && c !in [b];
  }

  lemma {:induction false} UninstallWaits(n: string, a: RefAction, b: RefAction, c: RefAction)
    requires LoadedFiles(map[n := [a, b, c]]) && Pending(map[n := [a, b, c]], map[]) == [b, c]
    requires a.action == Install && c.source == n && a.ref == c.ref && a.ref != b.ref
    ensures !WaitsInAccord(map[n := [a, b, c]], map[], 1, map[], c)
  {
    hide Pending, Reached, Keeper;
    var files := map[n := [a, b, c]];
    assert [b, c][..1] == [b];
    assert Todo(files, map[]) == files;
    ReachedOfThree(a, b, c);
    assert PassedBy(files, map[], 1, n) == [a, b];
    assert VerdictOf([a, b], a.ref) == Installed by {
      assert [a, b][..1] == [a] && [a][..0] == [];
    }
  }

  lemma {:induction false} ReachedOfThree(a: RefAction, b: RefAction, c: RefAction)
    requires b.ref != c.ref
    ensures Reached([a, b, c], [b]) == [a, b]
  {
    assert [a, b, c][..2] == [a, b];
  }

  lemma {:induction false} NothingDueAtFirst(files: Table)
    ensures Deltas(Due(files, map[]), map[]) == []
  {
    var due := Due(files, map[]);
    var table := SquashedTable(Existing(files, map[]));
    if due != [] {
      InSquashed(Concat(table, table.Keys), due[0]);
      ConcatMember(table, table.Keys, due[0]);
      var name :| name in table && due[0] in table[name];
      InSquashed(Existing(files, map[])[name], due[0]);
      assert false;
    }
  }
}
