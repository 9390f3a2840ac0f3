// Runs over lists that hold dependencies: what the counter does to an action
// that failed.

module DependencyRuns {
  import opened Actions
  import opened ActionSort
  import opened ActionFile
  import opened Squash
  import opened Tables
  import opened Installer
  import opened PendingFacts
  import opened Recovery
  import opened Resumption
  import opened Dependencies
  import opened DependencyOrder

  lemma {:induction false} PendingIsGood(files: Table, counter: Counter)
    requires LoadedFiles(files)
    ensures MainsGood(Pending(files, counter))
  {
    hide Pending, LoadedFiles;
    var s := Pending(files, counter);
    PendingAscends(files, counter);
    forall a, b | a in s && b in s ensures a.serial as int - b.serial as int <= MAX_INT32 {
      PendingFits(files, counter, a, b);
    }
    forall a | a in s ensures !a.isDependency {
      PendingOf(files, counter, a);
      TodoSource(files, counter, a.source, a);
    }
  }

  lemma {:induction false} PlannedAscends(mains: seq<RefAction>, related: seq<seq<RefAction>>)
    requires MainsGood(mains) && RelatedGood(mains, related)
    ensures SerialsAscend(WithDependencies(mains, related))
  {
    hide Assemble, MainsGood;
    var s := Assemble(mains, related, |mains|);
    CollectDistinct(s, s);
    AssembledFits(mains, related, Collect(s, s));
    SortAscends(Collect(s, s));
  }

  /** Something performed before s[k] carries its source and serial. */
  ghost predicate Outrun(s: seq<RefAction>, k: nat)
    requires k < |s|
  {
    exists a :: a in s[..k] && a.source == s[k].source && a.serial == s[k].serial
  }

  lemma {:induction false} ProgressBelow(s: seq<RefAction>, k: nat)
    requires SerialsAscend(s) && k < |s|
    ensures var progress := Progress(s[..k]);
            (s[k].source in progress && progress[s[k].source] >= s[k].serial) <==> Outrun(s, k)
  {
    var done := s[..k];
    ProgressIsLast(done, s[k].source);
    forall a | a in done ensures a.serial <= s[k].serial {
      var i :| 0 <= i < |done| && done[i] == a;
      assert s[i] == a;
    }
    forall i, j | 0 <= i < j < |done| ensures done[i].serial <= done[j].serial {
      assert s[i].serial <= s[j].serial;
    }
    forall a | a in done && a.source == s[k].source ensures a.serial <= Progress(done)[s[k].source] {
      ProgressIsGreatest(done, a);
    }
  }

  /** The counter entry that a run writes for name is above the old one. */
  ghost predicate Advances(counter: Counter, progress: Counter, name: string) {
    name in progress && name in counter ==> counter[name] < progress[name]
  }

  ghost predicate AllAdvance(files: Table, counter: Counter, progress: Counter) {
    forall name :: name in files ==> Advances(counter, progress, name)
  }

  /** A run cuts off the front of what is new in a file. */
  lemma {:induction false} NewerIsEnd(name: string, s: seq<RefAction>, counter: Counter, progress: Counter)
    requires StrictlyIncreasing(s) && Advances(counter, progress, name)
    ensures EndOf(NewActions(name, s, counter + progress), NewActions(name, s, counter))
    ensures forall a :: a in Passed(NewActions(name, s, counter + progress), NewActions(name, s, counter)) ==>
                          name in progress && a.serial <= progress[name]
  {
    var todo := NewActions(name, s, counter);
    if name in progress {
      NewIncreases(name, s, counter);
      DropCuts(todo, progress[name]);
      if name in counter {
        DropTwice(s, counter[name], progress[name]);
      }
      SameFront(TakeApplied(todo, progress[name]), DropApplied(todo, progress[name]), todo);
    }
  }

  lemma {:induction false} NotPassed(files: Table, counter: Counter, progress: Counter, name: string, a: RefAction)
    requires LoadedFiles(files) && name in files && Advances(counter, progress, name)
    requires a.source in progress ==> progress[a.source] < a.serial
    ensures (var left, todo := Todo(files, counter + progress)[name], Todo(files, counter)[name];
             EndOf(left, todo) && a !in Passed(left, todo))
  {
    var left, todo := Todo(files, counter + progress)[name], Todo(files, counter)[name];
    NewerIsEnd(name, files[name], counter, progress);
    if a in Passed(left, todo) {
      assert a in todo;
      TodoSource(files, counter, name, a);
    }
  }

  /** A pending action that is still new is still pending, whatever files it
      shares its ref with. */
  lemma {:induction false} StillPendingIff(files: Table, counter: Counter, progress: Counter, a: RefAction)
    requires LoadedFiles(files) && a in Pending(files, counter) && AllAdvance(files, counter, progress)
    ensures a in Pending(files, counter + progress) <==> !(a.source in progress && progress[a.source] >= a.serial)
  {
    hide Pending, NewActions, Keeper, Concat, Passed, EndOf;
    PendingMember(files, counter, a);
    PendingMember(files, counter + progress, a);
    if a in Pending(files, counter + progress) {
      PendingIsNew(files, counter + progress, a);
    } else if a.source in progress ==> progress[a.source] < a.serial {
      forall name | name in files
        ensures EndOf(Todo(files, counter + progress)[name], Todo(files, counter)[name])
        ensures a !in Passed(Todo(files, counter + progress)[name], Todo(files, counter)[name])
      {
        NotPassed(files, counter, progress, name, a);
      }
      WaitingKeeper(Todo(files, counter + progress), Todo(files, counter), files.Keys, a);
    }
  }

  /** Dependencies carry the source of what needs them. */
  ghost predicate SourcesInherited(mains: seq<RefAction>, related: seq<seq<RefAction>>) {
    && |related| == |mains|
    && forall i :: 0 <= i < |mains| ==> forall a :: a in related[i] ==> a.source == mains[i].source
  }

  lemma {:induction false} PendingIsNew(files: Table, counter: Counter, a: RefAction)
    requires LoadedFiles(files) && a in Pending(files, counter)
    ensures a.source in counter ==> counter[a.source] < a.serial
  {
    hide Pending;
    PendingOf(files, counter, a);
    NewIncreases(a.source, files[a.source], counter);
  }

  lemma {:induction false} PlannedIsNew(files: Table, counter: Counter, related: seq<seq<RefAction>>, a: RefAction)
    requires LoadedFiles(files) && RelatedGood(Pending(files, counter), related)
    requires SourcesInherited(Pending(files, counter), related) && a in Planned(files, counter, related)
    ensures a.source in counter ==> counter[a.source] < a.serial
  {
    hide Pending, LoadedFiles, Assemble, Keeper, NoCommonObject;
    var mains := Pending(files, counter);
    InSquashed(Assemble(mains, related, |mains|), a);
    AssembledStems(mains, related, |mains|, a);
    var i :| 0 <= i < |mains| && StemsFrom(mains, related, i, a);
    assert mains[i] in mains;
    PendingIsNew(files, counter, mains[i]);
  }

  lemma {:induction false} RunAdvances(files: Table, counter: Counter, related: seq<seq<RefAction>>, k: nat)
    requires LoadedFiles(files) && RelatedGood(Pending(files, counter), related)
    requires SourcesInherited(Pending(files, counter), related) && k <= |Planned(files, counter, related)|
    ensures AllAdvance(files, counter, Progress(Planned(files, counter, related)[..k]))
  {
    hide Pending, LoadedFiles, Progress;
    var done := Planned(files, counter, related)[..k];
    forall name | name in files ensures Advances(counter, Progress(done), name) {
      ProgressIsLast(done, name);
      if name in Progress(done) {
        var a :| a in done && a.source == name && a.serial == Progress(done)[name];
        PlannedIsNew(files, counter, related, a);
      }
    }
  }

  /** A run over pending actions and their dependencies that fails at a pending
      action offers it again exactly when nothing performed before it carries
      its source and serial. */
  lemma {:induction false} FailedActionOfferedAgainIff(files: Table, counter: Counter, related: seq<seq<RefAction>>,
                                                       k: nat)
    requires LoadedFiles(files) && RelatedGood(Pending(files, counter), related)
    requires SourcesInherited(Pending(files, counter), related)
    requires k < |Planned(files, counter, related)|
    requires Planned(files, counter, related)[k] in Pending(files, counter)
    ensures (var s := Planned(files, counter, related);
             s[k] in Pending(files, counter + Progress(s[..k])) <==> !Outrun(s, k))
  {
    hide Pending, LoadedFiles, Progress, Outrun, AllAdvance;
    var s := Planned(files, counter, related);
    PendingIsGood(files, counter);
    PlannedAscends(Pending(files, counter), related);
    ProgressBelow(s, k);
    RunAdvances(files, counter, related, k);
    StillPendingIff(files, counter, Progress(s[..k]), s[k]);
  }

  // -------------------------------------------------------------- an example

  lemma {:induction false} PendingOfOne(a: RefAction)
    ensures Pending(map[a.source := [a]], map[]) == [a]
  {
    var files := map[a.source := [a]];
    assert Todo(files, map[]) == files;
    assert files.Keys == {a.source} && Least({a.source}) == a.source && {a.source} - {a.source} == {};
    assert Concat(files, files.Keys) == [a] + [] == [a];
    assert [a][..0] == [];
    PendingDistinct(files, map[]);
    forall x | x in Pending(files, map[]) ensures x == a {
      PendingMember(files, map[], x);
    }
    PendingMember(files, map[], a);
    OnlyOne(Pending(files, map[]), a);
  }

  lemma {:induction false} OnlyOne(s: seq<RefAction>, a: RefAction)
    requires DistinctRefs(s) && a in s && forall x :: x in s ==> x == a
    ensures s == [a]
  {
    forall i | 0 <= i < |s| ensures s[i] == a {
      assert s[i] in s;
    }
    var other := if |s| > 1 then 1 else 0;
    assert s[0].ref == s[other].ref;
  }

  lemma {:induction false} OneAssembled(a: RefAction, d: RefAction)
    requires a.action == d.action == Install
    ensures Assemble([a], [[d]], 1) == [d, a]
  {
    assert AddRelated([], [d], 0) == [] && AddRelated([], [d], 1) == [d];
    assert Assemble([a], [[d]], 0) == [] && Assemble([a], [[d]], 1) == [d] + [a];
  }

  lemma {:induction false} OneGood(a: RefAction, d: RefAction)
    requires a.action == d.action == Install && a.ref != d.ref
    requires d.isDependency && !a.isDependency && d.serial == a.serial
    ensures MainsGood([a]) && RelatedGood([a], [[d]]) && Compare(d, a) <= 0
  {
  }

  lemma {:induction false} OneWithDependency(a: RefAction, d: RefAction)
    requires a.action == d.action == Install && a.ref != d.ref
    requires d.isDependency && !a.isDependency && d.serial == a.serial
    ensures MainsGood([a]) && RelatedGood([a], [[d]])
    ensures WithDependencies([a], [[d]]) == [d, a]
  {
    hide Assemble, Collect, Sort, Compare, MainsGood, RelatedGood;
    OneGood(a, d);
    OneAssembled(a, d);
    TwoDistinct(d, a);
    TwoInOrder(d, a);
  }

  lemma {:induction false} PassedByDependency(a: RefAction, d: RefAction)
    requires d.serial == a.serial && d.source == a.source
    ensures Pending(map[a.source := [a]], map[] + Progress([d])) == []
  {
    var files, counter := map[a.source := [a]], map[] + Progress([d]);
    ProgressOfOne([d], d);
    assert counter == map[a.source := a.serial] && [a][1..] == [];
    assert DropApplied([a], a.serial) == DropApplied([], a.serial) == [];
    assert Todo(files, counter) == map[a.source := []];
    assert files.Keys == {a.source} && Least({a.source}) == a.source && {a.source} - {a.source} == {};
    assert Concat(Todo(files, counter), files.Keys) == [] + [];
    NothingNewNothingPending(files, counter);
  }

  lemma {:induction false} OneFileGood(a: RefAction)
    requires !a.isDependency
    ensures GoodFiles(map[a.source := [a]])
  {
  }

  /** One install and its dependency: once the dependency is in place, the
      failed install is never offered again. */
  lemma {:induction false} FailedInstallIsForgotten(a: RefAction, d: RefAction)
    requires a.action == d.action == Install && a.ref != d.ref
    requires d.isDependency && !a.isDependency && d.serial == a.serial && d.source == a.source
    ensures (var files := map[a.source := [a]];
             && GoodFiles(files) && Pending(files, map[]) == [a] && RelatedGood([a], [[d]])
             && Planned(files, map[], [[d]]) == [d, a]
             && Pending(files, map[] + Progress([d])) == [])
  {
    hide Pending, WithDependencies, Progress, GoodFiles, RelatedGood, MainsGood;
    OneFileGood(a);
    PendingOfOne(a);
    OneWithDependency(a, d);
    PassedByDependency(a, d);
  }
}
