// What is left after complete runs.

module Convergence {
  import opened Actions
  import opened ActionFile
  import opened Squash
  import opened Tables
  import opened Installer
  import opened PendingFacts
  import opened Recovery
  import opened Resumption

  lemma {:induction false} KeeperNotLeft(files: Table, counter: Counter, name: string, r: Ref)
    returns (before: seq<RefAction>)
    requires GoodFiles(files) && name in files
    ensures Todo(files, counter)[name] == before + Todo(files, CounterAfterAll(files, counter))[name]
    ensures Keeper(Todo(files, counter)[name], r).Keep? ==>
              Keeper(Todo(files, counter)[name], r).action !in Todo(files, CounterAfterAll(files, counter))[name]
  {
    before := RunCuts(files, counter, |Pending(files, counter)|, name);
    AllPerformed(files, counter);
    if Keeper(Todo(files, counter)[name], r).Keep? {
      KeeperIsPending(files, counter, name, r);
    }
  }

  lemma {:induction false} LeftoverIsUpdate(files: Table, counter: Counter, name: string, a: RefAction)
    requires GoodFiles(files) && name in files
    requires a in Todo(files, CounterAfterAll(files, counter))[name]
    ensures a.action == Update
  {
    var todo := Todo(files, counter)[name];
    var before := KeeperNotLeft(files, counter, name, a.ref);
    KeeperExists(todo, a.ref);
    assert a in todo && Mentions(todo, a.ref);
    AfterKeeper(before, Todo(files, CounterAfterAll(files, counter))[name], Keeper(todo, a.ref).action);
  }

  /** After a complete run only updates can be left pending, and performing
      them leaves the installation as it is. */
  lemma {:induction false} OnlyIdleUpdatesLeft(files: Table, counter: Counter, m: Installation)
    requires GoodFiles(files)
    ensures forall a :: a in Pending(files, CounterAfterAll(files, counter)) ==> a.action == Update
    ensures var m' := Perform(Pending(files, counter), m);
            Perform(Pending(files, CounterAfterAll(files, counter)), m') == m'
  {
    var counter' := CounterAfterAll(files, counter);
    var m' := Perform(Pending(files, counter), m);
    AllPerformed(files, counter);
    forall a | a in Pending(files, counter') ensures a.action == Update {
      PendingOf(files, counter', a);
      LeftoverIsUpdate(files, counter, a.source, a);
    }
    forall r ensures StatusOf(Perform(Pending(files, counter'), m'), r) == StatusOf(m', r) {
      CompleteRunReachesOutcome(files, counter', m', r);
      RunKeepsOutcome(files, counter, m, |Pending(files, counter)|, true, r);
      CompleteRunReachesOutcome(files, counter, m, r);
    }
    SameStatusSameInstallation(Perform(Pending(files, counter'), m'), m');
  }

  /** With no ref in two files, the last new action of a file was squashed away
      exactly if it is an update of a ref that an earlier one of that file
      installs or uninstalls. */
  lemma {:induction false} CounterReachesEndOfFileIff(files: Table, counter: Counter, name: string)
    requires GoodFiles(files) && name in files
    ensures var todo := Todo(files, counter)[name];
            Todo(files, CounterAfterAll(files, counter))[name] == []
            <==> todo == [] || Keeper(todo, todo[|todo|-1].ref) == Keep(todo[|todo|-1])
  {
    hide CounterAfterAll, Pending;
    var todo := Todo(files, counter)[name];
    CounterReachesEndIff(files, counter, name);
    if todo != [] {
      var last := todo[|todo|-1];
      TodoSource(files, counter, name, last);
      PendingMember(files, counter, last);
      PendingBySource(files, counter, last);
    }
  }

  /** After a second complete run nothing is left. */
  lemma {:induction false} SecondRunFinishes(files: Table, counter: Counter)
    requires GoodFiles(files)
    ensures Pending(files, CounterAfterAll(files, CounterAfterAll(files, counter))) == []
  {
    var second := CounterAfterAll(files, CounterAfterAll(files, counter));
    if Pending(files, second) != [] {
      var a := Pending(files, second)[0];
      PendingOf(files, second, a);
      SecondRunFinishesFile(files, counter, a.source);
    }
  }

  lemma {:induction false} SecondRunFinishesFile(files: Table, counter: Counter, name: string)
    requires GoodFiles(files) && name in files
    ensures Todo(files, CounterAfterAll(files, CounterAfterAll(files, counter)))[name] == []
  {
    var first := CounterAfterAll(files, counter);
    var todo := Todo(files, first)[name];
    CounterReachesEndOfFileIff(files, first, name);
    if todo != [] {
      forall a | a in todo ensures a.action == Update {
        LeftoverIsUpdate(files, counter, name, a);
      }
      UpdatesKeepLast(todo);
    }
  }

  lemma {:induction false} UpdatesKeepLast(s: seq<RefAction>)
    requires s != [] && forall a :: a in s ==> a.action == Update
    ensures Keeper(s, s[|s|-1].ref) == Keep(s[|s|-1])
  {
    var u := s[..|s|-1];
    assert s == u + [s[|s|-1]];
  }
}
