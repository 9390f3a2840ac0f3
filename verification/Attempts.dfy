// Any number of interrupted runs before a complete one, whatever refs the files
// share.

module Attempts {
  import opened Actions
  import opened Squash
  import opened Tables
  import opened Installer
  import opened PendingFacts
  import opened Recovery
  import opened Resumption

  /** All that the attempts perform, in turn. */
  ghost function DoneBy(w: World, events: seq<Event>): seq<RefAction>
    requires OnlyAttempts(events) && CanRun(w, events)
    decreases |events|
  {
    if events == [] then []
    else
      assert events[0] in events;
      assert OnlyAttempts(events[1..]);
      Performed(w.files, w.counter, events[0].done) + DoneBy(After(w, events[0]), events[1..])
  }

  ghost function NewInOrder(files: Table, counter: Counter): seq<RefAction> {
    assert Todo(files, counter).Keys == files.Keys;
    Concat(Todo(files, counter), files.Keys)
  }

  lemma {:induction false} AttemptsInstall(w: World, events: seq<Event>)
    requires OnlyAttempts(events) && CanRun(w, events)
    ensures RunAll(w, events).files == w.files
    ensures RunAll(w, events).installed == Perform(DoneBy(w, events), w.installed)
    decreases |events|
  {
    if events != [] {
      assert events[0] in events;
      assert OnlyAttempts(events[1..]);
      var next := After(w, events[0]);
      AttemptsInstall(next, events[1..]);
      PerformConcat(Performed(w.files, w.counter, events[0].done), DoneBy(next, events[1..]), w.installed);
    }
  }

  // -------------------------------------------------- what is done and left

  /** some is drawn from all, and has whatever stands for a ref in all. */
  ghost predicate KeepersOf(some: seq<RefAction>, all: seq<RefAction>) {
    && (forall a :: a in some ==> a in all)
    && (forall r :: Keeper(all, r).Keep? ==> Keeper(all, r).action in some)
  }

  lemma {:induction false} NewShrinks(files: Table, counter: Counter, k: nat)
    requires LoadedFiles(files) && k <= |Pending(files, counter)|
    ensures forall a :: a in NewInOrder(files, CounterAfter(files, counter, k)) ==> a in NewInOrder(files, counter)
  {
    hide CounterAfter, Pending, NewActions;
    var later := CounterAfter(files, counter, k);
    forall a | a in NewInOrder(files, later) ensures a in NewInOrder(files, counter) {
      ConcatMember(Todo(files, later), files.Keys, a);
      ConcatMember(Todo(files, counter), files.Keys, a);
      var name :| name in files && a in Todo(files, later)[name];
      var before := RunCuts(files, counter, k, name);
      assert a in Todo(files, counter)[name];
    }
  }

  /** One attempt: the actions that stand for their refs are performed, or stand
      for them still. */
  lemma {:induction false} AttemptKeeps(files: Table, counter: Counter, k: nat)
    requires LoadedFiles(files) && k <= |Pending(files, counter)|
    ensures (var done, all := Performed(files, counter, k), NewInOrder(files, counter);
             && (forall a :: a in done ==> a in all)
             && forall r :: Keeper(all, r).Keep? && Keeper(all, r).action !in done ==>
                              Keeper(NewInOrder(files, CounterAfter(files, counter, k)), r) == Keeper(all, r))
  {
    hide CounterAfter, Pending, NewActions, Keeper, Concat, LeftBehind;
    var done, all := Performed(files, counter, k), NewInOrder(files, counter);
    forall a | a in done ensures a in all {
      assert a in Pending(files, counter);
      PendingMember(files, counter, a);
    }
    TodoAfterRun(files, counter, k);
    forall r | Keeper(all, r).Keep? && Keeper(all, r).action !in done
      ensures Keeper(NewInOrder(files, CounterAfter(files, counter, k)), r) == Keeper(all, r)
    {
      LeftKeeper(files, counter, k, r);
    }
  }

  lemma {:induction false} OnceMore(done: seq<RefAction>, some: seq<RefAction>, left: seq<RefAction>,
                                    all: seq<RefAction>)
    requires KeepersOf(some, left) && forall a :: a in done + left ==> a in all
    requires forall r :: Keeper(all, r).Keep? && Keeper(all, r).action !in done ==> Keeper(left, r) == Keeper(all, r)
    ensures KeepersOf(done + some, all)
  {
    forall r | Keeper(all, r).Keep? ensures Keeper(all, r).action in done + some {
      if Keeper(all, r).action !in done {
        assert Keeper(left, r).action in some;
      }
    }
  }

  lemma {:induction false} AllKeepers(all: seq<RefAction>)
    ensures KeepersOf([] + all, all)
  {
    assert [] + all == all;
  }

  lemma {:induction false} DoneAndLeft(w: World, events: seq<Event>)
    requires LoadedFiles(w.files) && OnlyAttempts(events) && CanRun(w, events)
    ensures KeepersOf(DoneBy(w, events) + NewInOrder(w.files, RunAll(w, events).counter),
                      NewInOrder(w.files, w.counter))
    decreases |events|
  {
    hide LoadedFiles, KeepersOf, NewInOrder, Performed, CounterAfter, Pending, Keeper;
    var all := NewInOrder(w.files, w.counter);
    if events == [] {
      AllKeepers(all);
    } else {
      assert events[0] in events;
      assert OnlyAttempts(events[1..]);
      var k, next := events[0].done, After(w, events[0]);
      var done := Performed(w.files, w.counter, k);
      var rest := DoneBy(next, events[1..]);
      var left := NewInOrder(w.files, RunAll(w, events).counter);
      DoneAndLeft(next, events[1..]);
      AttemptKeeps(w.files, w.counter, k);
      NewShrinks(w.files, w.counter, k);
      OnceMore(done, rest + left, NewInOrder(w.files, next.counter), all);
      ConcatAssociates(done, rest, left);
    }
  }

  // ---------------------------------------------------------- the condition

  lemma {:induction false} AlikeByVerdict(some: seq<RefAction>, all: seq<RefAction>, r: Ref)
    requires KeepersOf(some, all)
    ensures VerdictOf(some, r) == VerdictOf(all, r) <==> DecidesAlike(some, all, r)
  {
    KeeperVerdict(some, r);
    KeeperVerdict(all, r);
    KeeperExists(some, r);
    KeeperExists(all, r);
    if Keeper(some, r).Keep? {
      assert Mentions(all, r);
      if Decides(Keeper(some, r)) {
        DecisiveKeeper(all, Keeper(some, r).action);
      }
    }
    if Keeper(all, r).Keep? {
      assert Mentions(some, r);
      if Decides(Keeper(all, r)) {
        DecisiveKeeper(some, Keeper(all, r).action);
      }
    }
  }

  /** For all loaded files and any history of attempts, saved or not: a complete
      run afterwards does, with them, what one uninterrupted run would have done
      to every installation, exactly if on each ref all that was performed and
      then what is left in name order decide as all the new actions in name order
      did at first. */
  lemma {:induction false} AttemptsResumeIff(w: World, events: seq<Event>)
    requires LoadedFiles(w.files) && OnlyAttempts(events) && CanRun(w, events)
    ensures InTurn(DoneBy(w, events), Pending(w.files, RunAll(w, events).counter), Pending(w.files, w.counter)) <==>
              DecideAlike(DoneBy(w, events) + NewInOrder(w.files, RunAll(w, events).counter),
                          NewInOrder(w.files, w.counter))
  {
    hide LoadedFiles, Pending, OnlyAttempts, CanRun, RunAll, DoneBy, DecidesAlike;
    var done, counter := DoneBy(w, events), RunAll(w, events).counter;
    var last, whole := Pending(w.files, counter), Pending(w.files, w.counter);
    var some, all := done + NewInOrder(w.files, counter), NewInOrder(w.files, w.counter);
    DoneAndLeft(w, events);
    InTwoGoes(done, last, whole);
    SameEffectIffSameVerdicts(done + last, whole);
    forall r ensures VerdictOf(done + last, r) == VerdictOf(whole, r) <==> DecidesAlike(some, all, r) {
      VerdictConcat(done, last, r);
      VerdictConcat(done, NewInOrder(w.files, counter), r);
      PendingVerdict(w.files, counter, r);
      PendingVerdict(w.files, w.counter, r);
      AlikeByVerdict(some, all, r);
    }
    RefByRef(done + last, whole, some, all);
  }

  lemma {:induction false} PendingVerdict(files: Table, counter: Counter, r: Ref)
    ensures VerdictOf(Pending(files, counter), r) == VerdictOf(NewInOrder(files, counter), r)
  {
    assert Todo(files, counter).Keys == files.Keys;
    FlattenedVerdict(Todo(files, counter), r);
  }
}
