// What a run leaves behind, whatever the files mention: which actions the
// counter has not passed, and when going on with them does what one run would.

module Resumption {
  import opened Actions
  import opened ActionFile
  import opened Squash
  import opened Tables
  import opened Installer
  import opened PendingFacts
  import opened Recovery

  // ------------------------------------------------ what the counter passes

  /** What follows the last action of s that is in done. */
  ghost function Unreached(s: seq<RefAction>, done: seq<RefAction>): seq<RefAction> {
    if s == [] || s[|s|-1] in done then [] else Unreached(s[..|s|-1], done) + [s[|s|-1]]
  }

  /** What is new in each file after the last of its actions in done. */
  ghost function LeftBehind(files: Table, counter: Counter, done: seq<RefAction>): Table {
    map name | name in files :: Unreached(Todo(files, counter)[name], done)
  }

  lemma {:induction false} UnreachedAfter(before: seq<RefAction>, after: seq<RefAction>, done: seq<RefAction>)
    requires before != [] ==> before[|before|-1] in done
    requires forall a :: a in after ==> a !in done
    ensures Unreached(before + after, done) == after
  {
    if after == [] {
      assert before + after == before;
    } else {
      var u := after[..|after|-1];
      UnreachedAfter(before, u, done);
      assert (before + after)[..|before + after|-1] == before + u;
      assert after[|after|-1] in after;
    }
  }

  /** A run that performs the first k pending actions leaves in each file just
      what follows the last of them. */
  lemma {:induction false} TodoAfterRun(files: Table, counter: Counter, k: nat)
    requires LoadedFiles(files) && k <= |Pending(files, counter)|
    ensures Todo(files, CounterAfter(files, counter, k)) == LeftBehind(files, counter, Performed(files, counter, k))
  {
    hide CounterAfter, Pending, Performed, Unreached, NewActions;
    var todo := Todo(files, CounterAfter(files, counter, k));
    var left := LeftBehind(files, counter, Performed(files, counter, k));
    forall name | name in files ensures todo[name] == left[name] {
      TodoAfterRunIn(files, counter, k, name);
    }
    SameTable(todo, left);
  }

  lemma {:induction false} SameTable(s: Table, t: Table)
    requires s.Keys == t.Keys && forall name :: name in s ==> s[name] == t[name]
    ensures s == t
  {
  }

  lemma {:induction false} TodoAfterRunIn(files: Table, counter: Counter, k: nat, name: string)
    requires LoadedFiles(files) && k <= |Pending(files, counter)| && name in files
    ensures Todo(files, CounterAfter(files, counter, k))[name]
         == Unreached(Todo(files, counter)[name], Performed(files, counter, k))
  {
    var left := Todo(files, CounterAfter(files, counter, k))[name];
    var before := RunCuts(files, counter, k, name);
    UnreachedAfter(before, left, Performed(files, counter, k));
  }

  /** An action is still new after a complete run exactly if it was new and its
      serial is above those of all actions of its file that were pending. */
  lemma {:induction false} StillNewIff(files: Table, counter: Counter, name: string, a: RefAction)
    requires LoadedFiles(files) && name in files
    ensures a in Todo(files, CounterAfterAll(files, counter))[name] <==>
              && a in Todo(files, counter)[name]
              && forall b :: b in Pending(files, counter) && b.source == name ==> b.serial < a.serial
  {
    var done, todo := Pending(files, counter), Todo(files, counter)[name];
    AllPerformed(files, counter);
    NextTodo(files, counter, |done|, name);
    NewIncreases(name, files[name], counter);
    InNewActions(name, todo, Progress(done), a);
    PendingAscends(files, counter);
    ProgressIsLast(done, name);
    forall b | b in done && b.source == name ensures b.serial <= Progress(done)[name] {
      ProgressIsGreatest(done, b);
    }
  }

  // -------------------------------------------------- what is left to decide

  /** If what is left installs or uninstalls a ref, then the last of it to do so
      does what the last of all the new actions to do so does. */
  ghost predicate DecidesAlike(left: seq<RefAction>, all: seq<RefAction>, r: Ref) {
    Decides(Keeper(left, r)) ==>
      Decides(Keeper(all, r)) && Keeper(left, r).action.action == Keeper(all, r).action.action
  }

  ghost predicate DecideAlike(left: seq<RefAction>, all: seq<RefAction>) {
    forall r :: DecidesAlike(left, all, r)
  }

  /** left is a final part of todo. */
  ghost predicate EndOf(left: seq<RefAction>, todo: seq<RefAction>) {
    |left| <= |todo| && todo[|todo| - |left|..] == left
  }

  ghost function Passed(left: seq<RefAction>, todo: seq<RefAction>): (before: seq<RefAction>)
    requires EndOf(left, todo)
    ensures todo == before + left
  {
    todo[..|todo| - |left|]
  }

  /** left keeps no ref that todo does not, and decides none that it does not. */
  predicate NoMore(left: Kept, todo: Kept) {
    (left.Keep? ==> todo.Keep?) && (Decides(left) ==> Decides(todo))
  }

  lemma {:induction false} EndKeepsNoMore(left: seq<RefAction>, todo: seq<RefAction>, r: Ref)
    requires EndOf(left, todo)
    ensures NoMore(Keeper(left, r), Keeper(todo, r))
  {
    KeeperConcat(Passed(left, todo), left, r);
  }

  /** Each list of left is a final part of that of todo. */
  ghost predicate EndsOf(left: Table, todo: Table, names: set<string>)
    requires names <= left.Keys && names <= todo.Keys
  {
    forall name :: name in names ==> EndOf(left[name], todo[name])
  }

  lemma {:induction false} EndsKeepNoMore(left: Table, todo: Table, names: set<string>, r: Ref)
    requires names <= left.Keys && names <= todo.Keys && EndsOf(left, todo, names)
    ensures NoMore(Keeper(Concat(left, names), r), Keeper(Concat(todo, names), r))
    decreases |names|
  {
    if names != {} {
      var name := Least(names);
      var rest := names - {name};
      EndsKeepNoMore(left, todo, rest, r);
      EndKeepsNoMore(left[name], todo[name], r);
      KeeperConcat(left[name], Concat(left, rest), r);
      KeeperConcat(todo[name], Concat(todo, rest), r);
    }
  }

  /** An action that stands for its ref and has not been passed stands for it
      still. */
  lemma {:induction false} WaitingKeeper(left: Table, todo: Table, names: set<string>, q: RefAction)
    requires names <= left.Keys && names <= todo.Keys && EndsOf(left, todo, names)
    requires forall name :: name in names ==> q !in Passed(left[name], todo[name])
    requires Keeper(Concat(todo, names), q.ref) == Keep(q)
    ensures Keeper(Concat(left, names), q.ref) == Keep(q)
    decreases |names|
  {
    var name := Least(names);
    var rest := names - {name};
    KeeperConcat(left[name], Concat(left, rest), q.ref);
    KeeperConcat(todo[name], Concat(todo, rest), q.ref);
    if Keeper(Concat(todo, rest), q.ref) == Keep(q) && Replaces(q, Keeper(todo[name], q.ref)) {
      WaitingKeeper(left, todo, rest, q);
      EndKeepsNoMore(left[name], todo[name], q.ref);
    } else {
      BeforeKeeper(Passed(left[name], todo[name]), left[name], q);
      EndsKeepNoMore(left, todo, rest, q.ref);
    }
  }

  lemma {:induction false} RunLeavesEnds(files: Table, counter: Counter, k: nat)
    requires LoadedFiles(files) && k <= |Pending(files, counter)|
    ensures (var left := LeftBehind(files, counter, Performed(files, counter, k));
             && EndsOf(left, Todo(files, counter), files.Keys)
             && forall name, a :: name in files && a in Passed(left[name], Todo(files, counter)[name]) ==>
                                    a in Pending(files, counter) ==> a in Performed(files, counter, k))
  {
    TodoAfterRun(files, counter, k);
    var left, todo := LeftBehind(files, counter, Performed(files, counter, k)), Todo(files, counter);
    forall name | name in files
      ensures EndOf(left[name], todo[name])
      ensures forall a :: a in Passed(left[name], todo[name]) && a in Pending(files, counter) ==>
                            a in Performed(files, counter, k)
    {
      var before := RunCuts(files, counter, k, name);
      SameFront(before, left[name], todo[name]);
    }
  }

  lemma {:induction false} SameFront(before: seq<RefAction>, left: seq<RefAction>, todo: seq<RefAction>)
    requires todo == before + left
    ensures EndOf(left, todo) && Passed(left, todo) == before
  {
  }

  function Meaning(kept: Kept, r: Ref): Verdict {
    if kept.Keep? then ActionVerdict(kept.action, r) else Untouched
  }

  lemma {:induction false} AlikeByMeaning(some: Kept, all: Kept, reached: bool, r: Ref)
    requires (some.Keep? ==> some.action.ref == r) && (all.Keep? ==> all.action.ref == r)
    requires NoMore(some, all) && (all.Keep? && !reached ==> some == all)
    ensures (if all.Keep? && reached then Meaning(all, r) else Untouched).Then(Meaning(some, r)) == Meaning(all, r)
       <==> (Decides(some) ==> Decides(all) && some.action.action == all.action.action)
  {
  }

  /** On one ref: the first k pending actions, then all that is left. */
  lemma {:induction false} ResumesOnRefIff(files: Table, counter: Counter, k: nat, r: Ref)
    requires LoadedFiles(files) && k <= |Pending(files, counter)|
    ensures (var left := LeftBehind(files, counter, Performed(files, counter, k));
             VerdictOf(Performed(files, counter, k), r).Then(VerdictOf(Concat(left, files.Keys), r))
             == VerdictOf(Concat(Todo(files, counter), files.Keys), r)
             <==> DecidesAlike(Concat(left, files.Keys), Concat(Todo(files, counter), files.Keys), r))
  {
    var done := Performed(files, counter, k);
    var left, todo := LeftBehind(files, counter, done), Todo(files, counter);
    var some, all := Concat(left, files.Keys), Concat(todo, files.Keys);
    LeftKeeper(files, counter, k, r);
    KeeperVerdict(some, r);
    KeeperVerdict(all, r);
    DoneIsKeeper(files, counter, k, r);
    var kept := Keeper(all, r);
    AlikeByMeaning(Keeper(some, r), kept, kept.Keep? && kept.action in done, r);
  }

  lemma {:induction false} LeftKeeper(files: Table, counter: Counter, k: nat, r: Ref)
    requires LoadedFiles(files) && k <= |Pending(files, counter)|
    ensures (var done := Performed(files, counter, k);
             var some := Keeper(Concat(LeftBehind(files, counter, done), files.Keys), r);
             var all := Keeper(Concat(Todo(files, counter), files.Keys), r);
             NoMore(some, all) && (all.Keep? && all.action !in done ==> some == all))
  {
    var done := Performed(files, counter, k);
    var left, todo := LeftBehind(files, counter, done), Todo(files, counter);
    RunLeavesEnds(files, counter, k);
    EndsKeepNoMore(left, todo, files.Keys, r);
    var all := Keeper(Concat(todo, files.Keys), r);
    if all.Keep? && all.action !in done {
      PendingMember(files, counter, all.action);
      WaitingKeeper(left, todo, files.Keys, all.action);
    }
  }

  lemma {:induction false} DoneIsKeeper(files: Table, counter: Counter, k: nat, r: Ref)
    requires k <= |Pending(files, counter)|
    ensures (var kept, done := Keeper(Concat(Todo(files, counter), files.Keys), r), Performed(files, counter, k);
             VerdictOf(done, r) ==
             if kept.Keep? && kept.action in done then ActionVerdict(kept.action, r) else Untouched)
  {
    var kept, done := Keeper(Concat(Todo(files, counter), files.Keys), r), Performed(files, counter, k);
    PendingDistinct(files, counter);
    SplitAt(Pending(files, counter), k);
    FrontDistinct(done, Pending(files, counter)[k..]);
    if kept.Keep? && kept.action in done {
      VerdictOfDistinct(done, kept.action);
    } else {
      forall a | a in done ensures a.ref != r {
        assert a in Pending(files, counter);
        PendingMember(files, counter, a);
      }
      UnmentionedUntouched(done, r);
    }
  }

  // ------------------------------------------------------------- resumption

  ghost predicate InTurn(s: seq<RefAction>, t: seq<RefAction>, u: seq<RefAction>) {
    forall m :: Perform(t, Perform(s, m)) == Perform(u, m)
  }

  /** The first k pending actions, and then a complete run, do to every
      installation what one complete run does. */
  ghost predicate Resumes(files: Table, counter: Counter, k: nat)
    requires k <= |Pending(files, counter)|
  {
    InTurn(Performed(files, counter, k), Pending(files, CounterAfter(files, counter, k)), Pending(files, counter))
  }

  lemma {:induction false} ResumesByRef(files: Table, counter: Counter, k: nat, r: Ref)
    requires LoadedFiles(files) && k <= |Pending(files, counter)|
    ensures (var done, later := Performed(files, counter, k), Pending(files, CounterAfter(files, counter, k));
             VerdictOf(done + later, r) == VerdictOf(Pending(files, counter), r) <==>
             DecidesAlike(Concat(LeftBehind(files, counter, done), files.Keys),
                          Concat(Todo(files, counter), files.Keys), r))
  {
    var counter' := CounterAfter(files, counter, k);
    VerdictConcat(Performed(files, counter, k), Pending(files, counter'), r);
    TodoAfterRun(files, counter, k);
    assert Todo(files, counter').Keys == files.Keys && Todo(files, counter).Keys == files.Keys;
    FlattenedVerdict(Todo(files, counter'), r);
    FlattenedVerdict(Todo(files, counter), r);
    ResumesOnRefIff(files, counter, k, r);
  }

  /** For all loaded files, sharing refs or not: a run that stops after k
      actions is made good by the next exactly if, on each ref, what it leaves
      in name order decides as all the new actions in name order do. */
  lemma {:induction false} ResumesIff(files: Table, counter: Counter, k: nat)
    requires LoadedFiles(files) && k <= |Pending(files, counter)|
    ensures Resumes(files, counter, k) <==>
              DecideAlike(Concat(LeftBehind(files, counter, Performed(files, counter, k)), files.Keys),
                          Concat(Todo(files, counter), files.Keys))
  {
    var done, later := Performed(files, counter, k), Pending(files, CounterAfter(files, counter, k));
    var some, all := Concat(LeftBehind(files, counter, done), files.Keys), Concat(Todo(files, counter), files.Keys);
    InTwoGoes(done, later, Pending(files, counter));
    SameEffectIffSameVerdicts(done + later, Pending(files, counter));
    forall r
      ensures VerdictOf(done + later, r) == VerdictOf(Pending(files, counter), r) <==> DecidesAlike(some, all, r)
    {
      ResumesByRef(files, counter, k, r);
    }
    RefByRef(done + later, Pending(files, counter), some, all);
  }

  lemma {:induction false} RefByRef(s: seq<RefAction>, t: seq<RefAction>, some: seq<RefAction>, all: seq<RefAction>)
    requires forall r :: VerdictOf(s, r) == VerdictOf(t, r) <==> DecidesAlike(some, all, r)
    ensures SameVerdicts(s, t) <==> DecideAlike(some, all)
  {
    if DecideAlike(some, all) {
      forall r ensures VerdictOf(s, r) == VerdictOf(t, r) {
        assert DecidesAlike(some, all, r);
      }
    }
    if SameVerdicts(s, t) {
      forall r ensures DecidesAlike(some, all, r) {
        assert VerdictOf(s, r) == VerdictOf(t, r);
      }
    }
  }

  lemma {:induction false} InTwoGoes(s: seq<RefAction>, t: seq<RefAction>, u: seq<RefAction>)
    ensures InTurn(s, t, u) <==> SameEffect(s + t, u)
  {
    forall m ensures Perform(s + t, m) == Perform(t, Perform(s, m)) {
      PerformConcat(s, t, m);
    }
    if SameEffect(s + t, u) {
      forall m ensures Perform(t, Perform(s, m)) == Perform(u, m) {
        assert Perform(s + t, m) == Perform(u, m);
      }
    }
    if InTurn(s, t, u) {
      forall m ensures Perform(s + t, m) == Perform(u, m) {
        assert Perform(t, Perform(s, m)) == Perform(u, m);
      }
    }
  }

  /** Running again after a complete run changes nothing exactly if, on each
      ref, the actions that follow the last pending one of their file decide, in
      name order, as the first run did. */
  lemma {:induction false} RerunChangesNothingIff(files: Table, counter: Counter)
    requires LoadedFiles(files)
    ensures InTurn(Pending(files, counter), Pending(files, CounterAfterAll(files, counter)),
                   Pending(files, counter)) <==>
              DecideAlike(Concat(LeftBehind(files, counter, Pending(files, counter)), files.Keys),
                          Concat(Todo(files, counter), files.Keys))
  {
    AllPerformed(files, counter);
    ResumesIff(files, counter, |Pending(files, counter)|);
  }

  lemma {:induction false} OneAttemptResumes(files: Table, counter: Counter, k: nat, m: Installation)
    requires GoodFiles(files) && k <= |Pending(files, counter)|
    ensures Perform(Pending(files, CounterAfter(files, counter, k)), Perform(Performed(files, counter, k), m))
         == Perform(Pending(files, counter), m)
  {
    var counter', m' := CounterAfter(files, counter, k), Perform(Performed(files, counter, k), m);
    forall r
      ensures StatusOf(Perform(Pending(files, counter'), m'), r) == StatusOf(Perform(Pending(files, counter), m), r)
    {
      RunKeepsOutcome(files, counter, m, k, true, r);
      CompleteRunReachesOutcome(files, counter, m, r);
      CompleteRunReachesOutcome(files, counter', m', r);
    }
    SameStatusSameInstallation(Perform(Pending(files, counter'), m'), Perform(Pending(files, counter), m));
  }

  /** Files that share no ref meet the condition, wherever a run stops. */
  lemma {:induction false} DisjointFilesResume(files: Table, counter: Counter, k: nat)
    requires GoodFiles(files) && k <= |Pending(files, counter)|
    ensures Resumes(files, counter, k)
    ensures DecideAlike(Concat(LeftBehind(files, counter, Performed(files, counter, k)), files.Keys),
                        Concat(Todo(files, counter), files.Keys))
  {
    forall m ensures Perform(Pending(files, CounterAfter(files, counter, k)), Perform(Performed(files, counter, k), m))
                  == Perform(Pending(files, counter), m)
    {
      OneAttemptResumes(files, counter, k, m);
    }
    ResumesIff(files, counter, k);
  }

  // ------------------------------------------------------ how the runs end

  lemma {:induction false} AllReachedIff(s: seq<RefAction>, done: seq<RefAction>)
    requires s != []
    ensures Unreached(s, done) == [] <==> s[|s|-1] in done
  {
  }

  lemma {:induction false} NothingLeftIff(files: Table, counter: Counter, name: string)
    requires LoadedFiles(files) && name in files && Todo(files, counter)[name] != []
    ensures Todo(files, CounterAfterAll(files, counter))[name] == [] <==>
              Todo(files, counter)[name][|Todo(files, counter)[name]| - 1] in Pending(files, counter)
  {
    hide CounterAfter, Pending, Unreached, NewActions;
    AllPerformed(files, counter);
    TodoAfterRunIn(files, counter, |Pending(files, counter)|, name);
    AllReachedIff(Todo(files, counter)[name], Pending(files, counter));
  }

  lemma {:induction false} NothingNewStays(files: Table, counter: Counter, name: string)
    requires LoadedFiles(files) && name in files && Todo(files, counter)[name] == []
    ensures Todo(files, CounterAfterAll(files, counter))[name] == []
  {
    AllPerformed(files, counter);
    TodoAfterRunIn(files, counter, |Pending(files, counter)|, name);
  }

  /** A complete run takes a file's counter to the end of the file exactly when
      the last new action was not squashed away, that is when it stands for its
      ref among all the new actions in name order. */
  lemma {:induction false} CounterReachesEndIff(files: Table, counter: Counter, name: string)
    requires LoadedFiles(files) && name in files
    ensures (var todo := Todo(files, counter)[name];
             Todo(files, CounterAfterAll(files, counter))[name] == [] <==>
               || todo == []
               || Keeper(Concat(Todo(files, counter), files.Keys), todo[|todo|-1].ref) == Keep(todo[|todo|-1]))
  {
    hide CounterAfterAll, Pending, NewActions, Keeper, Concat;
    var todo := Todo(files, counter)[name];
    if todo != [] {
      NothingLeftIff(files, counter, name);
      PendingMember(files, counter, todo[|todo|-1]);
    } else {
      NothingNewStays(files, counter, name);
    }
  }

  /** The counter after n complete runs. */
  ghost function AfterRuns(files: Table, counter: Counter, n: nat): Counter {
    if n == 0 then counter else CounterAfterAll(files, AfterRuns(files, counter, n - 1))
  }

  lemma {:induction false} ConcatShrinks(left: Table, todo: Table, names: set<string>, name: string)
    requires names <= left.Keys && names <= todo.Keys && name in names
    requires forall o :: o in names ==> |left[o]| <= |todo[o]|
    requires |left[name]| < |todo[name]|
    ensures |Concat(left, names)| < |Concat(todo, names)|
    decreases |names|
  {
    var rest := names - {Least(names)};
    ConcatNoLonger(left, todo, rest);
    if Least(names) != name {
      ConcatShrinks(left, todo, rest, name);
    }
  }

  lemma {:induction false} ConcatNoLonger(left: Table, todo: Table, names: set<string>)
    requires names <= left.Keys && names <= todo.Keys
    requires forall o :: o in names ==> |left[o]| <= |todo[o]|
    ensures |Concat(left, names)| <= |Concat(todo, names)|
    decreases |names|
  {
    if names != {} {
      ConcatNoLonger(left, todo, names - {Least(names)});
    }
  }

  ghost function NewCount(files: Table, counter: Counter): nat {
    |Concat(Todo(files, counter), files.Keys)|
  }

  /** While anything is pending, each complete run leaves fewer new actions. */
  lemma {:induction false} RunLeavesFewer(files: Table, counter: Counter)
    requires LoadedFiles(files) && Pending(files, counter) != []
    ensures NewCount(files, CounterAfterAll(files, counter)) < NewCount(files, counter)
  {
    var left, todo := Todo(files, CounterAfterAll(files, counter)), Todo(files, counter);
    var a := Pending(files, counter)[0];
    PendingOf(files, counter, a);
    forall name | name in files
      ensures |left[name]| <= |todo[name]| && (name == a.source ==> |left[name]| < |todo[name]|)
    {
      FewerInFile(files, counter, name, a);
    }
    ConcatShrinks(left, todo, files.Keys, a.source);
  }

  lemma {:induction false} FewerInFile(files: Table, counter: Counter, name: string, a: RefAction)
    requires LoadedFiles(files) && name in files && a in Pending(files, counter)
    ensures (var left, todo := Todo(files, CounterAfterAll(files, counter))[name], Todo(files, counter)[name];
             |left| <= |todo| && (a in todo ==> |left| < |todo|))
  {
    AllPerformed(files, counter);
    var before := RunCuts(files, counter, |Pending(files, counter)|, name);
    if before == [] {
      assert Todo(files, counter)[name] == Todo(files, CounterAfterAll(files, counter))[name];
    }
  }

  lemma {:induction false} NothingNewNothingPending(files: Table, counter: Counter)
    requires NewCount(files, counter) == 0
    ensures Pending(files, counter) == []
  {
    if Pending(files, counter) != [] {
      PendingMember(files, counter, Pending(files, counter)[0]);
      assert false;
    }
  }

  lemma {:induction false} NothingPendingStays(files: Table, counter: Counter)
    requires Pending(files, counter) == []
    ensures CounterAfterAll(files, counter) == counter
  {
    assert Progress([]) == map[];
    AllPerformed(files, counter);
  }

  lemma {:induction false} FewerEachRun(files: Table, counter: Counter, n: nat)
    requires LoadedFiles(files)
    ensures Pending(files, AfterRuns(files, counter, n)) == []
         || NewCount(files, AfterRuns(files, counter, n)) + n <= NewCount(files, counter)
  {
    hide CounterAfterAll, Pending, NewCount;
    if n > 0 {
      var before := AfterRuns(files, counter, n - 1);
      FewerEachRun(files, counter, n - 1);
      if Pending(files, before) == [] {
        NothingPendingStays(files, before);
      } else {
        RunLeavesFewer(files, before);
      }
    }
  }

  /** Whatever the files mention, as many complete runs as there are new actions
      leave nothing to do. */
  lemma {:induction false} EveryActionIsPassed(files: Table, counter: Counter, n: nat)
    requires LoadedFiles(files) && n >= |Concat(Todo(files, counter), files.Keys)|
    ensures Pending(files, AfterRuns(files, counter, n)) == []
  {
    FewerEachRun(files, counter, n);
    if Pending(files, AfterRuns(files, counter, n)) != [] {
      NothingNewNothingPending(files, AfterRuns(files, counter, n));
    }
  }

  // ------------------------------------------------------------- two examples

  /** An install followed by an update of the same ref: the update is squashed
      away, and the counter stays in front of it. */
  lemma {:induction false} CounterLagsBehind(n: string, a: RefAction, b: RefAction)
    requires a.ref == b.ref && a.action == Install && b.action == Update && a.source == b.source == n
    requires a.serial < b.serial
    ensures var files := map[n := [a, b]];
            var counter := CounterAfterAll(files, map[]);
            counter == map[n := a.serial] && Todo(files, counter)[n] == [b]
  {
    var files := map[n := [a, b]];
    assert Todo(files, map[]) == files;
    TwoInOneFile(files, n, a, b);
    assert [a, b][..1] == [a] && [a][..0] == [];
    assert Keeper([a, b], a.ref) == Keep(a);
    forall x | x in Pending(files, map[]) ensures x == a {
      PendingMember(files, map[], x);
    }
    PendingMember(files, map[], a);
    AllPerformed(files, map[]);
    ProgressOfOne(Pending(files, map[]), a);
    assert DropApplied([a, b], a.serial) == DropApplied([a, b][1..], a.serial);
  }

  lemma {:induction false} TwoInOneFile(files: Table, n: string, a: RefAction, b: RefAction)
    requires files == map[n := [a, b]]
    ensures Concat(files, files.Keys) == [a, b]
  {
    assert files.Keys == {n} && Least({n}) == n && {n} - {n} == {};
    assert [a, b] + [] == [a, b];
  }

  /** Two files, the first in name order installing what the second
      uninstalls. */
  function Contested(n: string, a: RefAction, o: string, b: RefAction): Table {
    map[n := [a], o := [b]]
  }

  /** With a ref in two files the second file rightly wins the first run, but
      the first file's counter is left behind, and the next run undoes it. */
  lemma {:induction false} SharedRefComesBack(n: string, a: RefAction, o: string, b: RefAction, m: Installation)
    requires n != o && SortsBefore(n, o) && a.ref == b.ref
    requires a.action == Install && a.source == n && b.action == Uninstall && b.source == o
    ensures var files := Contested(n, a, o, b);
            var m' := Perform(Pending(files, map[]), m);
            a.ref !in m' && a.ref in Perform(Pending(files, CounterAfterAll(files, map[])), m')
  {
    hide Pending, Contested, CounterAfterAll, VerdictOf;
    var files := Contested(n, a, o, b);
    var s := Pending(files, map[]);
    SecondFileWins(n, a, o, b);
    PerformByVerdict(s, m, a.ref);
    FirstFileReturns(n, a, o, b);
    PerformByVerdict(Pending(files, CounterAfterAll(files, map[])), Perform(s, m), a.ref);
  }

  lemma {:induction false} SecondFileWins(n: string, a: RefAction, o: string, b: RefAction)
    requires n != o && SortsBefore(n, o) && a.ref == b.ref && a.action == Install && b.action == Uninstall
    ensures VerdictOf(Pending(Contested(n, a, o, b), map[]), a.ref) == Removed
  {
    var files := Contested(n, a, o, b);
    assert Todo(files, map[]) == files;
    Single(b);
    FlattenPriority(files, a.ref, o);
  }

  lemma {:induction false} FirstFileReturns(n: string, a: RefAction, o: string, b: RefAction)
    requires n != o && SortsBefore(n, o) && a.ref == b.ref
    requires a.action == Install && a.source == n && b.action == Uninstall && b.source == o
    ensures var files := Contested(n, a, o, b);
            VerdictOf(Pending(files, CounterAfterAll(files, map[])), a.ref) == Installed
  {
    var files := Contested(n, a, o, b);
    SecondFileWins(n, a, o, b);
    ContestedPending(n, a, o, b);
    ContestedCounter(n, a, o, b);
    var left := Todo(files, CounterAfterAll(files, map[]));
    LeftAfter(n, a, o, b);
    Single(a);
    FlattenPriority(left, a.ref, n);
  }

  lemma {:induction false} LeftAfter(n: string, a: RefAction, o: string, b: RefAction)
    requires n != o
    ensures Todo(Contested(n, a, o, b), map[o := b.serial]) == map[n := [a], o := []]
  {
    assert [b][1..] == [] && DropApplied([], b.serial) == [];
    assert DropApplied([b], b.serial) == [];
  }

  lemma {:induction false} Single(a: RefAction)
    ensures VerdictOf([a], a.ref) == ActionVerdict(a, a.ref)
  {
    assert [a][..0] == [];
    assert VerdictOf([], a.ref) == Untouched;
  }

  lemma {:induction false} ContestedPending(n: string, a: RefAction, o: string, b: RefAction)
    requires n != o && a.ref == b.ref && a.action == Install && b.action == Uninstall
    requires VerdictOf(Pending(Contested(n, a, o, b), map[]), b.ref) == Removed
    ensures b in Pending(Contested(n, a, o, b), map[])
    ensures forall x :: x in Pending(Contested(n, a, o, b), map[]) ==> x == b
  {
    var files := Contested(n, a, o, b);
    var s := Pending(files, map[]);
    PendingDistinct(files, map[]);
    forall x | x in s ensures x == b {
      ContestedMember(n, a, o, b, x);
      VerdictOfDistinct(s, x);
    }
    assert s != [] && s[0] in s;
  }

  lemma {:induction false} ContestedMember(n: string, a: RefAction, o: string, b: RefAction, x: RefAction)
    requires n != o && x in Pending(Contested(n, a, o, b), map[])
    ensures x == a || x == b
  {
    PendingFromSome(Contested(n, a, o, b), map[], x);
  }

  lemma {:induction false} PendingFromSome(files: Table, counter: Counter, x: RefAction)
    requires x in Pending(files, counter)
    ensures exists name :: name in files && x in Todo(files, counter)[name]
  {
    var table := SquashedTable(Todo(files, counter));
    InSquashed(Concat(table, table.Keys), x);
    ConcatMember(table, table.Keys, x);
    var name :| name in table && x in table[name];
    InSquashed(Todo(files, counter)[name], x);
  }

  lemma {:induction false} ContestedCounter(n: string, a: RefAction, o: string, b: RefAction)
    requires n != o && b.source == o
    requires b in Pending(Contested(n, a, o, b), map[])
    requires forall x :: x in Pending(Contested(n, a, o, b), map[]) ==> x == b
    ensures CounterAfterAll(Contested(n, a, o, b), map[]) == map[o := b.serial]
  {
    var s := Pending(Contested(n, a, o, b), map[]);
    AllPerformed(Contested(n, a, o, b), map[]);
    ProgressOfOne(s, b);
    assert map[] + Progress(s) == Progress(s);
  }

  lemma {:induction false} ProgressOfOne(s: seq<RefAction>, b: RefAction)
    requires s != [] && forall x :: x in s ==> x == b
    ensures Progress(s) == map[b.source := b.serial]
  {
    var u := s[..|s|-1];
    assert s == u + [s[|s|-1]] && s[|s|-1] in s;
    assert forall x :: x in u ==> x in s;
    if u != [] {
      ProgressOfOne(u, b);
    }
  }
}
